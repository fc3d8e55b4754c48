// The string operations of Python that the modelled files share.
module PyStrings {
  import opened Wrappers

  type CharTest = char -> bool

  // The boundaries of str.splitlines.
  const BREAK: CharTest :=
    c => c == '\n' || c == '\r' || '\U{0B}' <= c <= '\U{0C}' || '\U{1C}' <= c <= '\U{1E}' || c == '\U{85}'
         || c == '\U{2028}' || c == '\U{2029}'

  // str.isspace
  const SPACE: CharTest :=
    c => BREAK(c) || c == ' ' || c == '\t' || c == '\U{1F}' || c == '\U{A0}' || c == '\U{1680}'
         || '\U{2000}' <= c <= '\U{200A}' || c == '\U{202F}' || c == '\U{205F}' || c == '\U{3000}'

  // Both by code point.
  lemma CodePoints(c: char)
    ensures BREAK(c) <==> c as int in {10, 11, 12, 13, 28, 29, 30, 133, 8232, 8233}
    ensures SPACE(c) <==> || 9 <= c as int <= 13 || 28 <= c as int <= 32 || 8192 <= c as int <= 8202
                          || c as int in {133, 160, 5760, 8232, 8233, 8239, 8287, 12288}
  {
  }

  predicate All(s: string, ok: CharTest) {
    forall i :: 0 <= i < |s| ==> ok(s[i])
  }

  predicate Without(s: string, bad: CharTest) {
    forall i :: 0 <= i < |s| ==> !bad(s[i])
  }

  // str.join
  function Join(parts: seq<string>, sep: string): string {
    if parts == [] then "" else if |parts| == 1 then parts[0] else parts[0] + sep + Join(parts[1..], sep)
  }

  // str.lstrip, str.rstrip and str.strip
  function StripLeft(s: string, gone: CharTest): string {
    if s != "" && gone(s[0]) then StripLeft(s[1..], gone) else s
  }

  function StripRight(s: string, gone: CharTest): string {
    if s != "" && gone(s[|s| - 1]) then StripRight(s[..|s| - 1], gone) else s
  }

  function Strip(s: string, gone: CharTest): string {
    StripRight(StripLeft(s, gone), gone)
  }

  lemma {:induction false} StripLeftSkips(a: string, b: string, gone: CharTest)
    requires All(a, gone)
    ensures StripLeft(a + b, gone) == StripLeft(b, gone)
  {
    if a == "" {
      assert a + b == b;
    } else {
      assert gone(a[0]) && (a + b)[1..] == a[1..] + b;
      StripLeftSkips(a[1..], b, gone);
    }
  }

  lemma {:induction false} StripRightSkips(a: string, b: string, gone: CharTest)
    requires All(b, gone)
    ensures StripRight(a + b, gone) == StripRight(a, gone)
    decreases |b|
  {
    if b == "" {
      assert a + b == a;
    } else {
      var n := |b| - 1;
      assert gone(b[n]) && (a + b)[..|a + b| - 1] == a + b[..n];
      StripRightSkips(a, b[..n], gone);
    }
  }

  // What stripping leaves is a piece of the string that does not begin, or end, with what was stripped.
  lemma {:induction false} StripLeftPart(s: string, gone: CharTest) returns (n: nat)
    ensures n <= |s| && StripLeft(s, gone) == s[n..]
    ensures StripLeft(s, gone) == "" || !gone(StripLeft(s, gone)[0])
  {
    n := 0;
    if s != "" && gone(s[0]) {
      var m := StripLeftPart(s[1..], gone);
      n := m + 1;
      assert s[1..][m..] == s[n..];
    } else {
      assert s[0..] == s;
    }
  }

  lemma {:induction false} StripRightPart(s: string, gone: CharTest)
    ensures StripRight(s, gone) <= s
    ensures StripRight(s, gone) == "" || !gone(StripRight(s, gone)[|StripRight(s, gone)| - 1])
  {
    if s == "" || !gone(s[|s| - 1]) {
    } else {
      StripRightPart(s[..|s| - 1], gone);
    }
  }

  lemma NotStripped(s: string, gone: CharTest)
    requires s != "" && !gone(s[0]) && !gone(s[|s| - 1])
    ensures Strip(s, gone) == s
  {
  }

  lemma {:induction false} StripLeftEmpty(s: string, gone: CharTest)
    requires StripLeft(s, gone) == ""
    ensures All(s, gone)
  {
    if s == "" {
    } else {
      StripLeftEmpty(s[1..], gone);
      forall i | 0 <= i < |s| ensures gone(s[i]) {
        assert i > 0 ==> s[1..][i - 1] == s[i];
      }
    }
  }

  lemma {:induction false} StripRightEmpty(s: string, gone: CharTest)
    requires StripRight(s, gone) == ""
    ensures All(s, gone)
  {
    if s == "" {
    } else {
      var n := |s| - 1;
      StripRightEmpty(s[..n], gone);
      forall i | 0 <= i < |s| ensures gone(s[i]) {
        assert i < n ==> s[..n][i] == s[i];
      }
    }
  }

  // Nothing is left of a string exactly when all of it may go.
  lemma StripEmptyIff(s: string, gone: CharTest)
    ensures Strip(s, gone) == "" <==> All(s, gone)
  {
    if All(s, gone) {
      StripLeftSkips(s, "", gone);
      assert s + "" == s;
    }
    if Strip(s, gone) == "" {
      var n := StripLeftPart(s, gone);
      StripRightEmpty(s[n..], gone);
      if n == |s| {
        StripLeftEmpty(s, gone);
      }
    }
  }

  lemma StripPart(s: string, left: CharTest, right: CharTest) returns (a: string, b: string)
    ensures s == a + StripRight(StripLeft(s, left), right) + b
  {
    var m := StripLeftPart(s, left);
    StripRightPart(s[m..], right);
    a, b := s[..m], s[m..][|StripRight(s[m..], right)|..];
  }

  lemma StripKeeps(s: string, left: CharTest, right: CharTest, ok: CharTest)
    requires All(s, ok)
    ensures All(StripRight(StripLeft(s, left), right), ok)
  {
    var a, b := StripPart(s, left, right);
    var r := StripRight(StripLeft(s, left), right);
    forall i | 0 <= i < |r| ensures ok(r[i]) {
      assert s[|a| + i] == r[i];
    }
  }

  // ---------------------------------------------------------------- occurrences

  predicate Occurs(s: string, pat: string, i: nat) {
    i <= |s| && pat <= s[i..]
  }

  // Whether the pattern stands anywhere in the string.
  predicate Contains(s: string, pat: string) {
    exists i :: 0 <= i <= |s| && Occurs(s, pat, i)
  }

  // str.find: the first occurrence.
  function Find(s: string, pat: string): (r: Option<nat>)
    ensures r.Some? ==> r.value + |pat| <= |s|
  {
    if pat <= s then Some(0)
    else if s == "" then None
    else
      var r := Find(s[1..], pat);
      if r.Some? then Some(r.value + 1) else None
  }

  lemma {:induction false} FindFirst(s: string, pat: string)
    ensures Find(s, pat).Some? ==> Occurs(s, pat, Find(s, pat).value)
    ensures forall i: nat :: Occurs(s, pat, i) ==> Find(s, pat).Some? && Find(s, pat).value <= i
  {
    assert s[0..] == s;
    if pat <= s || s == "" {
    } else {
      FindFirst(s[1..], pat);
      var r := Find(s[1..], pat);
      if r.Some? {
        assert s[1..][r.value..] == s[r.value + 1..];
      }
      forall i: nat | Occurs(s, pat, i) ensures r.Some? && r.value + 1 <= i {
        assert s[i..] == s[1..][i - 1..];
        assert Occurs(s[1..], pat, i - 1);
      }
    }
  }

  lemma OccursAt(s: string, pat: string, i: nat, k: nat)
    requires Occurs(s, pat, i) && k < |pat|
    ensures i + k < |s| && s[i + k] == pat[k]
  {
    assert s[i..][k] == s[i + k];
  }

  // Where a pattern occurs depends on the text it covers only.
  lemma OccursWithin(a: string, s: string, b: string, pat: string, i: nat)
    requires |a| <= i && i + |pat| <= |a| + |s|
    ensures Occurs(a + s + b, pat, i) <==> Occurs(s, pat, i - |a|)
  {
    var whole := a + s + b;
    assert whole[i..][..|pat|] == s[i - |a|..][..|pat|];
  }

  lemma ContainsWider(a: string, s: string, b: string, pat: string)
    requires Contains(s, pat)
    ensures Contains(a + s + b, pat)
  {
    var i :| 0 <= i <= |s| && Occurs(s, pat, i);
    OccursWithin(a, s, b, pat, |a| + i);
  }
}

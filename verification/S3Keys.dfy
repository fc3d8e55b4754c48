// src/autobench/s3_export.py, _safe, source_key and run_prefix: the key hierarchy of the bucket.
module S3Keys {
  import opened PyStrings
  import opened Sequences

  // What may stand in a segment of a key.
  const SAFE_CHAR: CharTest :=
    c => 'A' <= c <= 'Z' || 'a' <= c <= 'z' || '0' <= c <= '9' || c == '.' || c == '_' || c == '-'

  // Each run of characters outside the class becomes one dash.
  function Collapse(s: string, ok: CharTest): string {
    if s == "" then ""
    else if ok(s[0]) then [s[0]] + Collapse(s[1..], ok)
    else if |s| > 1 && !ok(s[1]) then Collapse(s[1..], ok)
    else ['-'] + Collapse(s[1..], ok)
  }

  const DASH: CharTest := c => c == '-'
  const SLASH: CharTest := c => c == '/'

  function Cleaned(segment: string, ok: CharTest): string {
    var s := Strip(Collapse(segment, ok), DASH);
    if s == "" then "unknown" else s
  }

  function Safe(segment: string): string {
    Cleaned(segment, SAFE_CHAR)
  }

  lemma {:induction false} CollapseAll(s: string, ok: CharTest)
    requires ok('-')
    ensures All(Collapse(s, ok), ok)
  {
    if s == "" {
    } else {
      CollapseAll(s[1..], ok);
    }
  }

  lemma {:induction false} CollapseKeeps(s: string, ok: CharTest)
    requires All(s, ok)
    ensures Collapse(s, ok) == s
  {
    if s == "" {
    } else {
      CollapseKeeps(s[1..], ok);
      assert s == [s[0]] + s[1..];
    }
  }

  lemma CleanedIsFixed(segment: string, ok: CharTest)
    requires ok('-') && All("unknown", ok)
    ensures Cleaned(segment, ok) != "" && All(Cleaned(segment, ok), ok)
    ensures Cleaned(Cleaned(segment, ok), ok) == Cleaned(segment, ok)
  {
    CollapseAll(segment, ok);
    var c := Collapse(segment, ok);
    StripKeeps(c, DASH, DASH, ok);
    var n := StripLeftPart(c, DASH);
    StripRightPart(c[n..], DASH);
    CollapseKeeps(Cleaned(segment, ok), ok);
  }

  // A segment is never empty, holds only safe characters and so no slash, and is a fixed point.
  lemma SafeIsClean(segment: string)
    ensures Safe(segment) != "" && All(Safe(segment), SAFE_CHAR) && '/' !in Safe(segment)
    ensures Safe(Safe(segment)) == Safe(segment)
  {
    CleanedIsFixed(segment, SAFE_CHAR);
    assert !SAFE_CHAR('/');
  }

  // ---------------------------------------------------------------- what a segment becomes

  // ASCII letters, digits, dot, underscore and dash.
  predicate Harmless(c: char) {
    'a' <= c <= 'z' || 'A' <= c <= 'Z' || '0' <= c <= '9' || c in "._-"
  }

  lemma HarmlessIsSafe(s: string)
    ensures (forall i :: 0 <= i < |s| ==> Harmless(s[i])) <==> All(s, SAFE_CHAR)
    ensures (forall i :: 0 <= i < |s| ==> !Harmless(s[i])) <==> Without(s, SAFE_CHAR)
  {
    assert forall c :: Harmless(c) <==> SAFE_CHAR(c);
  }

  // Such characters only, and no dash at an end.
  predicate Plain(segment: string) {
    && segment != "" && (forall i :: 0 <= i < |segment| ==> Harmless(segment[i]))
    && segment[0] != '-' && segment[|segment| - 1] != '-'
  }

  // Such a segment is left as it is.
  lemma PlainStays(segment: string)
    requires Plain(segment)
    ensures Safe(segment) == segment
  {
    HarmlessIsSafe(segment);
    CollapseKeeps(segment, SAFE_CHAR);
    NotStripped(segment, DASH);
  }

  lemma {:induction false} CollapseBehind(a: string, b: string, ok: CharTest)
    requires All(a, ok)
    ensures Collapse(a + b, ok) == a + Collapse(b, ok)
  {
    if a == "" {
      assert a + b == b;
    } else {
      assert (a + b)[1..] == a[1..] + b && ok(a[0]);
      CollapseBehind(a[1..], b, ok);
    }
  }

  lemma {:induction false} CollapseRun(bad: string, b: string, ok: CharTest)
    requires bad != "" && Without(bad, ok) && (b == "" || ok(b[0]))
    ensures Collapse(bad + b, ok) == "-" + Collapse(b, ok)
  {
    assert (bad + b)[1..] == bad[1..] + b && !ok(bad[0]);
    if |bad| == 1 {
      assert (bad + b)[1..] == b;
    } else {
      assert (bad + b)[1] == bad[1] && !ok(bad[1]);
      CollapseRun(bad[1..], b, ok);
    }
  }

  lemma CollapsedBetween(a: string, bad: string, b: string, ok: CharTest)
    requires All(a, ok) && All(b, ok) && b != "" && bad != "" && Without(bad, ok)
    ensures Collapse(a + bad + b, ok) == a + "-" + b
  {
    assert a + bad + b == a + (bad + b);
    CollapseBehind(a, bad + b, ok);
    CollapseRun(bad, b, ok);
    CollapseKeeps(b, ok);
    assert a + ("-" + b) == a + "-" + b;
  }

  // A run of other characters between two of them becomes one dash.
  lemma RunBecomesDash(a: string, bad: string, b: string)
    requires Plain(a) && Plain(b) && bad != "" && forall i :: 0 <= i < |bad| ==> !Harmless(bad[i])
    ensures Safe(a + bad + b) == a + "-" + b
  {
    HarmlessIsSafe(a);
    HarmlessIsSafe(bad);
    HarmlessIsSafe(b);
    CollapsedBetween(a, bad, b, SAFE_CHAR);
    NotStripped(a + "-" + b, DASH);
  }

  lemma {:induction false} CollapsedDashes(s: string, ok: CharTest)
    requires forall i :: 0 <= i < |s| ==> s[i] == '-' || !ok(s[i])
    ensures All(Collapse(s, ok), DASH)
  {
    if s == "" {
    } else {
      CollapsedDashes(s[1..], ok);
    }
  }

  // Of a segment of nothing else a word is left.
  lemma NothingSafe(segment: string)
    requires forall i :: 0 <= i < |segment| ==> segment[i] == '-' || !SAFE_CHAR(segment[i])
    ensures Safe(segment) == "unknown"
  {
    CollapsedDashes(segment, SAFE_CHAR);
    StripEmptyIff(Collapse(segment, SAFE_CHAR), DASH);
  }

  // ---------------------------------------------------------------- prefixes

  // source_key drops the scheme of the issuer before it is made safe.
  function SourceKey(iss: string): string {
    Safe(if "http://" <= iss then iss[7..] else if "https://" <= iss then iss[8..] else iss)
  }

  function Segments(user: string, iss: string, benchmark: string, runId: string): seq<string> {
    [Safe(user), SourceKey(iss), Safe(benchmark), Safe(runId)]
  }

  function RunPrefix(cfgPrefix: string, user: string, iss: string, benchmark: string, runId: string): string {
    var p := Strip(cfgPrefix, SLASH);
    Join((if p == "" then [] else [p]) + Segments(user, iss, benchmark, runId), "/")
  }

  // Plain names stand in the key as they are, in this order, the issuer without its scheme.
  lemma PlainPrefix(p: string, user: string, host: string, benchmark: string, runId: string)
    requires Plain(user) && Plain(host) && Plain(benchmark) && Plain(runId)
    requires p != "" && p[0] != '/' && p[|p| - 1] != '/'
    ensures var key := user + "/" + (host + "/" + (benchmark + "/" + runId));
      && RunPrefix("", user, host, benchmark, runId) == key
      && RunPrefix("", user, "https://" + host, benchmark, runId) == key
      && RunPrefix("", user, "http://" + host, benchmark, runId) == key
      && RunPrefix("/" + p + "/", user, host, benchmark, runId) == p + "/" + key
  {
    SchemesDropped(host);
    PlainStays(user);
    PlainStays(host);
    PlainStays(benchmark);
    PlainStays(runId);
    SlashesStripped(p);
    JoinFour(user, host, benchmark, runId);
    var rest := [user, host, benchmark, runId];
    assert [] + rest == rest && ([p] + rest)[1..] == rest;
  }

  lemma SchemesDropped(host: string)
    requires Plain(host)
    ensures SourceKey(host) == SourceKey("https://" + host) == SourceKey("http://" + host) == Safe(host)
  {
    assert ("https://" + host)[8..] == host && ("http://" + host)[7..] == host;
    assert ("https://" + host)[4] == 's' && "http://"[4] == ':';
    HarmlessIsSafe(host);
    assert !SAFE_CHAR('/') && "http://"[6] == '/' && "https://"[7] == '/';
    assert !("http://" <= host) && !("https://" <= host);
  }

  lemma SlashesStripped(p: string)
    requires p != "" && p[0] != '/' && p[|p| - 1] != '/'
    ensures Strip("/" + p + "/", SLASH) == p && Strip("", SLASH) == ""
  {
    assert "/" + p + "/" == "/" + (p + "/");
    StripLeftSkips("/", p + "/", SLASH);
    assert StripLeft(p + "/", SLASH) == p + "/";
    StripRightSkips(p, "/", SLASH);
  }

  lemma JoinFour(a: string, b: string, c: string, d: string)
    ensures Join([a, b, c, d], "/") == a + "/" + (b + "/" + (c + "/" + d))
  {
    assert [a, b, c, d][1..] == [b, c, d] && [b, c, d][1..] == [c, d] && [c, d][1..] == [d];
    assert Join([d], "/") == d && Join([c, d], "/") == c + "/" + d;
    assert Join([b, c, d], "/") == b + "/" + (c + "/" + d);
  }

  // Under one configured prefix two runs share a key prefix exactly when their four segments agree:
  // no choice of names lets one run's objects fall under another's level of the hierarchy.
  lemma PrefixExact(cfgPrefix: string, user: string, iss: string, benchmark: string, runId: string,
                    user': string, iss': string, benchmark': string, runId': string)
    ensures RunPrefix(cfgPrefix, user, iss, benchmark, runId) == RunPrefix(cfgPrefix, user', iss', benchmark', runId')
      <==> Segments(user, iss, benchmark, runId) == Segments(user', iss', benchmark', runId')
  {
    var p := Strip(cfgPrefix, SLASH);
    var a, b := Segments(user, iss, benchmark, runId), Segments(user', iss', benchmark', runId');
    CleanSegments(user, iss, benchmark, runId);
    CleanSegments(user', iss', benchmark', runId');
    if RunPrefix(cfgPrefix, user, iss, benchmark, runId) == RunPrefix(cfgPrefix, user', iss', benchmark', runId') {
      if p == "" {
        assert [] + a == a && [] + b == b;
      } else {
        assert ([p] + a)[1..] == a && ([p] + b)[1..] == b;
        assert Join([p] + a, "/") == p + "/" + Join(a, "/") && Join([p] + b, "/") == p + "/" + Join(b, "/");
        assert Join(a, "/") == (p + "/" + Join(a, "/"))[|p| + 1..] == Join(b, "/");
      }
      JoinedInjective(a, b);
    }
  }

  lemma CleanSegments(user: string, iss: string, benchmark: string, runId: string)
    ensures forall s :: s in Segments(user, iss, benchmark, runId) ==> '/' !in s
  {
    SafeIsClean(user);
    SafeIsClean(if "http://" <= iss then iss[7..] else if "https://" <= iss then iss[8..] else iss);
    SafeIsClean(benchmark);
    SafeIsClean(runId);
  }

  lemma {:induction false} JoinedInjective(a: seq<string>, b: seq<string>)
    requires |a| == |b| >= 1 && Join(a, "/") == Join(b, "/")
    requires forall s :: s in a + b ==> '/' !in s
    ensures a == b
  {
    assert a[0] in a + b && b[0] in a + b;
    if |a| <= 1 {
    } else {
      NoneCounted(a[0], '/');
      NoneCounted(b[0], '/');
      assert Join(a, "/") == a[0] + ['/'] + Join(a[1..], "/") && Join(b, "/") == b[0] + ['/'] + Join(b[1..], "/");
      CutAtSeparator(a[0], Join(a[1..], "/"), b[0], Join(b[1..], "/"), '/');
      forall s | s in a[1..] + b[1..] ensures '/' !in s {
        assert s in a + b;
      }
      JoinedInjective(a[1..], b[1..]);
      assert a == [a[0]] + a[1..] && b == [b[0]] + b[1..];
    }
  }
}

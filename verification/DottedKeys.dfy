// str.split(".") and its inverse, for the attribute keys of src/autobench/mlflow_report.py.
module DottedKeys {
  import opened PyStrings
  import opened Sequences

  function Split(key: string): (parts: seq<string>)
    ensures |parts| >= 1
  {
    if key == "" then [""]
    else if key[0] == '.' then [""] + Split(key[1..])
    else
      var rest := Split(key[1..]);
      [[key[0]] + rest[0]] + rest[1..]
  }

  // What one more character in front does to the parts.
  function Prefixed(c: char, parts: seq<string>): seq<string>
    requires |parts| >= 1
  {
    if c == '.' then [""] + parts else [[c] + parts[0]] + parts[1..]
  }

  lemma SplitStep(key: string)
    requires key != ""
    ensures Split(key) == Prefixed(key[0], Split(key[1..]))
  {
  }

  lemma JoinChar(c: char, first: string, rest: seq<string>)
    ensures Join([[c] + first] + rest, ".") == [c] + Join([first] + rest, ".")
  {
    if rest == [] {
      assert [[c] + first] + rest == [[c] + first] && [first] + rest == [first];
    } else {
      JoinFirst([c] + first, rest);
      JoinFirst(first, rest);
      Regroup([c], first, "." + Join(rest, "."));
    }
  }

  lemma JoinPrefixed(c: char, parts: seq<string>, first: string, rest: seq<string>)
    requires parts == [first] + rest
    ensures Join(Prefixed(c, parts), ".") == [c] + Join(parts, ".")
  {
    if c == '.' {
      JoinDot(parts);
    } else {
      assert Prefixed(c, parts) == [[c] + first] + rest;
      JoinChar(c, first, rest);
    }
  }

  lemma JoinDot(parts: seq<string>)
    requires |parts| >= 1
    ensures Join([""] + parts, ".") == ['.'] + Join(parts, ".")
  {
    JoinFirst("", parts);
    var dotted := "." + Join(parts, ".");
    assert "" + dotted == dotted;
  }

  lemma JoinFirst(first: string, rest: seq<string>)
    requires |rest| >= 1
    ensures Join([first] + rest, ".") == first + ("." + Join(rest, "."))
  {
    assert ([first] + rest)[1..] == rest;
    Regroup(first, ".", Join(rest, "."));
  }

  lemma {:induction false} JoinSplit(key: string)
    ensures Join(Split(key), ".") == key
  {
    if key == "" {
    } else {
      SplitStep(key);
      JoinSplit(key[1..]);
      var parts := Split(key[1..]);
      JoinPrefixed(key[0], parts, parts[0], parts[1..]);
    }
  }

  lemma SplitInjective(a: string, b: string)
    requires Split(a) == Split(b)
    ensures a == b
  {
    JoinSplit(a);
    JoinSplit(b);
  }

  lemma PrefixedConcat(c: char, a: seq<string>, b: seq<string>)
    requires |a| >= 1
    ensures Prefixed(c, a + b) == Prefixed(c, a) + b
  {
    if c != '.' {
      assert (a + b)[1..] == a[1..] + b;
    }
  }

  lemma {:induction false} SplitConcat(a: string, b: string)
    ensures Split(a + "." + b) == Split(a) + Split(b)
  {
    var whole := a + "." + b;
    SplitStep(whole);
    if a == "" {
      assert whole[1..] == b;
    } else {
      assert whole[1..] == a[1..] + "." + b;
      SplitConcat(a[1..], b);
      SplitStep(a);
      PrefixedConcat(a[0], Split(a[1..]), Split(b));
    }
  }

  lemma {:induction false} JoinConcat(a: seq<string>, b: seq<string>)
    requires |a| >= 1 && |b| >= 1
    ensures Join(a + b, ".") == Join(a, ".") + "." + Join(b, ".")
  {
    if |a| == 1 {
      assert (a + b)[1..] == b;
    } else {
      assert (a + b)[1..] == a[1..] + b;
      JoinConcat(a[1..], b);
    }
  }

  // One key is a proper dotted prefix of another exactly when its parts are a proper prefix.
  lemma DottedPrefix(a: string, b: string)
    ensures a + "." <= b <==> Split(a) < Split(b)
  {
    if a + "." <= b {
      var rest := b[|a| + 1..];
      assert b == a + "." + rest;
      SplitConcat(a, rest);
    }
    if Split(a) < Split(b) {
      var rest := Split(b)[|Split(a)|..];
      assert Split(b) == Split(a) + rest;
      JoinConcat(Split(a), rest);
      JoinSplit(a);
      JoinSplit(b);
    }
  }
}

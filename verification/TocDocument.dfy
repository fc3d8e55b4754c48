// reference/gen_toc.py: regenerating the table of contents between two markers of a document.
module TocDocument {
  import opened PyStrings

  const START := "<!-- toc -->"
  const END := "<!-- /toc -->"
  const FENCE := "```"
  const MAX_LEVEL := 3

  // ---------------------------------------------------------------- lines

  // str.splitlines, except that here CR LF is two boundaries, which only adds an empty line.
  function Lines(s: string): (lines: seq<string>)
    ensures |lines| >= 1
  {
    if s == "" then [""]
    else if BREAK(s[0]) then [""] + Lines(s[1..])
    else [[s[0]] + Lines(s[1..])[0]] + Lines(s[1..])[1..]
  }

  function Last(lines: seq<string>): string
    requires |lines| >= 1
  {
    lines[|lines| - 1]
  }

  function Front(lines: seq<string>): seq<string>
    requires |lines| >= 1
  {
    lines[..|lines| - 1]
  }

  // The lines of two texts put together: the last of one and the first of the other become one.
  function Seam(a: seq<string>, b: seq<string>): seq<string>
    requires |a| >= 1 && |b| >= 1
  {
    Front(a) + [Last(a) + b[0]] + b[1..]
  }

  lemma SeamBehindBreak(a: seq<string>, b: seq<string>)
    requires |a| >= 1 && |b| >= 1
    ensures Seam([""] + a, b) == [""] + Seam(a, b)
  {
    assert Front([""] + a) == [""] + Front(a);
  }

  lemma SeamBehindChar(c: char, a: seq<string>, b: seq<string>)
    requires |a| >= 1 && |b| >= 1
    ensures Seam([[c] + a[0]] + a[1..], b) == [[c] + Seam(a, b)[0]] + Seam(a, b)[1..]
  {
    var l := [[c] + a[0]] + a[1..];
    if |a| == 1 {
      assert Front(l) == [] && Front(a) == [];
      assert [c] + a[0] + b[0] == [c] + (a[0] + b[0]);
    } else {
      assert Front(l) == [[c] + a[0]] + Front(a)[1..];
      assert Last(l) == Last(a);
      assert Seam(a, b)[1..] == Front(a)[1..] + [Last(a) + b[0]] + b[1..];
    }
  }

  lemma SeamFirst(b: seq<string>)
    requires |b| >= 1
    ensures Seam([""], b) == b
  {
    assert Front([""]) == [] && "" + b[0] == b[0];
  }

  lemma {:induction false} LinesConcat(a: string, b: string)
    ensures Lines(a + b) == Seam(Lines(a), Lines(b))
  {
    if a == "" {
      SeamFirst(Lines(b));
      assert a + b == b;
    } else {
      LinesConcat(a[1..], b);
      assert (a + b)[0] == a[0] && (a + b)[1..] == a[1..] + b;
      SeamBehindBreak(Lines(a[1..]), Lines(b));
      SeamBehindChar(a[0], Lines(a[1..]), Lines(b));
    }
  }

  lemma LinesBroken(a: string, b: string)
    ensures Lines(a + "\n" + b) == Lines(a) + Lines(b)
  {
    LinesConcat(a, "\n" + b);
    assert a + "\n" + b == a + ("\n" + b);
    assert ("\n" + b)[1..] == b && Lines("\n" + b) == [""] + Lines(b);
    assert Last(Lines(a)) + "" == Last(Lines(a));
    assert Front(Lines(a)) + [Last(Lines(a))] == Lines(a);
  }

  lemma {:induction false} OneLine(s: string)
    requires Without(s, BREAK)
    ensures Lines(s) == [s]
  {
    if s == "" {
    } else {
      assert !BREAK(s[0]);
      OneLine(s[1..]);
      assert [s[0]] + s[1..] == s;
    }
  }

  lemma {:induction false} LinesUnbroken(s: string)
    ensures forall l :: l in Lines(s) ==> Without(l, BREAK)
  {
    if s == "" {
    } else {
      LinesUnbroken(s[1..]);
      assert Lines(s[1..])[0] in Lines(s[1..]);
    }
  }

  // ---------------------------------------------------------------- what a line is

  datatype LineKind = Fence | Head(level: nat, title: string) | Plain

  type Classifier = string -> LineKind

  function Hashes(line: string): nat {
    if line != "" && line[0] == '#' then 1 + Hashes(line[1..]) else 0
  }

  const BLANK: CharTest := c => c == ' '

  // A fence, a heading the table lists, or neither.
  const CLASSIFY: Classifier := (line: string) =>
    if FENCE <= StripLeft(line, SPACE) then Fence
    else if 2 <= Hashes(line) <= MAX_LEVEL && Hashes(line) < |line| && line[Hashes(line)] == ' '
    then Head(Hashes(line), StripRight(StripLeft(line[Hashes(line)..], BLANK), SPACE))
    else Plain

  datatype Scanned = Scanned(heads: seq<(nat, string)>, inFence: bool)

  function Scan(lines: seq<string>, classify: Classifier, inFence: bool): Scanned {
    if lines == [] then Scanned([], inFence)
    else
      match classify(lines[0])
      case Fence => Scan(lines[1..], classify, !inFence)
      case Plain => Scan(lines[1..], classify, inFence)
      case Head(level, title) =>
        var rest := Scan(lines[1..], classify, inFence);
        if inFence then rest else rest.(heads := [(level, title)] + rest.heads)
  }

  lemma {:induction false} ScanConcat(a: seq<string>, b: seq<string>, classify: Classifier, inFence: bool)
    ensures var x := Scan(a, classify, inFence);
      var y := Scan(b, classify, x.inFence);
      Scan(a + b, classify, inFence) == Scanned(x.heads + y.heads, y.inFence)
  {
    if a == [] {
      assert a + b == b;
    } else {
      assert (a + b)[1..] == a[1..] + b;
      ScanConcat(a[1..], b, classify, inFence);
      ScanConcat(a[1..], b, classify, !inFence);
    }
  }

  predicate AllPlain(lines: seq<string>, classify: Classifier) {
    forall l :: l in lines ==> classify(l).Plain?
  }

  lemma {:induction false} ScanPlain(lines: seq<string>, classify: Classifier, inFence: bool)
    requires AllPlain(lines, classify)
    ensures Scan(lines, classify, inFence) == Scanned([], inFence)
  {
    if lines == [] {
    } else {
      ScanPlain(lines[1..], classify, inFence);
    }
  }

  lemma {:induction false} ScannedTitles(lines: seq<string>, classify: Classifier, inFence: bool)
    ensures forall h :: h in Scan(lines, classify, inFence).heads ==>
      exists l :: l in lines && classify(l) == Head(h.0, h.1)
  {
    if lines == [] {
    } else {
      ScannedTitles(lines[1..], classify, inFence);
      ScannedTitles(lines[1..], classify, !inFence);
      assert lines[0] in lines;
      forall h | h in Scan(lines, classify, inFence).heads
        ensures exists l :: l in lines && classify(l) == Head(h.0, h.1)
      {
        if classify(lines[0]) == Head(h.0, h.1) {
        } else {
          var l :| l in lines[1..] && classify(l) == Head(h.0, h.1);
          assert l in lines;
        }
      }
    }
  }

  function HeadingsOf(text: string): seq<(nat, string)> {
    Scan(Lines(text), CLASSIFY, false).heads
  }

  lemma ScanNext(lines: seq<string>, n: nat, classify: Classifier, inFence: bool)
    requires n < |lines|
    ensures var x := Scan(lines[..n], classify, inFence);
      Scan(lines[..n + 1], classify, inFence)
        == match classify(lines[n])
           case Fence => x.(inFence := !x.inFence)
           case Plain => x
           case Head(level, title) => if x.inFence then x else x.(heads := x.heads + [(level, title)])
  {
    assert lines[..n + 1] == lines[..n] + [lines[n]];
    ScanConcat(lines[..n], [lines[n]], classify, inFence);
    assert [lines[n]][1..] == [];
  }

  method Headings(text: string) returns (out: seq<(nat, string)>)
    ensures out == HeadingsOf(text)
  {
    var lines := Lines(text);
    var inFence := false;
    out := [];
    for n := 0 to |lines|
      invariant Scan(lines[..n], CLASSIFY, false) == Scanned(out, inFence)
    {
      ScanNext(lines, n, CLASSIFY, false);
      match CLASSIFY(lines[n]) {
        case Fence => inFence := !inFence;
        case Plain =>
        case Head(level, title) =>
          if !inFence {
            out := out + [(level, title)];
          }
      }
    }
    assert lines[..|lines|] == lines;
  }
}

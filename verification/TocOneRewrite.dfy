// reference/gen_toc.py: when a single rewrite of a document is already final.
module TocOneRewrite {
  import opened Wrappers
  import opened PyStrings
  import opened Sequences
  import opened TocDocument
  import opened TocRewrite
  import opened TocFixpoint

  // ---------------------------------------------------------------- a table tells its headings

  // Levels below two have the same indent; no heading has one.
  ghost predicate Listable(heads: seq<(nat, string)>) {
    forall h :: h in heads ==> h.0 >= 2
  }

  lemma HeadingsListable(lines: seq<string>, inFence: bool)
    ensures Listable(Scan(lines, CLASSIFY, inFence).heads)
  {
    ScannedTitles(lines, CLASSIFY, inFence);
  }

  lemma {:induction false} IndentLength(level: nat)
    requires level >= 2
    ensures |Indent(level)| == 2 * (level - 2)
  {
    if level <= 2 {
    } else {
      IndentLength(level - 1);
    }
  }

  // A line starts with its indent, a dash behind it.
  lemma IndentTells(level: nat, title: string, other: nat, title': string)
    requires level >= 2 && other >= 2 && TocLine(level, title) == TocLine(other, title')
    ensures level == other
  {
    IndentLength(level);
    IndentLength(other);
    FirstDash(level, title);
    FirstDash(other, title');
    assert !(|Indent(level)| < |Indent(other)|) && !(|Indent(other)| < |Indent(level)|);
  }

  lemma FirstDash(level: nat, title: string)
    ensures var line, n := TocLine(level, title), |Indent(level)|;
      n < |line| && line[n] == '-' && forall i :: 0 <= i < n ==> line[i] != '-'
  {
    IndentBlank(level);
    var line := TocLine(level, title);
    forall i | 0 <= i < |Indent(level)| ensures line[i] != '-' {
      assert line[i] == Indent(level)[i] && BLANK(Indent(level)[i]);
    }
  }

  // The last opening parenthesis is the one behind the title.
  lemma LastParenthesis(title: string)
    ensures var b := Behind(title); |b| >= 2 && b[1] == '(' && forall i :: 2 <= i < |b| ==> b[i] != '('
  {
    var b := Behind(title);
    AnchorSlug(title);
    forall i | 2 <= i < |b| ensures b[i] != '(' {
      if 3 <= i < |b| - 1 {
        assert SLUG_CHAR(Anchor(title)[i - 3]) && b[i] == Anchor(title)[i - 3];
      }
    }
  }

  lemma TitleEnds(title: string, other: string)
    requires title + Behind(title) == other + Behind(other)
    ensures |title| <= |other|
  {
    LastParenthesis(title);
    LastParenthesis(other);
    var w := title + Behind(title);
    assert w[|title| + 1] == Behind(title)[1] == '(';
    forall i | |other| + 2 <= i < |w| ensures w[i] != '(' {
      assert w[i] == Behind(other)[i - |other|];
    }
  }

  lemma TocLineTells(level: nat, title: string, other: nat, title': string)
    requires level >= 2 && other >= 2 && TocLine(level, title) == TocLine(other, title')
    ensures level == other && title == title'
  {
    IndentTells(level, title, other, title');
    TocLineParts(level, title);
    TocLineParts(other, title');
    Regroup(Before(level), title, Behind(title));
    Regroup(Before(level), title', Behind(title'));
    SameBehind(Before(level), title + Behind(title), title' + Behind(title'));
    TitleTells(title, title');
  }

  lemma SameBehind(a: string, b: string, c: string)
    requires a + b == a + c
    ensures b == c
  {
    assert (a + b)[|a|..] == b && (a + c)[|a|..] == c;
  }

  lemma TitleTells(title: string, other: string)
    requires title + Behind(title) == other + Behind(other)
    ensures title == other
  {
    TitleEnds(title, other);
    TitleEnds(other, title);
    assert (title + Behind(title))[..|title|] == title && (other + Behind(other))[..|other|] == other;
  }

  lemma {:induction false} TocLinesTell(heads: seq<(nat, string)>, others: seq<(nat, string)>)
    requires Listable(heads) && Listable(others) && TocLines(heads) == TocLines(others)
    ensures heads == others
  {
    if heads == [] || others == [] {
    } else {
      assert heads[0] in heads && others[0] in others;
      assert TocLines(heads)[0] == TocLines(others)[0] && TocLines(heads)[1..] == TocLines(others)[1..];
      TocLineTells(heads[0].0, heads[0].1, others[0].0, others[0].1);
      TocLinesTell(heads[1..], others[1..]);
      assert heads == [heads[0]] + heads[1..] && others == [others[0]] + others[1..];
    }
  }

  // Two rewrites of one document are the same only if they list the same headings.
  lemma RenewedTells(p: Parts, heads: seq<(nat, string)>, others: seq<(nat, string)>)
    requires Listable(heads) && Listable(others) && Unbroken(heads) && Unbroken(others)
    ensures Renewed(p, heads) == Renewed(p, others) <==> heads == others
  {
    if Renewed(p, heads) == Renewed(p, others) {
      var b, c := Join(BuildLines(heads), "\n"), Join(BuildLines(others), "\n");
      var a := p.head + START + "\n\n";
      RegroupFour(a + b, "\n\n", END, p.tail);
      RegroupFour(a + c, "\n\n", END, p.tail);
      SameMiddle(a, b, c, "\n\n" + END + p.tail);
      BuildInert(heads);
      BuildInert(others);
      assert BuildLines(heads) == BuildLines(others);
      assert BuildLines(heads)[2..] == TocLines(heads) && BuildLines(others)[2..] == TocLines(others);
      TocLinesTell(heads, others);
    }
  }

  lemma SameMiddle(a: string, b: string, c: string, d: string)
    requires a + b + d == a + c + d
    ensures b == c
  {
    assert |b| == |c|;
    assert (a + b + d)[|a|..|a| + |b|] == b && (a + c + d)[|a|..|a| + |c|] == c;
  }

  // ---------------------------------------------------------------- exactly when one is enough

  // A single rewrite is final if and only if the headings of the document are those outside its table.
  lemma FirstRewriteSettlesIff(text: string)
    requires Rewrite(text).Some? && MarkerFree(HeadingsOf(text))
    ensures var once := Rewrite(text).value;
      Rewrite(once) == Some(once) <==> HeadingsOf(text) == Outer(Split(text).value)
  {
    SplitParts(text);
    var p := Split(text).value;
    HeadingsUnbroken(text);
    OuterUnbroken(p);
    Rewritten(p, HeadingsOf(text));
    HeadingsListable(Lines(text), false);
    OuterListable(p);
    RenewedTells(p, HeadingsOf(text), Outer(p));
  }

  lemma OuterListable(p: Parts)
    ensures Listable(Outer(p))
  {
    HeadingsListable(Lines(p.head + START), false);
    HeadingsListable(Lines(END + p.tail), Scan(Lines(p.head + START), CLASSIFY, false).inFence);
  }

  // ---------------------------------------------------------------- a quiet stale region

  // No heading runs into the start marker, and behind its line the stale region holds neither a
  // heading nor a fence.
  ghost predicate QuietStale(p: Parts) {
    && !CLASSIFY(Last(Lines(p.head + START))).Head?
    && AllPlain(Lines(p.stale + END)[1..], CLASSIFY)
  }

  lemma {:induction false} StripLeftBehind(l: string, more: string, gone: CharTest)
    requires StripLeft(l, gone) != ""
    ensures StripLeft(l + more, gone) == StripLeft(l, gone) + more
  {
    assert (l + more)[0] == l[0];
    if !gone(l[0]) {
    } else {
      assert (l + more)[1..] == l[1..] + more;
      StripLeftBehind(l[1..], more, gone);
    }
  }

  lemma {:induction false} MarkStops(q: string, mark: string)
    requires |mark| >= 3 && mark[0] == '<'
    ensures Hashes(q + mark) < |q + mark|
    ensures |StripLeft(q + mark, SPACE)| >= 3
  {
    var l := q + mark;
    if q == "" {
      assert l == mark && !SPACE('<');
    } else {
      assert l[0] == q[0] && l[1..] == q[1..] + mark;
      MarkStops(q[1..], mark);
    }
  }

  // What follows a marker on its line does not change what the line is, unless it is a heading.
  lemma MarkedLineStays(q: string, mark: string, more: string)
    requires |mark| >= 3 && mark[0] == '<'
    ensures !CLASSIFY(q + mark).Head? ==> CLASSIFY(q + mark + more) == CLASSIFY(q + mark)
  {
    if CLASSIFY(q + mark).Head? {
      return;
    }
    var l := q + mark;
    MarkStops(q, mark);
    HashesBehind(l, more);
    StripLeftBehind(l, more, SPACE);
    assert FENCE <= StripLeft(l, SPACE) + more <==> FENCE <= StripLeft(l, SPACE);
    assert (l + more)[Hashes(l)] == l[Hashes(l)];
  }

  lemma LastBehindMark(a: string, mark: string)
    requires Lines(mark) == [mark]
    ensures Last(Lines(a + mark)) == Last(Lines(a)) + mark
  {
    LinesConcat(a, mark);
  }

  lemma StartIsOneLine()
    ensures Lines(START) == [START]
  {
    assert Without(START, BREAK);
    OneLine(START);
  }

  // A line may be exchanged for another of the same kind, as long as it is no heading.
  lemma ScanSwap(a: seq<string>, l: string, m: string, classify: Classifier)
    requires classify(l) == classify(m) && !classify(l).Head?
    ensures Scan(a + [l], classify, false) == Scan(a + [m], classify, false)
  {
    ScanConcat(a, [l], classify, false);
    ScanConcat(a, [m], classify, false);
    assert [l][1..] == [] && [m][1..] == [];
  }

  // The lines strictly between the first line of s and the rest of t.
  function Middle(s: seq<string>, t: seq<string>): seq<string>
    requires |s| >= 1 && |t| >= 1
  {
    if |s| > 1 then Front(s)[1..] + [Last(s) + t[0]] else []
  }

  lemma SeamTwice(a: seq<string>, s: seq<string>, t: seq<string>)
    requires |a| >= 1 && |s| >= 1 && |t| >= 1
    ensures Seam(a, Seam(s, t)) == (Front(a) + [Last(a) + Seam(s, t)[0]]) + (Middle(s, t) + t[1..])
  {
    if |s| > 1 {
      assert Seam(s, t)[1..] == Middle(s, t) + t[1..];
    } else {
      assert Front(s) == [] && Seam(s, t)[1..] == Middle(s, t) + t[1..];
    }
  }

  // The same headings with and without plain lines behind a, and with a's last line exchanged.
  lemma ScanWithoutStale(a: seq<string>, whole: seq<string>, front: seq<string>, l: string, first: string,
                         plain: seq<string>, z0: string, rest: seq<string>, classify: Classifier)
    requires !classify(l).Head? && classify(first) == classify(l)
    requires AllPlain(plain, classify) && classify(z0).Plain?
    requires a == front + [l] && whole == (front + [first]) + (plain + rest)
    ensures var x := Scan(a, classify, false);
      Scan(whole, classify, false).heads == x.heads + Scan([z0] + rest, classify, x.inFence).heads
  {
    ScanSwap(front, first, l, classify);
    ScanAround(front + [first], plain, rest, classify);
    FirstPlain(z0, rest, classify, Scan(front + [l], classify, false).inFence);
  }

  lemma MiddlePlain(s: seq<string>, t: seq<string>, classify: Classifier)
    requires |s| >= 1 && |t| >= 1
    requires AllPlain(s[1..], classify) && (|s| > 1 ==> classify(Last(s) + t[0]).Plain?)
    ensures AllPlain(Middle(s, t), classify)
  {
    forall l | l in Middle(s, t) ensures classify(l).Plain? {
      if l in Front(s)[1..] {
        assert l in s[1..];
      }
    }
  }

  lemma FirstPlain(l: string, rest: seq<string>, classify: Classifier, inFence: bool)
    requires classify(l).Plain?
    ensures Scan([l] + rest, classify, inFence) == Scan(rest, classify, inFence)
  {
    assert ([l] + rest)[1..] == rest;
  }

  lemma QuietLines(p: Parts)
    ensures Lines(TextOf(p)) == Seam(Lines(p.head + START), Seam(Lines(p.stale + END), Lines(p.tail)))
    ensures Lines(END + p.tail) == [END + Lines(p.tail)[0]] + Lines(p.tail)[1..]
  {
    LinesConcat(p.head + START, p.stale + END + p.tail);
    LinesConcat(p.stale + END, p.tail);
    EndIsOneLine();
    LinesConcat(END, p.tail);
    SeamOne(END, Lines(p.tail));
  }

  lemma QuietKinds(p: Parts, more: string)
    ensures QuietStale(p) ==> var l := Last(Lines(p.head + START)); CLASSIFY(l + more) == CLASSIFY(l)
    ensures QuietStale(p) && |Lines(p.stale + END)| > 1 ==>
      CLASSIFY(Last(Lines(p.stale + END)) + Lines(p.tail)[0]).Plain?
  {
    if !QuietStale(p) {
      return;
    }
    StartIsOneLine();
    EndIsOneLine();
    LastBehindMark(p.head, START);
    LastBehindMark(p.stale, END);
    MarkedLineStays(Last(Lines(p.head)), START, more);
    var s := Lines(p.stale + END);
    if |s| > 1 {
      assert Last(s) in s[1..];
      MarkedLineStays(Last(Lines(p.stale)), END, Lines(p.tail)[0]);
    }
  }

  lemma QuietHeadings(p: Parts)
    requires QuietStale(p)
    ensures HeadingsOf(TextOf(p)) == Outer(p)
  {
    var a, s, t := Lines(p.head + START), Lines(p.stale + END), Lines(p.tail);
    QuietLines(p);
    QuietKinds(p, Seam(s, t)[0]);
    AngleIsPlain(END + t[0]);
    QuietScan(a, s, t, END + t[0], CLASSIFY);
  }

  lemma QuietScan(a: seq<string>, s: seq<string>, t: seq<string>, z0: string, classify: Classifier)
    requires |a| >= 1 && |s| >= 1 && |t| >= 1
    requires AllPlain(s[1..], classify) && classify(z0).Plain?
    requires !classify(Last(a)).Head? && classify(Last(a) + Seam(s, t)[0]) == classify(Last(a))
    requires |s| > 1 ==> classify(Last(s) + t[0]).Plain?
    ensures var x := Scan(a, classify, false);
      Scan(Seam(a, Seam(s, t)), classify, false).heads
        == x.heads + Scan([z0] + t[1..], classify, x.inFence).heads
  {
    assert a == Front(a) + [Last(a)];
    assert AllPlain(Middle(s, t), classify) by {
      MiddlePlain(s, t, classify);
    }
    SeamTwice(a, s, t);
    ScanWithoutStale(a, Seam(a, Seam(s, t)), Front(a), Last(a), Last(a) + Seam(s, t)[0], Middle(s, t), z0, t[1..],
      classify);
  }

  // With nothing in the stale region, one rewrite already is the fixpoint.
  lemma FirstRewriteSettles(text: string)
    requires Rewrite(text).Some? && MarkerFree(HeadingsOf(text)) && QuietStale(Split(text).value)
    ensures var once := Rewrite(text).value; Rewrite(once) == Some(once)
  {
    SplitParts(text);
    QuietHeadings(Split(text).value);
    FirstRewriteSettlesIff(text);
  }
}

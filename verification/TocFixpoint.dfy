// Rewriting a table of contents settles: what the second rewrite writes, every further one keeps.
module TocFixpoint {
  import opened Wrappers
  import opened PyStrings
  import opened Sequences
  import opened TocDocument
  import opened TocRewrite

  // ---------------------------------------------------------------- finding the markers again

  lemma FindIs(s: string, pat: string, n: nat)
    requires Occurs(s, pat, n) && forall i: nat :: i < n ==> !Occurs(s, pat, i)
    ensures Find(s, pat) == Some(n)
  {
    FindFirst(s, pat);
  }

  // The first occurrence of a pattern in the text up to its own end.
  ghost predicate FirstIn(a: string, pat: string) {
    forall i: nat :: i < |a| ==> !Occurs(a + pat, pat, i)
  }

  // A text is split where its first part ends, whatever follows the pattern.
  lemma FindBehind(a: string, pat: string, rest: string)
    ensures FirstIn(a, pat) <==> Find(a + pat + rest, pat) == Some(|a|)
  {
    var whole := a + pat + rest;
    forall i: nat | i < |a| ensures Occurs(whole, pat, i) <==> Occurs(a + pat, pat, i) {
      assert whole == "" + (a + pat) + rest;
      OccursWithin("", a + pat, rest, pat, i);
    }
    OccursWithin(a, pat, rest, pat, |a|);
    assert pat[0..] == pat;
    FindFirst(whole, pat);
    if FirstIn(a, pat) {
      FindIs(whole, pat, |a|);
    }
  }

  ghost predicate ValidParts(p: Parts) {
    FirstIn(p.head, START) && FirstIn(p.stale, END)
  }

  function TextOf(p: Parts): string {
    p.head + START + (p.stale + END + p.tail)
  }

  lemma SplitText(p: Parts)
    requires ValidParts(p)
    ensures Split(TextOf(p)) == Some(p)
  {
    var rest := p.stale + END + p.tail;
    var text := p.head + START + rest;
    FindBehind(p.head, START, rest);
    FindBehind(p.stale, END, p.tail);
    assert text[|p.head| + |START|..] == rest;
    assert text[..|p.head|] == p.head;
    assert rest[..|p.stale|] == p.stale && rest[|p.stale| + |END|..] == p.tail;
  }

  // What a rewrite writes between the first start marker and the first end marker behind it.
  lemma TableWritten(head: string, stale: string, tail: string)
    requires FirstIn(head, "<!-- toc -->") && FirstIn(stale, "<!-- /toc -->")
    ensures var text := head + "<!-- toc -->" + (stale + "<!-- /toc -->" + tail);
      HeadingsOf(text) != [] ==>
        var table := "**Contents**" + "\n" + ("" + "\n" + Join(TocLines(HeadingsOf(text)), "\n"));
        Rewrite(text) == Some(head + "<!-- toc -->" + "\n\n" + table + "\n\n" + "<!-- /toc -->" + tail)
  {
    var heads := HeadingsOf(head + "<!-- toc -->" + (stale + "<!-- /toc -->" + tail));
    SplitText(Parts(head, stale, tail));
    if heads != [] {
      TableJoined(heads);
    }
  }

  lemma TableJoined(heads: seq<(nat, string)>)
    requires heads != []
    ensures Join(BuildLines(heads), "\n") == "**Contents**" + "\n" + ("" + "\n" + Join(TocLines(heads), "\n"))
  {
    var lines := TocLines(heads);
    assert BuildLines(heads)[1..] == [""] + lines && ([""] + lines)[1..] == lines;
  }

  lemma CutThree(text: string, i: nat, j: nat)
    requires i <= j <= |text|
    ensures text == text[..i] + text[i..j] + text[j..]
  {
  }

  lemma CutAtFind(text: string, pat: string)
    requires Find(text, pat).Some?
    ensures var at := Find(text, pat).value;
      at + |pat| <= |text| && text == text[..at] + pat + text[at + |pat|..]
  {
    FindFirst(text, pat);
    var at := Find(text, pat).value;
    CutThree(text, at, at + |pat|);
    assert text[at..at + |pat|] == pat;
  }

  lemma SplitParts(text: string)
    requires Split(text).Some?
    ensures ValidParts(Split(text).value) && TextOf(Split(text).value) == text
  {
    var p := Split(text).value;
    CutAtFind(text, START);
    var rest := text[Find(text, START).value + |START|..];
    CutAtFind(rest, END);
    FindBehind(p.head, START, rest);
    FindBehind(p.stale, END, p.tail);
  }

  // ---------------------------------------------------------------- the renewed document

  function NewStale(heads: seq<(nat, string)>): string {
    "\n" + ("\n" + (Join(BuildLines(heads), "\n") + "\n")) + "\n"
  }

  function Renew(p: Parts, heads: seq<(nat, string)>): Parts {
    Parts(p.head, NewStale(heads), p.tail)
  }

  lemma RenewedIs(p: Parts, heads: seq<(nat, string)>)
    ensures Renewed(p, heads) == TextOf(Renew(p, heads))
  {
    var b := Join(BuildLines(heads), "\n");
    assert "\n\n" == "\n" + "\n";
    assert p.head + START + "\n\n" + b + "\n\n" + END + p.tail
        == p.head + START + ("\n" + ("\n" + (b + "\n")) + "\n" + END + p.tail);
  }

  // The renewed document is split where the old one was.
  lemma RenewValid(p: Parts, heads: seq<(nat, string)>)
    requires ValidParts(p) && MarkerFree(heads)
    ensures ValidParts(Renew(p, heads))
  {
    var b := Join(BuildLines(heads), "\n");
    var inner := "\n" + (b + "\n");
    assert '\n' !in END;
    MarkerFreeBuild(heads);
    if i: nat :| i < |NewStale(heads)| && Occurs(NewStale(heads) + END, END, i) {
      assert NewStale(heads) + END == ("\n" + inner) + "\n" + END;
      OccursAcross("\n" + inner, END, END, i);
      assert "\n" + inner == "" + "\n" + inner;
      OccursAcross("", inner, END, i);
      assert inner == "" + "\n" + (b + "\n");
      OccursAcross("", b + "\n", END, i - 1);
      assert b + "\n" == b + "\n" + "";
      OccursAcross(b, "", END, i - 2);
    }
  }

  // ---------------------------------------------------------------- its headings

  // What head and tail contribute, with the fence state the head leaves.
  function Outer(p: Parts): seq<(nat, string)> {
    var x := Scan(Lines(p.head + START), CLASSIFY, false);
    x.heads + Scan(Lines(END + p.tail), CLASSIFY, x.inFence).heads
  }

  ghost predicate Unbroken(heads: seq<(nat, string)>) {
    forall h :: h in heads ==> Without(h.1, BREAK)
  }

  lemma {:induction false} TocLinesUnbroken(heads: seq<(nat, string)>)
    requires Unbroken(heads)
    ensures forall l :: l in TocLines(heads) ==> Without(l, BREAK)
  {
    if heads == [] {
    } else {
      var (level, title) := heads[0];
      assert heads[0] in heads;
      TocLineParts(level, title);
      var line := Before(level) + title + Behind(title);
      forall i | 0 <= i < |line| ensures !BREAK(line[i]) {
        if i < |Before(level)| {
          assert QUIET(Before(level)[i]);
        } else if i >= |Before(level)| + |title| {
          assert QUIET(Behind(title)[i - |Before(level)| - |title|]);
        }
      }
      TocLinesUnbroken(heads[1..]);
    }
  }

  lemma {:induction false} LinesOfJoined(lines: seq<string>)
    requires lines != [] && forall l :: l in lines ==> Without(l, BREAK)
    ensures Lines(Join(lines, "\n")) == lines
  {
    OneLine(lines[0]);
    if |lines| <= 1 {
    } else {
      LinesBroken(lines[0], Join(lines[1..], "\n"));
      LinesOfJoined(lines[1..]);
    }
  }

  lemma CaptionPlain()
    ensures Without("**Contents**", BREAK) && CLASSIFY("**Contents**") == Plain && CLASSIFY("") == Plain
  {
    var title := "**Contents**";
    assert forall i :: 0 <= i < |title| ==> !BREAK(title[i]);
    assert title[0] == '*' && !SPACE('*');
  }

  lemma BuildInert(heads: seq<(nat, string)>)
    requires Unbroken(heads)
    ensures Lines(Join(BuildLines(heads), "\n")) == BuildLines(heads)
    ensures AllPlain(BuildLines(heads), CLASSIFY)
  {
    TocLinesUnbroken(heads);
    CaptionPlain();
    BuildPlain(heads);
    LinesOfJoined(BuildLines(heads));
  }

  lemma RenewedLines(p: Parts, heads: seq<(nat, string)>)
    ensures Lines(TextOf(Renew(p, heads)))
         == Lines(p.head + START) + (([""] + (Lines(Join(BuildLines(heads), "\n")) + [""])) + Lines(END + p.tail))
  {
    var a, z := p.head + START, END + p.tail;
    var b := Join(BuildLines(heads), "\n");
    assert TextOf(Renew(p, heads)) == a + "\n" + ("" + "\n" + (b + "\n" + ("" + "\n" + z)));
    FourBreaks(a, b, z);
  }

  lemma FourBreaks(a: string, b: string, z: string)
    ensures Lines(a + "\n" + ("" + "\n" + (b + "\n" + ("" + "\n" + z))))
         == Lines(a) + (([""] + (Lines(b) + [""])) + Lines(z))
  {
    var c := "" + "\n" + z;
    var d := b + "\n" + c;
    LinesBroken(a, "" + "\n" + d);
    LinesBroken("", d);
    LinesBroken(b, c);
    LinesBroken("", z);
  }

  // Plain lines in the middle change nothing about a scan.
  lemma ScanAround(a: seq<string>, plain: seq<string>, z: seq<string>, classify: Classifier)
    requires AllPlain(plain, classify)
    ensures var x := Scan(a, classify, false);
      Scan(a + (plain + z), classify, false).heads == x.heads + Scan(z, classify, x.inFence).heads
  {
    var x := Scan(a, classify, false);
    ScanConcat(a, plain + z, classify, false);
    PlainFirst(plain, z, classify, x.inFence);
  }

  lemma PlainFirst(plain: seq<string>, z: seq<string>, classify: Classifier, inFence: bool)
    requires AllPlain(plain, classify)
    ensures Scan(plain + z, classify, inFence) == Scan(z, classify, inFence)
  {
    ScanConcat(plain, z, classify, inFence);
    ScanPlain(plain, classify, inFence);
    var y := Scan(z, classify, inFence);
    assert [] + y.heads == y.heads;
  }

  // The table itself contributes no heading and leaves the fence state alone.
  lemma RenewedHeadings(p: Parts, heads: seq<(nat, string)>)
    requires Unbroken(heads)
    ensures HeadingsOf(TextOf(Renew(p, heads))) == Outer(p)
  {
    RenewedLines(p, heads);
    BuildInert(heads);
    var toc := [""] + (BuildLines(heads) + [""]);
    assert AllPlain(toc, CLASSIFY) by {
      assert "" in BuildLines(heads);
    }
    ScanAround(Lines(p.head + START), toc, Lines(END + p.tail), CLASSIFY);
  }

  // ---------------------------------------------------------------- headings without markers

  // No line of the document that looks like a heading, fenced or not, carries the end marker.
  ghost predicate NoMarkerInHeadings(text: string) {
    CleanLines(Lines(text), CLASSIFY)
  }

  function TitleOf(line: string): string
    requires Hashes(line) <= |line|
  {
    StripRight(StripLeft(line[Hashes(line)..], BLANK), SPACE)
  }

  lemma HeadTitle(line: string)
    ensures CLASSIFY(line).Head? ==> Hashes(line) < |line| && CLASSIFY(line).title == TitleOf(line)
  {
  }

  // A title is a piece of its line.
  lemma TitleInLine(line: string) returns (a: string, b: string)
    requires Hashes(line) <= |line|
    ensures line == a + TitleOf(line) + b
  {
    var n := Hashes(line);
    var c, d := StripPart(line[n..], BLANK, SPACE);
    a, b := line[..n] + c, d;
    RegroupFour(line[..n], c, TitleOf(line), d);
    assert line == line[..n] + line[n..];
  }

  lemma TitlesUnbroken(lines: seq<string>, inFence: bool)
    requires forall l :: l in lines ==> Without(l, BREAK)
    ensures Unbroken(Scan(lines, CLASSIFY, inFence).heads)
  {
    ScannedTitles(lines, CLASSIFY, inFence);
    forall h | h in Scan(lines, CLASSIFY, inFence).heads ensures Without(h.1, BREAK) {
      var l :| l in lines && CLASSIFY(l) == Head(h.0, h.1);
      HeadTitle(l);
      var a, b := TitleInLine(l);
      forall i | 0 <= i < |h.1| ensures !BREAK(h.1[i]) {
        assert l[|a| + i] == h.1[i];
      }
    }
  }

  // Titles found in clean lines are clean.
  lemma CleanTitles(lines: seq<string>, inFence: bool)
    ensures CleanLines(lines, CLASSIFY) ==> MarkerFree(Scan(lines, CLASSIFY, inFence).heads)
  {
    if !CleanLines(lines, CLASSIFY) {
      return;
    }
    ScannedTitles(lines, CLASSIFY, inFence);
    forall h | h in Scan(lines, CLASSIFY, inFence).heads ensures !Contains(h.1, END) {
      var l :| l in lines && CLASSIFY(l) == Head(h.0, h.1);
      HeadTitle(l);
      var a, b := TitleInLine(l);
      if Contains(h.1, END) {
        ContainsWider(a, h.1, b, END);
      }
    }
  }

  // No title of the document, and none outside the table, holds a line break.
  lemma HeadingsUnbroken(text: string)
    ensures Unbroken(HeadingsOf(text))
  {
    LinesUnbroken(text);
    TitlesUnbroken(Lines(text), false);
  }

  lemma OuterUnbroken(p: Parts)
    ensures Unbroken(Outer(p))
  {
    var a, z := p.head + START, END + p.tail;
    LinesUnbroken(a);
    LinesUnbroken(z);
    TitlesUnbroken(Lines(a), false);
    TitlesUnbroken(Lines(z), Scan(Lines(a), CLASSIFY, false).inFence);
  }

  lemma {:induction false} HashesBehind(l: string, more: string)
    requires Hashes(l) < |l|
    ensures Hashes(l + more) == Hashes(l)
  {
    assert (l + more)[0] == l[0];
    if l[0] != '#' {
    } else {
      assert (l + more)[1..] == l[1..] + more;
      HashesBehind(l[1..], more);
    }
  }

  lemma NoFence(l: string)
    requires l != "" && l[0] == '#'
    ensures !(FENCE <= StripLeft(l, SPACE))
  {
    assert !SPACE('#') && FENCE[0] != '#';
  }

  lemma HeadStaysHead(l: string, more: string)
    ensures CLASSIFY(l).Head? ==> CLASSIFY(l + more).Head?
  {
    if CLASSIFY(l).Head? {
      HashesBehind(l, more);
      NoFence(l + more);
      assert (l + more)[Hashes(l)] == l[Hashes(l)];
    }
  }

  lemma TailStartsPlain(tail: string)
    ensures Lines(END + tail)[0] == END + Lines(tail)[0] && CLASSIFY(Lines(END + tail)[0]) == Plain
  {
    EndIsOneLine();
    LinesConcat(END, tail);
    SeamOne(END, Lines(tail));
    AngleIsPlain(END + Lines(tail)[0]);
  }

  lemma EndIsOneLine()
    ensures Lines(END) == [END]
  {
    assert Without(END, BREAK);
    OneLine(END);
  }

  lemma SeamOne(l: string, b: seq<string>)
    requires |b| >= 1
    ensures Seam([l], b) == [l + b[0]] + b[1..]
  {
    assert Front([l]) == [];
  }

  lemma AngleIsPlain(l: string)
    requires l != "" && l[0] == '<'
    ensures CLASSIFY(l) == Plain
  {
    assert !SPACE('<');
  }

  ghost predicate CleanLines(lines: seq<string>, classify: Classifier) {
    forall l :: l in lines && classify(l).Head? ==> !Contains(l, END)
  }

  ghost predicate HeadsStay(classify: Classifier) {
    forall l, more :: classify(l).Head? ==> classify(l + more).Head?
  }

  lemma ClassifyHeadsStay()
    ensures HeadsStay(CLASSIFY)
  {
    forall l, more | CLASSIFY(l).Head? ensures CLASSIFY(l + more).Head? {
      HeadStaysHead(l, more);
    }
  }

  lemma SeamHas(x: seq<string>, y: seq<string>, l: string)
    requires |x| >= 1 && |y| >= 1 && l in x
    ensures l in Seam(x, y) || (l == Last(x) && l + y[0] in Seam(x, y))
  {
    var i :| 0 <= i < |x| && x[i] == l;
    assert Seam(x, y)[|x| - 1] == Last(x) + y[0];
    if i < |x| - 1 {
      assert Seam(x, y)[i] == l;
    }
  }

  // Cutting a document short keeps its complete lines, and a heading cut short was a heading.
  lemma CutClean(a: string, rest: string, classify: Classifier)
    requires CleanLines(Lines(a + rest), classify) && HeadsStay(classify)
    ensures CleanLines(Lines(a), classify)
  {
    LinesConcat(a, rest);
    var x, y := Lines(a), Lines(rest);
    forall l | l in x && classify(l).Head? ensures !Contains(l, END) {
      SeamHas(x, y, l);
      if Contains(l, END) {
        ContainsLonger(l, y[0], END);
      }
    }
  }

  lemma ContainsLonger(s: string, b: string, pat: string)
    requires Contains(s, pat)
    ensures Contains(s + b, pat)
  {
    ContainsWider("", s, b, pat);
    assert "" + s + b == s + b;
  }

  lemma TailClean(a: string, tail: string)
    ensures CleanLines(Lines(a + (END + tail)), CLASSIFY) ==> CleanLines(Lines(END + tail), CLASSIFY)
  {
    if !CleanLines(Lines(a + (END + tail)), CLASSIFY) {
      return;
    }
    var z := END + tail;
    LinesConcat(a, z);
    TailStartsPlain(tail);
    forall l | l in Lines(z) && CLASSIFY(l).Head? ensures !Contains(l, END) {
      assert l in Lines(z)[1..];
      assert l in Lines(a + z);
    }
  }

  // If no line that looks like a heading carries the end marker, then no heading of the document does
  // and none that head and tail contribute.
  lemma OuterClean(p: Parts)
    requires NoMarkerInHeadings(TextOf(p))
    ensures MarkerFree(HeadingsOf(TextOf(p))) && MarkerFree(Outer(p))
  {
    var a, z := p.head + START, END + p.tail;
    CleanTitles(Lines(TextOf(p)), false);
    ClassifyHeadsStay();
    CutClean(a, p.stale + END + p.tail, CLASSIFY);
    TextEnds(p);
    TailClean(a + p.stale, p.tail);
    CleanTitles(Lines(a), false);
    CleanTitles(Lines(z), Scan(Lines(a), CLASSIFY, false).inFence);
  }

  lemma TextEnds(p: Parts)
    ensures TextOf(p) == (p.head + START + p.stale) + (END + p.tail)
  {
  }

  // ---------------------------------------------------------------- the fixpoint

  // Where neither a heading of the document nor one outside the table carries the end marker, the
  // second rewrite is a fixpoint: a third one writes what the second wrote.
  lemma SecondRewriteSettles(text: string)
    requires Rewrite(text).Some?
    requires MarkerFree(HeadingsOf(text)) && MarkerFree(Outer(Split(text).value))
    ensures Rewrite(Rewrite(text).value).Some?
    ensures var twice := Rewrite(Rewrite(text).value).value; Rewrite(twice) == Some(twice)
  {
    SplitParts(text);
    var p := Split(text).value;
    HeadingsUnbroken(text);
    OuterUnbroken(p);
    Rewritten(p, HeadingsOf(text));
    Rewritten(p, Outer(p));
  }

  // One rewrite of a renewed document.
  lemma Rewritten(p: Parts, heads: seq<(nat, string)>)
    requires ValidParts(p) && MarkerFree(heads) && Unbroken(heads)
    ensures Rewrite(Renewed(p, heads)) == Some(Renewed(p, Outer(p)))
  {
    RenewedIs(p, heads);
    RenewValid(p, heads);
    SplitText(Renew(p, heads));
    RenewedHeadings(p, heads);
  }
}

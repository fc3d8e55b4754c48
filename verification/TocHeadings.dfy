// reference/gen_toc.py, headings: which lines of a written document the table lists.
module TocHeadings {
  import opened PyStrings
  import opened TocDocument

  // ---------------------------------------------------------------- one line

  predicate OnlyHashes(h: string) {
    forall i :: 0 <= i < |h| ==> h[i] == '#'
  }

  lemma {:induction false} HashesCounted(h: string, rest: string)
    requires OnlyHashes(h) && (rest == "" || rest[0] != '#')
    ensures Hashes(h + rest) == |h|
  {
    if h == "" {
      assert h + rest == rest;
    } else {
      assert (h + rest)[1..] == h[1..] + rest && h[0] == '#';
      HashesCounted(h[1..], rest);
    }
  }

  // A line of hashes and something else is a heading of the table if and only if there are two or
  // three hashes and a blank behind them.
  lemma HeadingIff(h: string, rest: string)
    requires h != "" && OnlyHashes(h) && (rest == "" || rest[0] != '#')
    ensures var kind := CLASSIFY(h + rest);
      kind == if |h| in {2, 3} && rest != "" && rest[0] == ' '
              then Head(|h|, StripRight(StripLeft(rest, BLANK), SPACE)) else Plain
  {
    HashesCounted(h, rest);
    var line := h + rest;
    assert line[0] == '#' && !SPACE('#') && StripLeft(line, SPACE) == line;
    assert FENCE[0] == '`';
    assert rest != "" ==> line[|h|] == rest[0];
    assert line[|h|..] == rest;
  }

  // Its title is what stands between the blanks.
  lemma TitleRead(h: string, gap: string, title: string, trail: string)
    requires OnlyHashes(h) && |h| in {2, 3} && gap != "" && All(gap, BLANK) && All(trail, SPACE)
    requires title != "" && title[0] != ' ' && !SPACE(title[|title| - 1])
    ensures CLASSIFY(h + gap + title + trail) == Head(|h|, title)
  {
    var rest := gap + (title + trail);
    assert h + gap + title + trail == h + rest && rest[0] == gap[0] && BLANK(gap[0]);
    HeadingIff(h, rest);
    TitleStripped(gap, title, trail);
  }

  lemma TitleStripped(gap: string, title: string, trail: string)
    requires All(gap, BLANK) && All(trail, SPACE)
    requires title != "" && title[0] != ' ' && !SPACE(title[|title| - 1])
    ensures StripRight(StripLeft(gap + (title + trail), BLANK), SPACE) == title
  {
    StripLeftSkips(gap, title + trail, BLANK);
    assert (title + trail)[0] == title[0];
    StripRightSkips(title, trail, SPACE);
  }

  // A fence is a line that begins, behind white space, with three backticks.
  lemma FenceIff(indent: string, rest: string)
    requires All(indent, SPACE) && (rest != "" ==> !SPACE(rest[0]))
    ensures CLASSIFY(indent + rest) == Fence <==> "```" <= rest
  {
    StripLeftSkips(indent, rest, SPACE);
    assert StripLeft(rest, SPACE) == rest;
  }

  // What begins otherwise than with a hash is no heading.
  lemma OthersPlain(line: string)
    requires line == "" || line[0] != '#'
    ensures !CLASSIFY(line).Head?
  {
  }

  // ---------------------------------------------------------------- a document

  predicate Closed(text: string) {
    !Scan(Lines(text), CLASSIFY, false).inFence
  }

  lemma LinesAround(a: string, line: string, b: string)
    requires Without(line, BREAK)
    ensures Lines(a + "\n" + line + "\n" + b) == Lines(a) + [line] + Lines(b)
  {
    LinesBroken(a + "\n" + line, b);
    LinesBroken(a, line);
    OneLine(line);
  }

  lemma LineUnbroken(h: string, gap: string, title: string, trail: string)
    requires OnlyHashes(h) && All(gap, BLANK) && Without(title, BREAK) && Without(trail, BREAK)
    ensures Without(h + gap + title + trail, BREAK)
  {
    assert !BREAK('#') && forall c :: BLANK(c) ==> !BREAK(c);
  }

  lemma LineListed(a: string, line: string, b: string, level: nat, title: string)
    requires Without(line, BREAK)
    ensures Closed(a) && CLASSIFY(line) == Head(level, title) ==>
      HeadingsOf(a + "\n" + line + "\n" + b) == HeadingsOf(a) + [(level, title)] + HeadingsOf(b)
  {
    LinesAround(a, line, b);
    if CLASSIFY(line) == Head(level, title) {
      ScanListed(Lines(a), line, Lines(b), CLASSIFY, level, title);
    }
  }

  lemma ScanListed(a: seq<string>, line: string, b: seq<string>, classify: Classifier, level: nat, title: string)
    requires classify(line) == Head(level, title)
    ensures !Scan(a, classify, false).inFence ==>
      Scan(a + [line] + b, classify, false).heads
        == Scan(a, classify, false).heads + [(level, title)] + Scan(b, classify, false).heads
  {
    ScanConcat(a + [line], b, classify, false);
    ScanConcat(a, [line], classify, false);
    assert [line][1..] == [];
  }

  // A heading outside a fence is listed between those before and behind it.
  lemma HeadingListed(a: string, h: string, gap: string, title: string, trail: string, b: string)
    requires OnlyHashes(h) && |h| in {2, 3} && gap != "" && All(gap, BLANK) && All(trail, SPACE)
    requires title != "" && title[0] != ' ' && !SPACE(title[|title| - 1])
    requires Without(title, BREAK) && Without(trail, BREAK)
    ensures Closed(a) ==>
      HeadingsOf(a + "\n" + (h + gap + title + trail) + "\n" + b)
        == HeadingsOf(a) + [(|h|, title)] + HeadingsOf(b)
  {
    TitleRead(h, gap, title, trail);
    LineUnbroken(h, gap, title, trail);
    LineListed(a, h + gap + title + trail, b, |h|, title);
  }

  // A fence, lines of which none is one, and a fence.
  predicate Fenced(open: string, body: seq<string>, close: string) {
    && CLASSIFY(open) == Fence && CLASSIFY(close) == Fence
    && forall l :: l in body ==> CLASSIFY(l) != Fence
  }

  // Nothing between two fences is listed, whatever it looks like.
  lemma FenceHides(a: string, open: string, body: string, close: string, b: string)
    requires Without(open, BREAK) && Without(close, BREAK)
    ensures Closed(a) && Fenced(open, Lines(body), close) ==>
      HeadingsOf(a + "\n" + open + "\n" + body + "\n" + close + "\n" + b) == HeadingsOf(a) + HeadingsOf(b)
  {
    LinesAround(a + "\n" + open + "\n" + body, close, b);
    LinesAround(a, open, body);
    if Closed(a) && Fenced(open, Lines(body), close) {
      ScanFences(Lines(a), open, Lines(body), close, Lines(b), CLASSIFY);
    }
  }

  lemma ScanFences(a: seq<string>, open: string, body: seq<string>, close: string, b: seq<string>, classify: Classifier)
    requires !Scan(a, classify, false).inFence && classify(open) == Fence && classify(close) == Fence
    requires forall l :: l in body ==> classify(l) != Fence
    ensures Scan(a + [open] + body + [close] + b, classify, false).heads
         == Scan(a, classify, false).heads + Scan(b, classify, false).heads
  {
    var x := a + [open] + body;
    ScanConcat(x + [close], b, classify, false);
    ScanConcat(x, [close], classify, false);
    ScanConcat(a + [open], body, classify, false);
    ScanConcat(a, [open], classify, false);
    assert [open][1..] == [] && [close][1..] == [];
    ScanFenced(body, classify);
    var heads := Scan(a, classify, false).heads;
    assert heads + [] == heads;
  }

  lemma {:induction false} ScanFenced(lines: seq<string>, classify: Classifier)
    requires forall l :: l in lines ==> classify(l) != Fence
    ensures Scan(lines, classify, true) == Scanned([], true)
  {
    if lines == [] {
    } else {
      assert lines[0] in lines;
      ScanFenced(lines[1..], classify);
    }
  }
}

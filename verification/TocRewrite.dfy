// reference/gen_toc.py, anchor, build and the marker rewrite in main.
module TocRewrite {
  import opened Wrappers
  import opened PyStrings
  import opened TocDocument

  // ---------------------------------------------------------------- anchors and lines

  function Keep(s: string, ok: CharTest): string {
    if s == "" then "" else if ok(s[0]) then [s[0]] + Keep(s[1..], ok) else Keep(s[1..], ok)
  }

  // [text](url) -> text, where the text holds no closing bracket and the url no closing parenthesis
  function Unlinked(s: string): string
    decreases |s|
  {
    if s == "" then ""
    else
      var shut := if s[0] == '[' then Find(s, "]") else None;
      var rest := if shut.Some? then s[shut.value + 1..] else "";
      var end := if "(" <= rest then Find(rest, ")") else None;
      if end.Some? && shut.value >= 1 then s[1..shut.value] + Unlinked(rest[end.value + 1..])
      else [s[0]] + Unlinked(s[1..])
  }

  function Lower(s: string): string {
    if s == "" then ""
    else [if 'A' <= s[0] <= 'Z' then ((s[0] as int) + 32) as char else s[0]] + Lower(s[1..])
  }

  function Dashed(s: string): string {
    if s == "" then "" else [if s[0] == ' ' then '-' else s[0]] + Dashed(s[1..])
  }

  const NOT_TICK: CharTest := c => c != '`'
  const WORD_CHAR: CharTest := c => 'a' <= c <= 'z' || '0' <= c <= '9' || c == ' ' || c == '_' || c == '-'
  const SLUG_CHAR: CharTest := c => 'a' <= c <= 'z' || '0' <= c <= '9' || c == '_' || c == '-'

  function Anchor(heading: string): string {
    var h := Keep(Lower(Unlinked(Keep(heading, NOT_TICK))), WORD_CHAR);
    Dashed(Strip(h, SPACE))
  }

  function Indent(level: nat): string {
    if level <= 2 then "" else "  " + Indent(level - 1)
  }

  function TocLine(level: nat, title: string): string {
    Indent(level) + "- [" + title + "](#" + Anchor(title) + ")"
  }

  function TocLines(heads: seq<(nat, string)>): seq<string> {
    if heads == [] then [] else [TocLine(heads[0].0, heads[0].1)] + TocLines(heads[1..])
  }

  function BuildLines(heads: seq<(nat, string)>): seq<string> {
    ["**Contents**", ""] + TocLines(heads)
  }

  // The lines with line feeds between them.
  method Build(text: string) returns (toc: string)
    ensures toc == Join(BuildLines(HeadingsOf(text)), "\n")
  {
    var heads := Headings(text);
    var lines := AppendLines(heads);
    toc := Join(["**Contents**", ""] + lines, "\n");
  }

  method AppendLines(heads: seq<(nat, string)>) returns (lines: seq<string>)
    ensures lines == TocLines(heads)
  {
    lines := [];
    for n := 0 to |heads|
      invariant lines == TocLines(heads[..n])
    {
      TocLinesNext(heads, n);
      lines := lines + [TocLine(heads[n].0, heads[n].1)];
    }
    assert heads[..|heads|] == heads;
  }

  lemma {:induction false} TocLinesNext(heads: seq<(nat, string)>, n: nat)
    requires n < |heads|
    ensures TocLines(heads[..n + 1]) == TocLines(heads[..n]) + [TocLine(heads[n].0, heads[n].1)]
  {
    if n > 0 {
      TocLinesNext(heads[1..], n - 1);
      assert heads[..n + 1][1..] == heads[1..][..n] && heads[..n][1..] == heads[1..][..n - 1];
    } else {
      assert heads[..1][1..] == [];
    }
  }

  // ---------------------------------------------------------------- the rewrite

  datatype Parts = Parts(head: string, stale: string, tail: string)

  // A document around its first start marker and the first end marker behind it.
  function Split(text: string): Option<Parts> {
    var at := Find(text, START);
    if at.None? then None
    else
      var rest := text[at.value + |START|..];
      var to := Find(rest, END);
      if to.None? then None
      else Some(Parts(text[..at.value], rest[..to.value], rest[to.value + |END|..]))
  }

  function Renewed(p: Parts, heads: seq<(nat, string)>): string {
    p.head + START + "\n\n" + Join(BuildLines(heads), "\n") + "\n\n" + END + p.tail
  }

  // None where a marker is missing or the end marker stands only before the start marker.
  function Rewrite(text: string): Option<string> {
    var p := Split(text);
    if p.None? then None else Some(Renewed(p.value, HeadingsOf(text)))
  }

  lemma FoundIffContained(s: string, pat: string)
    ensures Find(s, pat).Some? <==> Contains(s, pat)
  {
    FindFirst(s, pat);
    if Contains(s, pat) {
      var i: nat :| Occurs(s, pat, i);
    }
  }

  lemma SplitHasMarkers(text: string)
    requires Split(text).Some?
    ensures Found(text, START) && Found(text, END)
  {
    FoundLater(text, Find(text, START).value + |START|, END);
  }

  lemma FoundLater(text: string, at: nat, pat: string)
    requires at <= |text| && Find(text[at..], pat).Some?
    ensures Find(text, pat).Some?
  {
    FoundIffContained(text[at..], pat);
    ContainsWider(text[..at], text[at..], "", pat);
    assert text[..at] + text[at..] + "" == text;
    FoundIffContained(text, pat);
  }

  predicate Found(s: string, pat: string) {
    Find(s, pat).Some?
  }

  // The exit code, and what is written back to the file, if anything. The script raises on a text
  // that has both markers but no end marker behind the start marker.
  method Run(text: string, check: bool) returns (r: Outcome<(nat, Option<string>)>)
    ensures r.Raised? <==> Found(text, START) && Found(text, END) && Rewrite(text).None?
    ensures !Found(text, START) || !Found(text, END) ==> r == Returned((2, None))
    ensures Rewrite(text).Some? ==>
      var renewed := Rewrite(text).value;
      r == Returned(if renewed == text then (0, None) else if check then (1, None) else (0, Some(renewed)))
  {
    var p := Split(text);
    if p.Some? {
      SplitHasMarkers(text);
    }
    if !Found(text, START) || !Found(text, END) {
      return Returned((2, None));
    }
    if p.None? {
      return Raised;
    }
    var toc := Build(text);
    var renewed := p.value.head + START + "\n\n" + toc + "\n\n" + END + p.value.tail;
    if renewed == text {
      return Returned((0, None));
    }
    if check {
      return Returned((1, None));
    }
    return Returned((0, Some(renewed)));
  }

  // ---------------------------------------------------------------- generated lines are inert

  lemma {:induction false} KeepAll(s: string, ok: CharTest)
    ensures All(Keep(s, ok), ok)
  {
    if s == "" {
    } else {
      KeepAll(s[1..], ok);
    }
  }

  lemma {:induction false} DashedSlug(s: string)
    requires All(s, WORD_CHAR)
    ensures All(Dashed(s), SLUG_CHAR)
  {
    if s == "" {
    } else {
      assert WORD_CHAR(s[0]);
      DashedSlug(s[1..]);
    }
  }

  lemma AnchorSlug(heading: string)
    ensures All(Anchor(heading), SLUG_CHAR)
  {
    var h := Lower(Unlinked(Keep(heading, NOT_TICK)));
    KeepAll(h, WORD_CHAR);
    StripKeeps(Keep(h, WORD_CHAR), SPACE, SPACE, WORD_CHAR);
    DashedSlug(Strip(Keep(h, WORD_CHAR), SPACE));
  }

  const QUIET: CharTest := c => !BREAK(c) && c != '<' && c != '>'

  const PLAIN_CHAR: CharTest :=
    c => 'a' <= c <= 'z' || 'A' <= c <= 'Z' || '0' <= c <= '9' || c == ' ' || c == '_' || c == '-'

  lemma {:induction false} KeepSame(s: string, ok: CharTest)
    requires All(s, ok)
    ensures Keep(s, ok) == s
  {
    if s == "" {
    } else {
      KeepSame(s[1..], ok);
      assert s == [s[0]] + s[1..];
    }
  }

  lemma {:induction false} UnlinkedSame(s: string)
    requires '[' !in s
    ensures Unlinked(s) == s
  {
    if s == "" {
    } else {
      UnlinkedSame(s[1..]);
      assert s == [s[0]] + s[1..];
    }
  }

  function LowerChar(c: char): char {
    if 'A' <= c <= 'Z' then ((c as int) + 32) as char else c
  }

  lemma {:induction false} LowerAt(s: string)
    ensures |Lower(s)| == |s| && forall i :: 0 <= i < |s| ==> Lower(s)[i] == LowerChar(s[i])
  {
    if s == "" {
    } else {
      LowerAt(s[1..]);
    }
  }

  lemma {:induction false} DashedAt(s: string)
    ensures |Dashed(s)| == |s| && forall i :: 0 <= i < |s| ==> Dashed(s)[i] == if s[i] == ' ' then '-' else s[i]
  {
    if s == "" {
    } else {
      DashedAt(s[1..]);
    }
  }

  // A heading of plain words keeps its length: letters become small, blanks dashes.
  lemma AnchorOfPlain(heading: string)
    requires heading != "" && All(heading, PLAIN_CHAR) && heading[0] != ' ' && heading[|heading| - 1] != ' '
    ensures |Anchor(heading)| == |heading|
    ensures forall i :: 0 <= i < |heading| ==>
      Anchor(heading)[i] == if heading[i] == ' ' then '-' else LowerChar(heading[i])
  {
    forall i | 0 <= i < |heading| ensures NOT_TICK(heading[i]) && heading[i] != '[' {
      assert PLAIN_CHAR(heading[i]);
    }
    KeepSame(heading, NOT_TICK);
    UnlinkedSame(heading);
    LowerAt(heading);
    var low := Lower(heading);
    forall i | 0 <= i < |low| ensures WORD_CHAR(low[i]) && (low[i] == ' ' <==> heading[i] == ' ') {
      assert PLAIN_CHAR(heading[i]);
    }
    KeepSame(low, WORD_CHAR);
    StripPlain(low);
    DashedAt(low);
  }

  lemma {:induction false} KeepConcat(a: string, b: string, ok: CharTest)
    ensures Keep(a + b, ok) == Keep(a, ok) + Keep(b, ok)
  {
    if a == "" {
      assert a + b == b;
    } else {
      assert (a + b)[1..] == a[1..] + b;
      KeepConcat(a[1..], b, ok);
    }
  }

  lemma {:induction false} LowerConcat(a: string, b: string)
    ensures Lower(a + b) == Lower(a) + Lower(b)
  {
    if a == "" {
      assert a + b == b;
    } else {
      assert (a + b)[1..] == a[1..] + b;
      LowerConcat(a[1..], b);
    }
  }

  lemma {:induction false} KeepNoBracket(s: string, ok: CharTest)
    requires '[' !in s
    ensures '[' !in Keep(s, ok)
  {
    if s == "" {
    } else {
      KeepNoBracket(s[1..], ok);
    }
  }

  // Without a link in the heading, punctuation makes no difference to its anchor.
  lemma PunctuationDropped(a: string, c: char, b: string)
    requires '[' !in a + b && c != '[' && !PLAIN_CHAR(c)
    ensures Anchor(a + [c] + b) == Anchor(a + b)
  {
    WithoutLink(a + [c] + b);
    WithoutLink(a + b);
    KeptAround(a, c, b);
    CharDropped(c);
    WordsAround(Keep(a, NOT_TICK), Keep([c], NOT_TICK), Keep(b, NOT_TICK));
  }

  lemma KeptAround(a: string, c: char, b: string)
    ensures Keep(a + b, NOT_TICK) == Keep(a, NOT_TICK) + Keep(b, NOT_TICK)
    ensures Keep(a + [c] + b, NOT_TICK) == Keep(a, NOT_TICK) + Keep([c], NOT_TICK) + Keep(b, NOT_TICK)
  {
    KeepConcat(a + [c], b, NOT_TICK);
    KeepConcat(a, [c], NOT_TICK);
    KeepConcat(a, b, NOT_TICK);
  }

  lemma CharDropped(c: char)
    requires !PLAIN_CHAR(c)
    ensures Keep(Lower(Keep([c], NOT_TICK)), WORD_CHAR) == ""
  {
    assert [c][1..] == "" && Lower([c]) == [c] + Lower("");
    assert !WORD_CHAR(c);
  }

  // Backticks are gone before anything else is looked at.
  lemma TicksDropped(a: string, b: string)
    ensures Anchor(a + "`" + b) == Anchor(a + b)
  {
    KeptAround(a, '`', b);
    assert Keep("`", NOT_TICK) == "" && Keep(a, NOT_TICK) + "" == Keep(a, NOT_TICK);
  }

  lemma WithoutLink(heading: string)
    requires '[' !in heading
    ensures Anchor(heading) == Dashed(Strip(Keep(Lower(Keep(heading, NOT_TICK)), WORD_CHAR), SPACE))
  {
    KeepNoBracket(heading, NOT_TICK);
    UnlinkedSame(Keep(heading, NOT_TICK));
  }

  lemma WordsAround(x: string, mid: string, y: string)
    requires Keep(Lower(mid), WORD_CHAR) == ""
    ensures Keep(Lower(x + mid + y), WORD_CHAR) == Keep(Lower(x + y), WORD_CHAR)
  {
    LowerConcat(x + mid, y);
    LowerConcat(x, mid);
    LowerConcat(x, y);
    KeepConcat(Lower(x + mid), Lower(y), WORD_CHAR);
    KeepConcat(Lower(x), Lower(mid), WORD_CHAR);
    KeepConcat(Lower(x), Lower(y), WORD_CHAR);
    assert Keep(Lower(x), WORD_CHAR) + "" == Keep(Lower(x), WORD_CHAR);
  }

  // The entries of the table, by level.
  lemma EntriesWritten(title: string)
    ensures TocLine(2, title) == "- [" + title + "](#" + Anchor(title) + ")"
    ensures TocLine(3, title) == "  - [" + title + "](#" + Anchor(title) + ")"
  {
    IndentsWritten();
  }

  lemma IndentsWritten()
    ensures Indent(2) + "- [" == "- [" && Indent(3) + "- [" == "  - ["
  {
    assert Indent(2) == "" && Indent(3) == "  " + Indent(2);
  }

  lemma StripPlain(s: string)
    requires s != "" && All(s, WORD_CHAR) && s[0] != ' ' && s[|s| - 1] != ' '
    ensures Strip(s, SPACE) == s
  {
    assert WORD_CHAR(s[0]) && WORD_CHAR(s[|s| - 1]);
    assert !SPACE(s[0]) && !SPACE(s[|s| - 1]);
  }

  // Of a link only the text remains.
  lemma LinkDropped(text: string, url: string, rest: string)
    requires ']' !in text && ')' !in url
    ensures Unlinked("[" + text + "](" + url + ")" + rest) == text + Unlinked(rest)
  {
    var s := "[" + text + "](" + url + ")" + rest;
    var behind := "(" + url + ")" + rest;
    FirstOfChar("[" + text, ']', behind);
    assert s == "[" + text + "]" + behind;
    FirstOfChar("(" + url, ')', rest);
    assert s[|text| + 2..] == behind && s[1..|text| + 1] == text;
    assert behind[|url| + 2..] == rest;
  }

  lemma {:induction false} FirstOfChar(a: string, c: char, b: string)
    requires c !in a
    ensures Find(a + [c] + b, [c]) == Some(|a|)
  {
    var s := a + [c] + b;
    if a == "" {
      assert s[..1] == [c];
    } else {
      assert s[0] == a[0] && s[1..] == a[1..] + [c] + b;
      FirstOfChar(a[1..], c, b);
    }
  }

  lemma {:induction false} IndentBlank(level: nat)
    ensures All(Indent(level), BLANK)
  {
    if level <= 2 {
    } else {
      IndentBlank(level - 1);
    }
  }

  // Around the title a line of the table holds no line break and no angle bracket.
  function Before(level: nat): string {
    Indent(level) + "- ["
  }

  function Behind(title: string): string {
    "](#" + Anchor(title) + ")"
  }

  lemma TocLineParts(level: nat, title: string)
    ensures TocLine(level, title) == Before(level) + title + Behind(title)
    ensures All(Before(level), QUIET) && All(Behind(title), QUIET)
  {
    BeforeQuiet(level);
    BehindQuiet(title);
  }

  lemma BeforeQuiet(level: nat)
    ensures All(Before(level), QUIET)
  {
    IndentBlank(level);
    forall i | 0 <= i < |Before(level)| ensures QUIET(Before(level)[i]) {
      if i < |Indent(level)| {
        assert BLANK(Indent(level)[i]);
      }
    }
  }

  lemma BehindQuiet(title: string)
    ensures All(Behind(title), QUIET)
  {
    FrameQuiet();
    SlugQuiet(Anchor(title), title);
    QuietConcat("](#", Anchor(title));
    QuietConcat("](#" + Anchor(title), ")");
  }

  lemma FrameQuiet()
    ensures All("](#", QUIET) && All(")", QUIET)
  {
    assert !BREAK(']') && !BREAK('(') && !BREAK('#') && !BREAK(')');
  }

  lemma SlugQuiet(slug: string, title: string)
    requires slug == Anchor(title)
    ensures All(slug, QUIET)
  {
    AnchorSlug(title);
    forall i | 0 <= i < |slug| ensures QUIET(slug[i]) {
      assert SLUG_CHAR(slug[i]);
    }
  }

  lemma QuietConcat(a: string, b: string)
    requires All(a, QUIET) && All(b, QUIET)
    ensures All(a + b, QUIET)
  {
  }

  // A line that starts, behind blanks, with a character of no heading and no fence is neither.
  lemma DashIsPlain(indent: string, rest: string)
    requires All(indent, BLANK) && rest != "" && rest[0] == '-'
    ensures CLASSIFY(indent + rest) == Plain
  {
    forall i | 0 <= i < |indent| ensures SPACE(indent[i]) {
      assert BLANK(indent[i]);
    }
    StripLeftSkips(indent, rest, SPACE);
    assert !SPACE('-');
    assert StripLeft(indent + rest, SPACE)[0] == '-';
    if indent != "" {
      assert BLANK(indent[0]) && (indent + rest)[0] == ' ';
    } else {
      assert indent + rest == rest;
    }
  }

  lemma TocLinePlain(level: nat, title: string)
    ensures CLASSIFY(TocLine(level, title)) == Plain
  {
    IndentBlank(level);
    var rest := "- [" + title + "](#" + Anchor(title) + ")";
    assert TocLine(level, title) == Indent(level) + rest;
    DashIsPlain(Indent(level), rest);
  }

  lemma {:induction false} BuildPlain(heads: seq<(nat, string)>)
    ensures AllPlain(TocLines(heads), CLASSIFY)
  {
    if heads == [] {
    } else {
      TocLinePlain(heads[0].0, heads[0].1);
      BuildPlain(heads[1..]);
    }
  }

  // ---------------------------------------------------------------- occurrences of a marker

  // A pattern without line break occurs on one side of a line break.
  lemma OccursAcross(a: string, b: string, pat: string, i: nat)
    requires '\n' !in pat && pat != "" && Occurs(a + "\n" + b, pat, i)
    ensures Occurs(a, pat, i) || (i > |a| && Occurs(b, pat, i - |a| - 1))
  {
    var whole := a + "\n" + b;
    if i <= |a| < i + |pat| {
      OccursAt(whole, pat, i, |a| - i);
      assert false;
    } else if i > |a| {
      assert whole == (a + "\n") + b + "";
      OccursWithin(a + "\n", b, "", pat, i);
    } else {
      assert whole == "" + a + ("\n" + b);
      OccursWithin("", a, "\n" + b, pat, i);
    }
  }

  lemma {:induction false} OccursInJoined(lines: seq<string>, pat: string, i: nat)
    requires lines != [] && '\n' !in pat && pat != "" && Occurs(Join(lines, "\n"), pat, i)
    ensures exists l :: l in lines && Contains(l, pat)
  {
    if |lines| == 1 {
      assert Contains(lines[0], pat);
    } else {
      OccursAcross(lines[0], Join(lines[1..], "\n"), pat, i);
      if Occurs(lines[0], pat, i) {
        assert lines[0] in lines && Contains(lines[0], pat);
      } else {
        OccursInJoined(lines[1..], pat, i - |lines[0]| - 1);
        var l :| l in lines[1..] && Contains(l, pat);
        assert l in lines;
      }
    }
  }

  // A line of the table carries the end marker only inside its title.
  lemma MarkerInTitle(level: nat, title: string)
    requires Contains(TocLine(level, title), END)
    ensures Contains(title, END)
  {
    TocLineParts(level, title);
    MarkerInside(Before(level), title, Behind(title));
  }

  // The marker begins and ends with angles, so it lies between quiet surroundings.
  lemma MarkerInside(a: string, title: string, b: string)
    requires All(a, QUIET) && All(b, QUIET) && Contains(a + title + b, END)
    ensures Contains(title, END)
  {
    var line := a + title + b;
    var i: nat :| Occurs(line, END, i);
    OccursAt(line, END, i, 0);
    OccursAt(line, END, i, |END| - 1);
    NotBefore(a, title, b, i);
    NotBehind(a, title, b, i + |END| - 1);
    OccursWithin(a, title, b, END, i);
  }

  lemma NotBefore(a: string, title: string, b: string, i: nat)
    requires All(a, QUIET) && i < |a + title + b| && (a + title + b)[i] == '<'
    ensures i >= |a|
  {
    var line := a + title + b;
    forall k | 0 <= k < |a| ensures line[k] != '<' {
      assert QUIET(a[k]) && line[k] == a[k];
    }
  }

  lemma NotBehind(a: string, title: string, b: string, i: nat)
    requires All(b, QUIET) && i < |a + title + b| && (a + title + b)[i] == '>'
    ensures i < |a| + |title|
  {
    var line, n := a + title + b, |a| + |title|;
    forall k | n <= k < |line| ensures line[k] != '>' {
      assert QUIET(b[k - n]) && line[k] == b[k - n];
    }
  }

  // No heading of the list carries the end marker.
  ghost predicate MarkerFree(heads: seq<(nat, string)>) {
    forall h :: h in heads ==> !Contains(h.1, END)
  }

  lemma {:induction false} MarkerFreeLines(heads: seq<(nat, string)>)
    requires MarkerFree(heads)
    ensures forall l :: l in TocLines(heads) ==> !Contains(l, END)
  {
    if heads == [] {
    } else {
      assert heads[0] in heads;
      if Contains(TocLine(heads[0].0, heads[0].1), END) {
        MarkerInTitle(heads[0].0, heads[0].1);
      }
      MarkerFreeLines(heads[1..]);
    }
  }

  lemma MarkerFreeBuild(heads: seq<(nat, string)>)
    requires MarkerFree(heads)
    ensures !Contains(Join(BuildLines(heads), "\n"), END)
  {
    var lines := BuildLines(heads);
    assert '\n' !in END;
    forall l | l in lines ensures !Contains(l, END) {
      MarkerFreeLines(heads);
      assert l == "**Contents**" || l == "" || l in TocLines(heads);
      if l !in TocLines(heads) {
        assert |l| < |END|;
      }
    }
    if i: nat :| Occurs(Join(lines, "\n"), END, i) {
      OccursInJoined(lines, END, i);
    }
  }
}

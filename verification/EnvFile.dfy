// reference/preflight.py, load_env_file: the grammar of an --env-file, line by line.
module EnvFile {
  import opened PyStrings
  import opened Sequences

  // _ENV_BLANKS
  const BLANK: CharTest := c => c == ' ' || c == '\t' || c == '\r' || c == '\U{0B}' || c == '\U{0C}'

  // Tab, vertical tab, form feed, carriage return and space.
  lemma BlankCodes(c: char)
    ensures BLANK(c) <==> c as int in {9, 11, 12, 13, 32}
  {
  }

  const NEWLINE: CharTest := c => c == '\n'

  // A line without its line feeds and one carriage return before them.
  function Chomp(raw: string): string {
    var s := StripRight(raw, NEWLINE);
    if s != "" && s[|s| - 1] == '\r' then s[..|s| - 1] else s
  }

  const NAME_START: CharTest := c => 'A' <= c <= 'Z' || 'a' <= c <= 'z' || c == '_'
  const NAME_CHAR: CharTest := c => 'A' <= c <= 'Z' || 'a' <= c <= 'z' || '0' <= c <= '9' || c == '_'

  // ENV_KEY_RE
  predicate IsName(key: string) {
    key != "" && NAME_START(key[0]) && All(key, NAME_CHAR)
  }

  // The place of the first such character, or the length.
  function IndexOf(s: string, c: char): nat {
    if s == "" || s[0] == c then 0 else 1 + IndexOf(s[1..], c)
  }

  lemma {:induction false} IndexFits(s: string, c: char)
    ensures IndexOf(s, c) <= |s|
    ensures IndexOf(s, c) < |s| ==> s[IndexOf(s, c)] == c
  {
    if s == "" || s[0] == c {
    } else {
      IndexFits(s[1..], c);
    }
  }

  predicate Quoted(v: string) {
    |v| >= 2 && v[0] == v[|v| - 1] && (v[0] == '"' || v[0] == '\'')
  }

  function Unquoted(v: string): string {
    if Quoted(v) then v[1..|v| - 1] else v
  }

  // An optional `export` and the blanks behind it.
  function Unexported(line: string): string {
    if |line| > 6 && "export" <= line && BLANK(line[6]) then StripLeft(line[6..], BLANK) else line
  }

  datatype Why = NoEquals | BadName(key: string)

  datatype Line = Skip | Set(key: string, val: string) | Bad(why: Why)

  function ParseLine(raw: string): Line {
    var line := StripLeft(Chomp(raw), BLANK);
    if line == "" || line[0] == '#' then Skip else ParseAssignment(Unexported(line))
  }

  function ParseAssignment(line: string): Line {
    var at := IndexOf(line, '=');
    IndexFits(line, '=');
    if at == |line| then Bad(NoEquals)
    else
      var key := StripRight(line[..at], BLANK);
      var val := StripRight(StripLeft(line[at + 1..], BLANK), BLANK);
      if !IsName(key) then Bad(BadName(key)) else Set(key, Unquoted(val))
  }

  // The variables of the file, or the first line that is not one.
  datatype Parsed = Env(vars: map<string, string>) | Error(n: nat, why: Why)

  type LineParser = string -> Line

  // One more line, the n-th, unless the reading has stopped.
  function Step(before: Parsed, line: Line, n: nat): Parsed {
    if before.Error? then before
    else
      match line
      case Skip => before
      case Set(key, val) => Env(before.vars[key := val])
      case Bad(why) => Error(n, why)
  }

  function Fold(lines: seq<string>, parse: LineParser): Parsed {
    if lines == [] then Env(map[])
    else
      var last := |lines| - 1;
      Step(Fold(lines[..last], parse), parse(lines[last]), last + 1)
  }

  function Parse(lines: seq<string>): Parsed {
    Fold(lines, ParseLine)
  }

  method LoadEnvFile(lines: seq<string>) returns (r: Parsed)
    ensures r == Parse(lines)
  {
    var vars: map<string, string> := map[];
    for n := 0 to |lines|
      invariant Fold(lines[..n], ParseLine) == Env(vars)
    {
      assert lines[..n + 1][..n] == lines[..n];
      match ParseLine(lines[n]) {
        case Skip =>
        case Set(key, val) => vars := vars[key := val];
        case Bad(why) =>
          ErrorStays(lines, n + 1, ParseLine);
          return Error(n + 1, why);
      }
    }
    assert lines[..|lines|] == lines;
    r := Env(vars);
  }

  lemma {:induction false} ErrorStays(lines: seq<string>, n: nat, parse: LineParser)
    requires n <= |lines| && Fold(lines[..n], parse).Error?
    ensures Fold(lines, parse) == Fold(lines[..n], parse)
    decreases |lines|
  {
    if n < |lines| {
      assert lines[..|lines| - 1][..n] == lines[..n];
      ErrorStays(lines[..|lines| - 1], n, parse);
    } else {
      assert lines[..n] == lines;
    }
  }

  // The first bad line is the one reported, whatever comes behind it.
  lemma {:induction false} ErrorIsFirst(lines: seq<string>, parse: LineParser, n: nat, why: Why)
    ensures Fold(lines, parse) == Error(n, why)
      <==> && 1 <= n <= |lines| && parse(lines[n - 1]) == Bad(why)
           && forall i :: 0 <= i < n - 1 ==> !parse(lines[i]).Bad?
  {
    if lines == [] {
    } else {
      var last := |lines| - 1;
      ErrorIsFirst(lines[..last], parse, n, why);
      if Fold(lines[..last], parse).Error? {
        var e := Fold(lines[..last], parse);
        ErrorIsFirst(lines[..last], parse, e.n, e.why);
        assert lines[..last][e.n - 1] == lines[e.n - 1];
      } else {
        NoErrorNoBad(lines[..last], parse);
      }
    }
  }

  lemma {:induction false} NoErrorNoBad(lines: seq<string>, parse: LineParser)
    requires Fold(lines, parse).Env?
    ensures forall i :: 0 <= i < |lines| ==> !parse(lines[i]).Bad?
  {
    if lines == [] {
    } else {
      var last := |lines| - 1;
      NoErrorNoBad(lines[..last], parse);
      forall i | 0 <= i < |lines| ensures !parse(lines[i]).Bad? {
        if i < last {
          assert lines[..last][i] == lines[i];
        }
      }
    }
  }

  // Without a bad line, a variable has what the last line that sets it says.
  lemma {:induction false} LastLineWins(lines: seq<string>, parse: LineParser, key: string, val: string)
    requires Fold(lines, parse).Env?
    ensures (key in Fold(lines, parse).vars && Fold(lines, parse).vars[key] == val)
      <==> exists i :: 0 <= i < |lines| && parse(lines[i]) == Set(key, val)
             && forall j :: i < j < |lines| ==> !SetsKey(parse(lines[j]), key)
  {
    if lines == [] {
    } else {
      var last := |lines| - 1;
      LastLineWins(lines[..last], parse, key, val);
      if !SetsKey(parse(lines[last]), key) {
        forall i | 0 <= i < last ensures lines[..last][i] == lines[i] {
        }
      }
    }
  }

  predicate SetsKey(line: Line, key: string) {
    line.Set? && line.key == key
  }

  // Two files read one after the other: the second laid over the first, or the first error.
  function Laid(a: Parsed, b: Parsed, before: nat): Parsed {
    if a.Error? then a else if b.Error? then Error(before + b.n, b.why) else Env(a.vars + b.vars)
  }

  lemma LaidStep(a: Parsed, b: Parsed, line: Line, before: nat, n: nat)
    ensures Step(Laid(a, b, before), line, before + n) == Laid(a, Step(b, line, n), before)
  {
    if a.Env? && b.Env? && line.Set? {
      assert (a.vars + b.vars)[line.key := line.val] == a.vars + b.vars[line.key := line.val];
    }
  }

  lemma {:induction false} FoldConcat(a: seq<string>, b: seq<string>, parse: LineParser)
    ensures Fold(a + b, parse) == Laid(Fold(a, parse), Fold(b, parse), |a|)
    decreases |b|
  {
    if b == [] {
      assert a + b == a;
      assert Fold(a, parse).Env? ==> Fold(a, parse).vars + map[] == Fold(a, parse).vars;
    } else {
      var last := |b| - 1;
      assert (a + b)[..|a + b| - 1] == a + b[..last];
      FoldConcat(a, b[..last], parse);
      LaidStep(Fold(a, parse), Fold(b[..last], parse), parse(b[last]), |a|, last + 1);
    }
  }

  lemma ParseConcat(a: seq<string>, b: seq<string>)
    ensures Parse(a + b) == Laid(Parse(a), Parse(b), |a|)
  {
    FoldConcat(a, b, ParseLine);
  }

  // ---------------------------------------------------------------- writing a file

  // An assignment as a writer may lay it out, or a line without one. Blanks may stand on both sides
  // of the equals sign.
  datatype Entry =
    | Assign(lead: string, exported: Layout, key: string, before: string, behind: string, quotes: Quotes,
             val: string, trail: string)
    | Comment(lead: string, text: string)
    | Empty(lead: string)

  datatype Layout = NoExport | Export(gap: string)

  datatype Quotes = Bare | In(quote: char)

  predicate ValidEntry(e: Entry) {
    && All(e.lead, BLANK)
    && match e
       case Assign(_, exported, key, before, behind, quotes, val, trail) =>
         && (exported.Export? ==> exported.gap != "" && All(exported.gap, BLANK))
         && IsName(key) && All(before, BLANK) && All(behind, BLANK) && All(trail, BLANK)
         && if quotes.In? then quotes.quote == '"' || quotes.quote == '\''
            else PlainValue(val) || (val == "" && behind == "")
       case Comment(_, text) => true
       case Empty(_) => true
  }

  // A value that needs no quotes.
  predicate PlainValue(val: string) {
    val != "" && !BLANK(val[0]) && !BLANK(val[|val| - 1]) && val[|val| - 1] != '\n' && !Quoted(val)
  }

  function Enclosed(e: Entry): string
    requires e.Assign?
  {
    match e.quotes
    case In(quote) => [quote] + e.val + [quote]
    case Bare => e.val
  }

  function Assignment(e: Entry): string
    requires e.Assign?
  {
    e.key + e.before + "=" + (e.behind + Enclosed(e))
  }

  function Core(e: Entry): string {
    match e
    case Assign(_, exported, _, _, _, _, _, _) =>
      (match exported case NoExport => "" case Export(gap) => "export" + gap) + Assignment(e)
    case Comment(_, text) => "#" + text
    case Empty(_) => ""
  }

  function Written(e: Entry): string {
    e.lead + Core(e) + if e.Assign? then e.trail else ""
  }

  lemma {:induction false} IndexSkips(a: string, c: char, b: string)
    requires c !in a
    ensures IndexOf(a + [c] + b, c) == |a|
  {
    if a == "" {
    } else {
      assert (a + [c] + b)[1..] == a[1..] + [c] + b;
      IndexSkips(a[1..], c, b);
    }
  }

  lemma NameFacts(key: string)
    requires IsName(key)
    ensures '=' !in key && !BLANK(key[0]) && key[0] != '#' && !BLANK(key[|key| - 1])
    ensures NAME_CHAR(key[|key| - 1])
  {
    assert NAME_CHAR(key[|key| - 1]) && NAME_CHAR(key[0]);
    forall i | 0 <= i < |key| ensures key[i] != '=' {
      assert NAME_CHAR(key[i]);
    }
  }

  // An enclosed value, with whatever blanks around it.
  lemma ValueRead(e: Entry, trail: string)
    requires ValidEntry(e) && e.Assign? && All(trail, BLANK)
    ensures var v := Enclosed(e);
      StripRight(StripLeft(e.behind + (v + trail), BLANK), BLANK) == v && Unquoted(v) == e.val
      && (v != "" ==> !BLANK(v[|v| - 1]) && !EndsLine(v[|v| - 1]))
      && (v == "" ==> e.behind == "")
  {
    var v := Enclosed(e);
    if v == "" {
      assert e.behind + (v + trail) == trail + "";
      StripLeftSkips(trail, "", BLANK);
      return;
    }
    assert !BLANK('"') && !BLANK('\'') && BLANK('\r');
    StripLeftSkips(e.behind, v + trail, BLANK);
    assert (v + trail)[0] == v[0];
    StripRightSkips(v, trail, BLANK);
    if e.quotes.In? {
      assert v[1..|v| - 1] == e.val;
    }
  }

  lemma RightKept(s: string, gone: CharTest)
    requires s != "" && !gone(s[|s| - 1])
    ensures StripRight(s, gone) == s
  {
  }

  // Reading an assignment, with whatever blanks behind it.
  lemma AssignmentRead(e: Entry, trail: string)
    requires ValidEntry(e) && e.Assign? && All(trail, BLANK)
    ensures ParseAssignment(Assignment(e) + trail) == Set(e.key, e.val)
  {
    var name, value := e.key + e.before, e.behind + (Enclosed(e) + trail);
    var line := name + ['='] + value;
    assert Assignment(e) + trail == line;
    NameFacts(e.key);
    BlanksHaveNoEquals(e.before);
    IndexSkips(name, '=', value);
    assert line[..|name|] == name && line[|name| + 1..] == value;
    StripRightSkips(e.key, e.before, BLANK);
    RightKept(e.key, BLANK);
    ValueRead(e, trail);
  }

  lemma BlanksHaveNoEquals(blanks: string)
    requires All(blanks, BLANK)
    ensures '=' !in blanks
  {
    forall i | 0 <= i < |blanks| ensures blanks[i] != '=' {
      assert BLANK(blanks[i]);
    }
  }

  predicate EndsLine(c: char) {
    c == '\n' || c == '\r'
  }

  // Chomping takes the line end, and perhaps one carriage return before it.
  lemma ChompBody(body: string, lf: string)
    requires (lf == "" || lf == "\n") && (body != "" ==> body[|body| - 1] != '\n')
    ensures Chomp(body + lf) == if body != "" && body[|body| - 1] == '\r' then body[..|body| - 1] else body
  {
    StripRightSkips(body, lf, NEWLINE);
  }

  lemma ChompBlanks(core: string, blanks: string, lf: string) returns (rest: string)
    requires All(blanks, BLANK) && (lf == "" || lf == "\n") && (core != "" ==> !EndsLine(core[|core| - 1]))
    ensures All(rest, BLANK) && Chomp(core + blanks + lf) == core + rest
  {
    if blanks == "" {
      assert core + blanks == core;
      rest := blanks;
    } else {
      var last := blanks[|blanks| - 1];
      assert BLANK(last) && (core + blanks)[|core + blanks| - 1] == last;
      rest := if last == '\r' then blanks[..|blanks| - 1] else blanks;
      assert (core + blanks)[..|core + blanks| - 1] == core + blanks[..|blanks| - 1];
    }
    ChompBody(core + blanks, lf);
  }

  // What may stand behind the last character of a line: nothing does at the end of some files.
  predicate IsEol(eol: string) {
    eol in ["", "\n", "\r\n", "\r"]
  }

  // What is left of a written line once its end and its leading blanks are gone.
  lemma LineLeft(lead: string, core: string, trail: string, eol: string) returns (rest: string)
    requires All(lead, BLANK) && All(trail, BLANK) && IsEol(eol)
    requires core != "" && !BLANK(core[0]) && !EndsLine(core[|core| - 1])
    ensures All(rest, BLANK) && StripLeft(Chomp(lead + core + trail + eol), BLANK) == core + rest
  {
    var cr := if eol in ["\r\n", "\r"] then "\r" else "";
    var lf := if eol in ["\n", "\r\n"] then "\n" else "";
    assert eol == cr + lf;
    assert lead + core + trail + eol == (lead + core) + (trail + cr) + lf;
    rest := ChompBlanks(lead + core, trail + cr, lf);
    assert (lead + core) + rest == lead + (core + rest);
    StripLeftSkips(lead, core + rest, BLANK);
  }

  // What a written entry means.
  function Meaning(e: Entry): Line {
    if e.Assign? then Set(e.key, e.val) else Skip
  }

  // The one layout that is read as something else: a variable called export, with blanks before the
  // equals sign, passes for the word.
  predicate TakenForExport(e: Entry) {
    e.Assign? && e.exported.NoExport? && e.key == "export" && e.before != ""
  }

  lemma CoreEnds(e: Entry)
    requires ValidEntry(e) && e.Assign?
    ensures Core(e) != "" && !BLANK(Core(e)[0]) && Core(e)[0] != '#' && !EndsLine(Core(e)[|Core(e)| - 1])
  {
    AssignmentEnds(e);
    var a := Assignment(e);
    assert Core(e)[|Core(e)| - 1] == a[|a| - 1];
    assert Core(e)[0] == if e.exported.Export? then 'e' else a[0];
    assert !BLANK('e');
  }

  lemma AssignmentEnds(e: Entry)
    requires ValidEntry(e) && e.Assign?
    ensures var a := Assignment(e); a != "" && !BLANK(a[0]) && a[0] != '#' && !EndsLine(a[|a| - 1])
  {
    NameFacts(e.key);
    ValueRead(e, "");
    var a, v := Assignment(e), Enclosed(e);
    assert a[0] == e.key[0];
    assert a[|a| - 1] == if v == "" then '=' else v[|v| - 1];
  }

  // The word and the blanks behind it are cut off.
  lemma ExportCut(blanks: string, tail: string)
    requires blanks != "" && All(blanks, BLANK) && tail != "" && !BLANK(tail[0])
    ensures Unexported("export" + blanks + tail) == tail
  {
    var line := "export" + blanks + tail;
    assert BLANK(blanks[0]) && line[6] == blanks[0] && line[6..] == blanks + tail && "export" <= line;
    StripLeftSkips(blanks, tail, BLANK);
  }

  lemma ExportedCore(e: Entry, rest: string)
    requires ValidEntry(e) && e.Assign? && e.exported.Export?
    ensures Unexported(Core(e) + rest) == Assignment(e) + rest
  {
    NameFacts(e.key);
    assert Core(e) + rest == "export" + e.exported.gap + (Assignment(e) + rest);
    ExportCut(e.exported.gap, Assignment(e) + rest);
  }

  lemma BareCore(e: Entry, rest: string)
    requires ValidEntry(e) && e.Assign? && e.exported.NoExport? && !TakenForExport(e)
    ensures Unexported(Core(e) + rest) == Assignment(e) + rest
  {
    var tail := "=" + (e.behind + Enclosed(e)) + rest;
    assert Core(e) + rest == e.key + e.before + tail;
    NotExport(e.key, e.before, tail);
  }

  // A name is not taken for the word export: more of the name, the equals sign or other letters stand there.
  lemma NotExport(key: string, before: string, rest: string)
    requires IsName(key) && All(before, BLANK) && rest != "" && rest[0] == '=' && (key == "export" ==> before == "")
    ensures var line := key + before + rest; !(|line| > 6 && "export" <= line && BLANK(line[6]))
  {
    var line := key + before + rest;
    if |key| > 6 {
      assert NAME_CHAR(key[6]) && line[6] == key[6];
    } else if |key| == 6 {
      assert line[..6] == key;
    } else if before != "" {
      assert line[|key|] == before[0] && BLANK(before[0]);
      assert forall i :: 0 <= i < 6 ==> !BLANK("export"[i]);
    } else {
      assert line[|key|] == '=';
      assert forall i :: 0 <= i < 6 ==> "export"[i] != '=';
    }
  }

  // Then what is left begins with the equals sign, and its name is empty.
  lemma ExportMisread(e: Entry, rest: string)
    requires ValidEntry(e) && TakenForExport(e)
    ensures ParseAssignment(Unexported(Core(e) + rest)) == Bad(BadName(""))
  {
    var tail := "=" + (e.behind + Enclosed(e)) + rest;
    var value := e.behind + Enclosed(e);
    assert Core(e) == "export" + e.before + "=" + value;
    RegroupFour("export" + e.before, "=", value, rest);
    assert !BLANK('=') && tail[0] == '=';
    ExportCut(e.before, tail);
    EmptyName(tail);
  }

  lemma EmptyName(line: string)
    requires line != "" && line[0] == '='
    ensures ParseAssignment(line) == Bad(BadName(""))
  {
    assert line[..0] == "";
  }

  predicate Readable(e: Entry) {
    && ValidEntry(e)
    && (e.Comment? && e.text != "" ==> !EndsLine(e.text[|e.text| - 1]))
  }

  lemma AssignRead(e: Entry, eol: string)
    requires Readable(e) && e.Assign? && IsEol(eol)
    ensures ParseLine(Written(e) + eol) == Meaning(e) <==> !TakenForExport(e)
  {
    CoreEnds(e);
    var rest := LineLeft(e.lead, Core(e), e.trail, eol);
    if TakenForExport(e) {
      ExportMisread(e, rest);
    } else {
      if e.exported.Export? {
        ExportedCore(e, rest);
      } else {
        BareCore(e, rest);
      }
      AssignmentRead(e, rest);
    }
  }

  lemma CommentRead(lead: string, text: string, eol: string)
    requires All(lead, BLANK) && (text != "" ==> !EndsLine(text[|text| - 1])) && IsEol(eol)
    ensures ParseLine(lead + ("#" + text) + eol) == Skip
  {
    assert lead + ("#" + text) + "" + eol == lead + ("#" + text) + eol;
    assert !BLANK('#');
    var rest := LineLeft(lead, "#" + text, "", eol);
  }

  // With any line end, an entry is read as it was meant in every layout but that one.
  lemma EntryRead(e: Entry, eol: string)
    requires Readable(e) && IsEol(eol)
    ensures ParseLine(Written(e) + eol) == Meaning(e) <==> !TakenForExport(e)
  {
    match e
    case Assign(_, _, _, _, _, _, _, _) =>
      AssignRead(e, eol);
    case Comment(lead, text) =>
      assert Written(e) + eol == lead + ("#" + text) + eol;
      CommentRead(lead, text, eol);
    case Empty(lead) =>
      assert Written(e) + eol == lead + eol;
      EmptyRead(lead, eol);
  }

  lemma EmptyRead(lead: string, eol: string)
    requires All(lead, BLANK) && IsEol(eol)
    ensures ParseLine(lead + eol) == Skip
  {
    var cr := if eol in ["\r\n", "\r"] then "\r" else "";
    var lf := if eol in ["\n", "\r\n"] then "\n" else "";
    assert lead + eol == "" + (lead + cr) + lf;
    var rest := ChompBlanks("", lead + cr, lf);
    assert "" + rest == rest + "";
    StripLeftSkips(rest, "", BLANK);
  }

  // ---------------------------------------------------------------- which lines are refused

  // A line with something in it that is no comment and holds no equals sign is refused for that.
  lemma NoEqualsRefused(lead: string, body: string, eol: string)
    requires All(lead, BLANK) && IsEol(eol) && '=' !in body
    requires body != "" && !BLANK(body[0]) && body[0] != '#' && !EndsLine(body[|body| - 1])
    ensures ParseLine(lead + body + eol) == Bad(NoEquals)
  {
    assert lead + body + "" == lead + body;
    var rest := LineLeft(lead, body, "", eol);
    var line := Unexported(body + rest);
    BlanksHaveNoEquals(rest);
    var n := StripLeftPart((body + rest)[if |body + rest| > 6 then 6 else 0..], BLANK);
    IndexNone(line, '=');
  }

  lemma {:induction false} IndexNone(s: string, c: char)
    ensures IndexOf(s, c) == |s| <==> c !in s
  {
    if s == "" || s[0] == c {
    } else {
      IndexNone(s[1..], c);
    }
  }

  // What stands in front of the equals sign is a name if and only if it begins with a letter or an
  // underscore and holds letters, digits and underscores only; any other is refused, the empty one too.
  lemma NameDecides(lead: string, key: string, before: string, val: string, eol: string)
    requires All(lead, BLANK) && All(before, BLANK) && IsEol(eol) && '=' !in key
    requires if key == "" then before == "" else !BLANK(key[0]) && key[0] != '#' && !BLANK(key[|key| - 1])
    requires var name := key + before; !(|name| > 6 && "export" <= name && BLANK(name[6]))
    requires val != "" ==> !EndsLine(val[|val| - 1])
    ensures var line := ParseLine(lead + (key + before + "=" + val) + eol);
      if key != "" && !('0' <= key[0] <= '9')
         && forall i :: 0 <= i < |key| ==>
              'A' <= key[i] <= 'Z' || 'a' <= key[i] <= 'z' || '0' <= key[i] <= '9' || key[i] == '_'
      then line.Set? && line.key == key
      else line == Bad(BadName(key))
  {
    var core := key + before + "=" + val;
    assert core[0] == (if key == "" then '=' else key[0]) && !BLANK('=');
    assert core[|core| - 1] == if val == "" then '=' else val[|val| - 1];
    assert lead + core + "" == lead + core;
    var rest := LineLeft(lead, core, "", eol);
    Regroup(key + before + "=", val, rest);
    NotExported(key + before, val + rest);
    NameCut(key, before, val + rest);
  }

  // The word is not cut off what begins otherwise.
  lemma NotExported(name: string, value: string)
    requires !(|name| > 6 && "export" <= name && BLANK(name[6]))
    ensures Unexported(name + "=" + value) == name + "=" + value
  {
    var line := name + "=" + value;
    if |name| > 6 {
      assert line[..6] == name[..6] && line[6] == name[6];
    } else if |name| == 6 {
      assert line[6] == '=' && !BLANK('=');
    } else {
      assert line[|name|] == '=';
      assert forall i :: 0 <= i < 6 ==> "export"[i] != '=';
    }
  }

  lemma NameCut(key: string, before: string, value: string)
    requires All(before, BLANK) && '=' !in key && (key == "" ==> before == "")
    requires key != "" ==> !BLANK(key[|key| - 1])
    ensures var line := ParseAssignment(key + before + "=" + value);
      if IsName(key) then line.Set? && line.key == key else line == Bad(BadName(key))
  {
    var name := key + before;
    BlanksHaveNoEquals(before);
    IndexSkips(name, '=', value);
    assert (name + ['='] + value)[..|name|] == name;
    StripRightSkips(key, before, BLANK);
    if key != "" {
      RightKept(key, BLANK);
    }
  }

  // Only a pair of one kind of quotes is taken off a value.
  lemma QuotesTaken(v: string)
    ensures Unquoted("\"" + v + "\"") == v && Unquoted("'" + v + "'") == v
    ensures |v| < 2 || v[0] != v[|v| - 1] || v[0] !in {'"', '\''} ==> Unquoted(v) == v
  {
    assert ("\"" + v + "\"")[1..|v| + 1] == v && ("'" + v + "'")[1..|v| + 1] == v;
  }

  // The values a file of entries is meant to set, later entries winning.
  function Meant(es: seq<Entry>): map<string, string> {
    if es == [] then map[]
    else
      var e := es[|es| - 1];
      if e.Assign? then Meant(es[..|es| - 1])[e.key := e.val] else Meant(es[..|es| - 1])
  }

  type Writer = Entry -> string

  const WRITE: Writer := (e: Entry) => Written(e)

  function BodiesBy(es: seq<Entry>, write: Writer): seq<string> {
    seq(|es|, i requires 0 <= i < |es| => write(es[i]))
  }

  function Bodies(es: seq<Entry>): seq<string> {
    BodiesBy(es, WRITE)
  }

  // Each line with an end of its own.
  function WithEols(bodies: seq<string>, eols: seq<string>): seq<string>
    requires |eols| == |bodies|
  {
    seq(|bodies|, i requires 0 <= i < |bodies| => bodies[i] + eols[i])
  }

  function Lines(es: seq<Entry>, eols: seq<string>): seq<string>
    requires |eols| == |es|
  {
    WithEols(Bodies(es), eols)
  }

  predicate AllReadable(es: seq<Entry>, eols: seq<string>) {
    && |eols| == |es|
    && (forall e :: e in es ==> Readable(e) && !TakenForExport(e))
    && (forall eol :: eol in eols ==> IsEol(eol))
  }

  // Writing any entries and reading them back gives exactly what they were meant to set.
  lemma {:induction false} FileRead(es: seq<Entry>, eols: seq<string>)
    requires AllReadable(es, eols)
    ensures Parse(Lines(es, eols)) == Env(Meant(es))
  {
    forall i | 0 <= i < |es| ensures ParseLine(Lines(es, eols)[i]) == Meaning(es[i]) {
      assert es[i] in es && eols[i] in eols;
      EntryRead(es[i], eols[i]);
    }
    FoldMeant(es, Lines(es, eols), ParseLine);
  }

  lemma {:induction false} FoldMeant(es: seq<Entry>, lines: seq<string>, parse: LineParser)
    requires |lines| == |es| && forall i :: 0 <= i < |es| ==> parse(lines[i]) == Meaning(es[i])
    ensures Fold(lines, parse) == Env(Meant(es))
    decreases |es|
  {
    if es == [] {
    } else {
      var last := |es| - 1;
      FoldMeant(es[..last], lines[..last], parse);
    }
  }

  // ---------------------------------------------------------------- the text of a file

  // Where the first line of the text ends; a file opened with newline="" breaks at LF, CR and CR LF.
  function FirstLine(text: string): nat {
    if text == "" then 0
    else if text[0] == '\n' then 1
    else if text[0] == '\r' then if |text| > 1 && text[1] == '\n' then 2 else 1
    else 1 + FirstLine(text[1..])
  }

  lemma {:induction false} FirstLineFits(text: string)
    ensures FirstLine(text) <= |text| && (text != "" ==> FirstLine(text) >= 1)
  {
    if text == "" {
    } else {
      FirstLineFits(text[1..]);
    }
  }

  function RawLines(text: string): seq<string>
    decreases |text|
  {
    if text == "" then [] else (FirstLineFits(text); [text[..FirstLine(text)]] + RawLines(text[FirstLine(text)..]))
  }

  function Text(lines: seq<string>): string {
    if lines == [] then "" else lines[0] + Text(lines[1..])
  }

  // A text that is one line.
  predicate OneLine(line: string) {
    line != "" && FirstLine(line) == |line|
  }

  predicate Ended(line: string) {
    line != "" && EndsLine(line[|line| - 1])
  }

  // A carriage return and a line feed of the next line make one line end.
  predicate RunsOn(line: string, next: string) {
    line != "" && line[|line| - 1] == '\r' && next != "" && next[0] == '\n'
  }

  // What a list of lines needs to be the lines of a text: only the last may lack its end.
  predicate Lined(lines: seq<string>) {
    && (forall i :: 0 <= i < |lines| ==> OneLine(lines[i]))
    && (forall i :: 0 <= i < |lines| - 1 ==> Ended(lines[i]) && !RunsOn(lines[i], lines[i + 1]))
  }

  // How far the first line reaches is decided by its own characters and the one behind them.
  lemma {:induction false} FirstLineBehind(line: string, rest: string)
    requires OneLine(line) && rest != ""
    ensures FirstLine(line + rest) == |line| <==> Ended(line) && !RunsOn(line, rest)
  {
    var text := line + rest;
    assert text[0] == line[0] && text[1..] == line[1..] + rest;
    if EndsLine(line[0]) {
      assert |text| > |line|;
    } else if |line| == 1 {
      assert text[1..] == rest;
      FirstLineFits(rest);
    } else {
      FirstLineBehind(line[1..], rest);
    }
  }

  // The first line of a text stands on its own.
  lemma {:induction false} FirstLineAlone(text: string)
    requires text != ""
    ensures FirstLine(text) <= |text| && OneLine(text[..FirstLine(text)])
  {
    FirstLineFits(text);
    var n := FirstLine(text);
    if EndsLine(text[0]) || |text| == 1 {
    } else {
      FirstLineAlone(text[1..]);
      assert text[..n][1..] == text[1..][..n - 1];
    }
  }

  lemma TextStep(line: string, lines: seq<string>)
    ensures Text([line] + lines) == line + Text(lines)
  {
    assert ([line] + lines)[1..] == lines;
  }

  // Splitting a text loses nothing.
  lemma {:induction false} SplitKeeps(text: string)
    ensures Text(RawLines(text)) == text
    decreases |text|
  {
    if text == "" {
    } else {
      FirstLineFits(text);
      var n := FirstLine(text);
      SplitKeeps(text[n..]);
      TextStep(text[..n], RawLines(text[n..]));
      assert text == text[..n] + text[n..];
    }
  }

  // Text that begins with such a line is split behind it if the line is ended and does not run on.
  lemma SplitFirst(line: string, lines: seq<string>)
    requires OneLine(line) && (lines != [] ==> lines[0] != "")
    requires lines != [] ==> Ended(line) && !RunsOn(line, lines[0])
    ensures RawLines(line + Text(lines)) == [line] + RawLines(Text(lines))
  {
    var rest := Text(lines);
    if lines == [] {
      assert line + rest == line;
    } else {
      assert rest[0] == lines[0][0];
      FirstLineBehind(line, rest);
    }
    assert (line + rest)[..|line|] == line && (line + rest)[|line|..] == rest;
  }

  lemma {:induction false} LinedIsSplit(lines: seq<string>)
    requires Lined(lines)
    ensures RawLines(Text(lines)) == lines
  {
    if lines == [] {
    } else {
      assert forall i :: 0 <= i < |lines| - 1 ==> lines[1..][i] == lines[i + 1];
      LinedIsSplit(lines[1..]);
      SplitFirst(lines[0], lines[1..]);
      assert lines == [lines[0]] + lines[1..];
    }
  }

  lemma {:induction false} SplitIsLined(text: string)
    ensures Lined(RawLines(text)) && (text != "" ==> RawLines(text) != [] && RawLines(text)[0][..1] == text[..1])
    decreases |text|
  {
    if text == "" {
    } else {
      FirstLineFits(text);
      FirstLineAlone(text);
      var n := FirstLine(text);
      var line, rest := text[..n], text[n..];
      SplitIsLined(rest);
      assert text == line + rest && line[..1] == text[..1];
      if rest != "" {
        FirstLineBehind(line, rest);
        assert RawLines(rest)[0][0] == RawLines(rest)[0][..1][0] == rest[..1][0] == rest[0];
      }
    }
  }

  // Any lines written one behind the other are split into these lines if and only if they are lined.
  lemma TextSplit(lines: seq<string>)
    ensures RawLines(Text(lines)) == lines <==> Lined(lines)
  {
    if Lined(lines) {
      LinedIsSplit(lines);
    }
    SplitIsLined(Text(lines));
  }

  predicate Unbroken(s: string) {
    '\n' !in s && '\r' !in s
  }

  // A line of its own: nothing breaks it inside, and it is not nothing.
  lemma {:induction false} WrittenLine(body: string, eol: string)
    requires Unbroken(body) && IsEol(eol) && body + eol != ""
    ensures OneLine(body + eol) && (Ended(body + eol) <==> eol != "")
  {
    var line := body + eol;
    if body == "" {
      assert line == eol;
    } else {
      assert line[0] == body[0] && line[0] in body && line[1..] == body[1..] + eol;
      assert eol == "" ==> line == body && line[|line| - 1] in body;
      if line[1..] != "" {
        WrittenLine(body[1..], eol);
        assert line[|line| - 1] == line[1..][|line| - 2];
      }
    }
  }

  // Every line but the last needs an end, and a last line without one needs at least a character.
  predicate EolsFit(bodies: seq<string>, eols: seq<string>) {
    && |eols| == |bodies|
    && (forall i :: 0 <= i < |bodies| ==> IsEol(eols[i]))
    && (forall i :: 0 <= i < |bodies| && eols[i] == "" ==> i == |bodies| - 1 && bodies[i] != "")
  }

  // A lone carriage return, and behind it a line of nothing but a line feed.
  predicate RunTogether(bodies: seq<string>, eols: seq<string>, i: nat)
    requires |eols| == |bodies|
  {
    i + 1 < |bodies| && eols[i] == "\r" && bodies[i + 1] == "" && eols[i + 1] == "\n"
  }

  lemma RunsOnIff(body: string, eol: string, next: string, nextEol: string)
    requires Unbroken(body) && IsEol(eol) && Unbroken(next) && IsEol(nextEol)
    ensures RunsOn(body + eol, next + nextEol) <==> eol == "\r" && next == "" && nextEol == "\n"
  {
    if body + eol != "" && next + nextEol != "" {
      WrittenLine(body, eol);
      if eol != "" {
        assert (body + eol)[|body + eol| - 1] == eol[|eol| - 1];
      }
      assert next != "" ==> (next + nextEol)[0] == next[0] && next[0] in next;
      assert next == "" ==> next + nextEol == nextEol;
    }
  }

  lemma BodiesStand(bodies: seq<string>, eols: seq<string>)
    requires (forall b :: b in bodies ==> Unbroken(b)) && EolsFit(bodies, eols)
    ensures var lines := WithEols(bodies, eols);
      forall i :: 0 <= i < |lines| ==> OneLine(lines[i]) && (i < |lines| - 1 ==> Ended(lines[i]))
  {
    forall i | 0 <= i < |bodies|
      ensures OneLine(bodies[i] + eols[i]) && (i < |bodies| - 1 ==> Ended(bodies[i] + eols[i]))
    {
      assert bodies[i] in bodies;
      WrittenLine(bodies[i], eols[i]);
    }
  }

  lemma BodiesRunOn(bodies: seq<string>, eols: seq<string>, i: nat)
    requires (forall b :: b in bodies ==> Unbroken(b)) && EolsFit(bodies, eols) && i + 1 < |bodies|
    ensures RunsOn(WithEols(bodies, eols)[i], WithEols(bodies, eols)[i + 1]) <==> RunTogether(bodies, eols, i)
  {
    assert bodies[i] in bodies && bodies[i + 1] in bodies;
    RunsOnIff(bodies[i], eols[i], bodies[i + 1], eols[i + 1]);
  }

  // Lines without breaks inside, written in any mixture of line ends, are split into exactly these
  // lines if and only if no lone carriage return meets a bare line feed.
  lemma BodiesSplit(bodies: seq<string>, eols: seq<string>)
    requires (forall b :: b in bodies ==> Unbroken(b)) && EolsFit(bodies, eols)
    ensures RawLines(Text(WithEols(bodies, eols))) == WithEols(bodies, eols)
      <==> forall i :: 0 <= i < |bodies| ==> !RunTogether(bodies, eols, i)
  {
    var lines := WithEols(bodies, eols);
    TextSplit(lines);
    if i :| 0 <= i < |bodies| && RunTogether(bodies, eols, i) {
      BodiesRunOn(bodies, eols, i);
    } else {
      BodiesStand(bodies, eols);
      forall i | 0 <= i < |lines| - 1 ensures !RunsOn(lines[i], lines[i + 1]) {
        BodiesRunOn(bodies, eols, i);
      }
    }
  }

  lemma {:induction false} TextConcat(a: seq<string>, b: seq<string>)
    ensures Text(a + b) == Text(a) + Text(b)
  {
    if a == [] {
      assert a + b == b;
    } else {
      TextConcat(a[1..], b);
      assert a + b == [a[0]] + (a[1..] + b);
      TextStep(a[0], a[1..] + b);
      Regroup(a[0], Text(a[1..]), Text(b));
    }
  }

  lemma TextWithin(before: seq<string>, a: seq<string>, b: seq<string>, after: seq<string>)
    requires Text(a) == Text(b)
    ensures Text(before + a + after) == Text(before + b + after)
  {
    TextConcat(before + a, after);
    TextConcat(before, a);
    TextConcat(before + b, after);
    TextConcat(before, b);
  }

  lemma EolsConcat(a: seq<string>, x: seq<string>, b: seq<string>, y: seq<string>)
    requires |a| == |x| && |b| == |y|
    ensures WithEols(a + b, x + y) == WithEols(a, x) + WithEols(b, y)
  {
  }

  lemma EolsBetween(a: seq<string>, x: seq<string>, b: seq<string>, y: seq<string>, c: seq<string>, z: seq<string>)
    requires |a| == |x| && |b| == |y| && |c| == |z|
    ensures WithEols(a + b + c, x + y + z) == WithEols(a, x) + WithEols(b, y) + WithEols(c, z)
  {
    EolsConcat(a + b, x + y, c, z);
    EolsConcat(a, x, b, y);
  }

  // Two lines that run together are one line of the same text.
  lemma JoinPair(a: seq<string>, x: seq<string>, body: string, c: seq<string>, z: seq<string>)
    requires |a| == |x| && |c| == |z|
    ensures Text(WithEols(a + [body, ""] + c, x + ["\r", "\n"] + z))
         == Text(WithEols(a + [body] + c, x + ["\r\n"] + z))
  {
    var two, one := WithEols([body, ""], ["\r", "\n"]), WithEols([body], ["\r\n"]);
    EolsBetween(a, x, [body, ""], ["\r", "\n"], c, z);
    EolsBetween(a, x, [body], ["\r\n"], c, z);
    assert two == [body + "\r", "" + "\n"] && one == [body + "\r\n"];
    TextOfPair(body);
    TextWithin(WithEols(a, x), two, one, WithEols(c, z));
  }

  lemma FitStays(a: seq<string>, x: seq<string>, body: string, c: seq<string>, z: seq<string>)
    requires |a| == |x| && |c| == |z| && EolsFit(a + [body, ""] + c, x + ["\r", "\n"] + z)
    ensures EolsFit(a + [body] + c, x + ["\r\n"] + z)
  {
    var bodies, eols := a + [body, ""] + c, x + ["\r", "\n"] + z;
    var fewer, ends := a + [body] + c, x + ["\r\n"] + z;
    forall i | 0 <= i < |fewer| ensures IsEol(ends[i]) && (ends[i] == "" ==> i == |fewer| - 1 && fewer[i] != "") {
      var j := if i > |a| then i + 1 else i;
      assert IsEol(eols[j]) && (i != |a| ==> ends[i] == eols[j] && fewer[i] == bodies[j]);
    }
  }

  lemma TextOfPair(body: string)
    ensures Text([body + "\r\n"]) == Text([body + "\r", "" + "\n"])
  {
    var cr, lf := body + "\r", "" + "\n";
    TextStep(cr, [lf]);
    assert [cr] + [lf] == [cr, lf] && Text([lf]) == lf;
    assert cr + lf == body + "\r\n";
  }

  // An entry without text means nothing.
  lemma {:induction false} MeantWithout(es: seq<Entry>, i: nat)
    requires i < |es| && !es[i].Assign?
    ensures Meant(es[..i] + es[i + 1..]) == Meant(es)
    decreases |es|
  {
    var last := |es| - 1;
    if i == last {
      assert es[..i] + es[i + 1..] == es[..last];
    } else {
      var fewer := es[..i] + es[i + 1..];
      assert es[..last][..i] + es[..last][i + 1..] == fewer[..last - 1];
      MeantWithout(es[..last], i);
    }
  }

  lemma AssignNotEmpty(e: Entry)
    requires ValidEntry(e) && e.Assign?
    ensures Written(e) != ""
  {
    CoreEnds(e);
  }

  predicate Writable(es: seq<Entry>, eols: seq<string>) {
    && AllReadable(es, eols)
    && EolsFit(Bodies(es), eols)
    && forall e :: e in es ==> Unbroken(Written(e))
  }

  lemma StillWritable(es: seq<Entry>, eols: seq<string>, i: nat, ends: seq<string>)
    requires Writable(es, eols) && i < |es| && EolsFit(Bodies(es[..i] + es[i + 1..]), ends)
    ensures Writable(es[..i] + es[i + 1..], ends)
  {
    var fewer := es[..i] + es[i + 1..];
    assert forall e :: e in fewer ==> e in es;
    forall eol | eol in ends ensures IsEol(eol) {
      var j :| 0 <= j < |ends| && ends[j] == eol;
    }
  }

  lemma DropBody(es: seq<Entry>, i: nat, write: Writer)
    requires i + 1 < |es|
    ensures BodiesBy(es[..i + 1] + es[i + 2..], write) == BodiesBy(es, write)[..i + 1] + BodiesBy(es, write)[i + 2..]
  {
  }

  lemma CutPair<T>(s: seq<T>, i: nat)
    requires i + 1 < |s|
    ensures s == s[..i] + [s[i], s[i + 1]] + s[i + 2..]
    ensures s[..i + 1] + s[i + 2..] == s[..i] + [s[i]] + s[i + 2..]
  {
  }

  lemma PairJoined(bodies: seq<string>, eols: seq<string>, i: nat) returns (fewer: seq<string>, ends: seq<string>)
    requires EolsFit(bodies, eols) && RunTogether(bodies, eols, i)
    ensures fewer == bodies[..i + 1] + bodies[i + 2..] && ends == eols[..i] + ["\r\n"] + eols[i + 2..]
    ensures EolsFit(fewer, ends) && Text(WithEols(fewer, ends)) == Text(WithEols(bodies, eols))
  {
    CutPair(bodies, i);
    CutPair(eols, i);
    FitStays(bodies[..i], eols[..i], bodies[i], bodies[i + 2..], eols[i + 2..]);
    JoinPair(bodies[..i], eols[..i], bodies[i], bodies[i + 2..], eols[i + 2..]);
    fewer, ends := bodies[..i] + [bodies[i]] + bodies[i + 2..], eols[..i] + ["\r\n"] + eols[i + 2..];
  }

  lemma EmptyDropped(es: seq<Entry>, eols: seq<string>, i: nat)
    requires Writable(es, eols) && i < |es| && Bodies(es)[i] == ""
    ensures Meant(es[..i] + es[i + 1..]) == Meant(es)
  {
    assert es[i] in es;
    if es[i].Assign? {
      AssignNotEmpty(es[i]);
    }
    MeantWithout(es, i);
  }

  // The same file without an entry that runs together with the one before it.
  lemma DropRun(es: seq<Entry>, eols: seq<string>, i: nat) returns (fewer: seq<Entry>, ends: seq<string>)
    requires Writable(es, eols) && RunTogether(Bodies(es), eols, i)
    ensures |fewer| < |es| && Writable(fewer, ends) && Meant(fewer) == Meant(es)
    ensures Text(Lines(fewer, ends)) == Text(Lines(es, eols))
  {
    var bodies;
    bodies, ends := PairJoined(Bodies(es), eols, i);
    fewer := es[..i + 1] + es[i + 2..];
    DropBody(es, i, WRITE);
    EmptyDropped(es, eols, i + 1);
    StillWritable(es, eols, i + 1, ends);
  }

  // The text of any entries, written in any mixture of line ends, is read back as what they were
  // meant to set, lines that run together included.
  lemma {:induction false} TextRead(es: seq<Entry>, eols: seq<string>)
    requires Writable(es, eols)
    ensures Parse(RawLines(Text(Lines(es, eols)))) == Env(Meant(es))
    decreases |es|
  {
    if i :| 0 <= i < |es| && RunTogether(Bodies(es), eols, i) {
      var fewer, ends := DropRun(es, eols, i);
      TextRead(fewer, ends);
    } else {
      BodiesSplit(Bodies(es), eols);
      FileRead(es, eols);
    }
  }
}

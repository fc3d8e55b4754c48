// src/autobench/mlflow_report.py, parse_traces and span_rows: two passes over the same spans, and
// reference/gen-12run-report.py, the test for lost spans made from either.
module TracePasses {
  import opened Wrappers
  import opened TraceSpans
  import SpanDepth

  datatype Record = Record(
    task: Option<string>,
    status: string,
    llmCount: nat,
    toolCount: nat,
    llmMs: real,
    toolMs: real,
    inputTokens: int,
    outputTokens: int)

  datatype Row = Row(
    task: Scalar,
    kind: Kind,
    depth: nat,
    latencyMs: real,
    counted: Option<bool>,
    inputTokens: Scalar,
    outputTokens: Scalar)

  function First(spans: seq<Span>): Option<Span> {
    if spans == [] then None else Some(spans[0])
  }

  function Last(spans: seq<Span>): Option<Span> {
    if spans == [] then None else Some(spans[|spans| - 1])
  }

  function IdOf(s: Option<Span>): Option<string> {
    if s.None? then None else Some(s.value.spanId)
  }

  // ---------------------------------------------------------------- parse_traces, one trace

  // The usage figures of one chat span, or the exception reading them raises.
  function Usage(s: Span, parseInt: IntParser): Outcome<(int, int)> {
    var genAi := Section(s.attributes, "gen_ai");
    if genAi.Raised? then Raised
    else
      var usage := Section(genAi.value, "usage");
      if usage.Raised? then Raised
      else
        var i := TokensParsed(usage.value, "input_tokens", parseInt);
        var o := TokensParsed(usage.value, "output_tokens", parseInt);
        if i.Raised? || o.Raised? then Raised else Returned((i.value, o.value))
  }

  type UsageReader = Span -> Outcome<(int, int)>

  function Reads(parseInt: IntParser): UsageReader {
    (s: Span) => Usage(s, parseInt)
  }

  function UsageSum(chats: seq<Span>, read: UsageReader): Outcome<(int, int)> {
    if chats == [] then Returned((0, 0))
    else
      var n := |chats| - 1;
      var before, u := UsageSum(chats[..n], read), read(chats[n]);
      if before.Raised? || u.Raised? then Raised
      else Returned((before.value.0 + u.value.0, before.value.1 + u.value.1))
  }

  function SumMs(spans: seq<Span>): real {
    if spans == [] then 0.0 else SumMs(spans[..|spans| - 1]) + spans[|spans| - 1].latencyMs
  }

  function LastInvoke(spans: seq<Span>): Option<string> {
    IdOf(Last(Pick(spans, INVOKE_TEST)))
  }

  // The task of a record, or the exception reading the root's metadata raises.
  function TaskField(root: Span): Outcome<Option<string>> {
    var meta := Section(root.attributes, "metadata");
    if meta.Raised? then Raised else RecordTask(meta.value)
  }

  // A record from its parts, or the exception of one of them.
  function Made(task: Outcome<Option<string>>, status: string, chats: seq<Span>, read: UsageReader, tools: seq<Span>)
    : Outcome<Option<Record>>
  {
    var usage := UsageSum(chats, read);
    if task.Raised? || usage.Raised? then Raised
    else Returned(Some(Record(task.value, status, |chats|, |tools|, SumMs(chats), SumMs(tools),
                              usage.value.0, usage.value.1)))
  }

  function RecordOf(spans: seq<Span>, parseInt: IntParser): Outcome<Option<Record>> {
    var root := Last(Pick(spans, ROOT_TEST));
    if root.None? then Returned(None)
    else
      var id := LastInvoke(spans);
      Made(TaskField(root.value), root.value.statusCode,
           Pick(spans, ChatTest(id)), Reads(parseInt), Pick(spans, ToolTest(id)))
  }

  method ParseTrace(spans: seq<Span>, parseInt: IntParser) returns (r: Outcome<Option<Record>>)
    ensures r == RecordOf(spans, parseInt)
  {
    if spans == [] {
      return Returned(None);
    }
    var root, children := SplitRoot(spans);
    if root.None? {
      return Returned(None);
    }
    var task := TaskField(root.value);
    if task.Raised? {
      return Raised;
    }
    var invokeSpanId := FindInvoke(children);
    var chats, tool, toolMs := ScanChildren(children, invokeSpanId);
    var usage := SumChats(chats, Reads(parseInt));
    RootsAside(spans, invokeSpanId);
    if usage.Raised? {
      return Raised;
    }
    var (llm, llmMs, tokensIn, tokensOut) := usage.value;
    r := Returned(Some(Record(task.value, root.value.statusCode, llm, tool, llmMs, toolMs, tokensIn, tokensOut)));
  }

  method SplitRoot(spans: seq<Span>) returns (root: Option<Span>, children: seq<Span>)
    ensures root == Last(Pick(spans, ROOT_TEST)) && children == Pick(spans, CHILD_TEST)
  {
    root, children := None, [];
    for n := 0 to |spans|
      invariant root == Last(Pick(spans[..n], ROOT_TEST)) && children == Pick(spans[..n], CHILD_TEST)
    {
      assert spans[..n + 1][..n] == spans[..n];
      if IsRoot(spans[n]) {
        root := Some(spans[n]);
      } else {
        children := children + [spans[n]];
      }
    }
    assert spans[..|spans|] == spans;
  }

  method FindInvoke(children: seq<Span>) returns (invokeSpanId: Option<string>)
    ensures invokeSpanId == LastInvoke(children)
  {
    invokeSpanId := None;
    for n := 0 to |children|
      invariant invokeSpanId == LastInvoke(children[..n])
    {
      assert children[..n + 1][..n] == children[..n];
      KindsExclusive(children[n]);
      if children[n].name in PHASE_SPANS {
      } else if IsInvoke(children[n]) {
        invokeSpanId := Some(children[n].spanId);
      }
    }
    assert children[..|children|] == children;
  }

  lemma PickNext(spans: seq<Span>, n: nat, test: SpanTest)
    requires n < |spans|
    ensures Pick(spans[..n + 1], test) == Pick(spans[..n], test) + if test(spans[n]) then [spans[n]] else []
  {
    assert spans[..n + 1][..n] == spans[..n];
  }

  method ScanChildren(children: seq<Span>, invokeSpanId: Option<string>)
    returns (chats: seq<Span>, tool: nat, toolMs: real)
    ensures chats == Pick(children, ChatTest(invokeSpanId))
    ensures var tools := Pick(children, ToolTest(invokeSpanId)); tool == |tools| && toolMs == SumMs(tools)
  {
    chats, tool, toolMs := [], 0, 0.0;
    ghost var tools: seq<Span> := [];
    for n := 0 to |children|
      invariant chats == Pick(children[..n], ChatTest(invokeSpanId))
      invariant tools == Pick(children[..n], ToolTest(invokeSpanId))
      invariant tool == |tools| && toolMs == SumMs(tools)
    {
      var s := children[n];
      PickNext(children, n, ChatTest(invokeSpanId));
      PickNext(children, n, ToolTest(invokeSpanId));
      KindsExclusive(s);
      if s.parentId != invokeSpanId {
        continue;
      }
      if IsChat(s.name) {
        chats := chats + [s];
      } else if s.name == INITIAL_OBS_SPAN {
      } else if IsTool(s.name) {
        toolMs := toolMs + s.latencyMs;
        tool := tool + 1;
        assert (tools + [s])[..|tools|] == tools;
        tools := tools + [s];
      }
    }
    assert children[..|children|] == children;
  }

  lemma UsageNext(chats: seq<Span>, n: nat, read: UsageReader)
    requires n < |chats|
    ensures SumMs(chats[..n + 1]) == SumMs(chats[..n]) + chats[n].latencyMs
    ensures var before, u := UsageSum(chats[..n], read), read(chats[n]);
      UsageSum(chats[..n + 1], read)
        == if before.Raised? || u.Raised? then Raised
           else Returned((before.value.0 + u.value.0, before.value.1 + u.value.1))
  {
    assert chats[..n + 1][..n] == chats[..n];
  }

  method SumChats(chats: seq<Span>, read: UsageReader) returns (r: Outcome<(nat, real, int, int)>)
    ensures var usage := UsageSum(chats, read);
      r == if usage.Raised? then Raised else Returned((|chats|, SumMs(chats), usage.value.0, usage.value.1))
  {
    var llm, llmMs, tokensIn, tokensOut := 0, 0.0, 0, 0;
    for n := 0 to |chats|
      invariant llm == n && llmMs == SumMs(chats[..n])
      invariant UsageSum(chats[..n], read) == Returned((tokensIn, tokensOut))
    {
      UsageNext(chats, n, read);
      llmMs := llmMs + chats[n].latencyMs;
      llm := llm + 1;
      var u := read(chats[n]);
      if u.Raised? {
        RaiseSticks(chats, n + 1, read);
        return Raised;
      }
      tokensIn := tokensIn + u.value.0;
      tokensOut := tokensOut + u.value.1;
    }
    assert chats[..|chats|] == chats;
    r := Returned((llm, llmMs, tokensIn, tokensOut));
  }

  lemma {:induction false} RaiseSticks(chats: seq<Span>, n: nat, read: UsageReader)
    requires n <= |chats| && UsageSum(chats[..n], read).Raised?
    ensures UsageSum(chats, read).Raised?
    decreases |chats|
  {
    if n < |chats| {
      assert chats[..|chats| - 1][..n] == chats[..n];
      RaiseSticks(chats[..|chats| - 1], n, read);
    } else {
      assert chats[..n] == chats;
    }
  }

  // Setting the roots aside loses no invoke, chat or tool span.
  lemma RootsAside(spans: seq<Span>, parent: Option<string>)
    ensures LastInvoke(Pick(spans, CHILD_TEST)) == LastInvoke(spans)
    ensures Pick(Pick(spans, CHILD_TEST), ChatTest(parent)) == Pick(spans, ChatTest(parent))
    ensures Pick(Pick(spans, CHILD_TEST), ToolTest(parent)) == Pick(spans, ToolTest(parent))
  {
    forall s: Span
      ensures INVOKE_TEST(s) ==> CHILD_TEST(s)
      ensures ChatTest(parent)(s) ==> CHILD_TEST(s)
      ensures ToolTest(parent)(s) ==> CHILD_TEST(s)
    {
      KindsExclusive(s);
    }
    PickAmong(spans, CHILD_TEST, INVOKE_TEST);
    PickAmong(spans, CHILD_TEST, ChatTest(parent));
    PickAmong(spans, CHILD_TEST, ToolTest(parent));
  }

  // ---------------------------------------------------------------- span_rows, one trace

  function FirstInvoke(spans: seq<Span>): Option<string> {
    IdOf(First(Pick(spans, INVOKE_TEST)))
  }

  // by_id, reduced to the parent links: spans without an id are left out, a repeated id keeps the last.
  function ParentsById(spans: seq<Span>): SpanDepth.Parents {
    if spans == [] then map[]
    else
      var n := |spans| - 1;
      var before := ParentsById(spans[..n]);
      if spans[n].spanId == "" then before else before[spans[n].spanId := spans[n].parentId]
  }

  // gen_ai when it is a dict, else an empty one.
  function GenAi(s: Span): Attrs {
    if "gen_ai" in s.attributes && s.attributes["gen_ai"].Node? then s.attributes["gen_ai"].kids else map[]
  }

  // Reading usage, request or response of a span raises when one of them is not a dict.
  predicate RowRaises(s: Span) {
    Section(GenAi(s), "usage").Raised? || Section(GenAi(s), "request").Raised? || Section(GenAi(s), "response").Raised?
  }

  function CountedFlag(s: Span, invoke: Option<string>): Option<bool> {
    if SpanKind(s.name) in {ChatKind, ToolKind}
    then Some(s.parentId == invoke && (IsChat(s.name) || IsTool(s.name)))
    else None
  }

  type RowMaker = Span -> Outcome<Row>

  // What all rows of a trace share: its task, the parents of its spans, its invoke_agent span.
  datatype Context = Context(task: Scalar, par: SpanDepth.Parents, invoke: Option<string>)

  ghost function RowOf(s: Span, c: Context, parseInt: IntParser): Outcome<Row> {
    if RowRaises(s) then Raised
    else
      var usage := Section(GenAi(s), "usage").value;
      Returned(Row(c.task, SpanKind(s.name), SpanDepth.Capped(|SpanDepth.Ancestors(c.par, s.parentId)|), s.latencyMs,
                   CountedFlag(s, c.invoke),
                   TokensScalar(usage, "input_tokens", parseInt), TokensScalar(usage, "output_tokens", parseInt)))
  }

  ghost function Makes(c: Context, parseInt: IntParser): RowMaker {
    (s: Span) => RowOf(s, c, parseInt)
  }

  function RowsOf(spans: seq<Span>, make: RowMaker): Outcome<seq<Row>> {
    if spans == [] then Returned([])
    else
      var n := |spans| - 1;
      var before, row := RowsOf(spans[..n], make), make(spans[n]);
      if before.Raised? || row.Raised? then Raised else Returned(before.value + [row.value])
  }

  // All rows of a trace; a trace without a root has none.
  ghost function TraceRows(spans: seq<Span>, parseInt: IntParser): Outcome<seq<Row>> {
    var root := First(Pick(spans, ROOT_TEST));
    if root.None? then Returned([])
    else
      var meta := Section(root.value.attributes, "metadata");
      if meta.Raised? then Raised
      else RowsOf(spans, Makes(Context(RowTask(meta.value), ParentsById(spans), FirstInvoke(spans)), parseInt))
  }

  method TraceSpanRows(spans: seq<Span>, parseInt: IntParser) returns (r: Outcome<seq<Row>>)
    ensures r == TraceRows(spans, parseInt)
  {
    var root := FirstWith(spans, ROOT_TEST);
    if root.None? {
      return Returned([]);
    }
    var meta := Section(root.value.attributes, "metadata");
    if meta.Raised? {
      return Raised;
    }
    var byId := IndexSpans(spans);
    var invoke := FirstWith(spans, INVOKE_TEST);
    r := BuildRows(spans, Context(RowTask(meta.value), byId, IdOf(invoke)), parseInt);
  }

  method IndexSpans(spans: seq<Span>) returns (byId: SpanDepth.Parents)
    ensures byId == ParentsById(spans)
  {
    byId := map[];
    for n := 0 to |spans|
      invariant byId == ParentsById(spans[..n])
    {
      assert spans[..n + 1][..n] == spans[..n];
      if spans[n].spanId != "" {
        byId := byId[spans[n].spanId := spans[n].parentId];
      }
    }
    assert spans[..|spans|] == spans;
  }

  method BuildRows(spans: seq<Span>, c: Context, parseInt: IntParser) returns (r: Outcome<seq<Row>>)
    ensures r == RowsOf(spans, Makes(c, parseInt))
  {
    var rows: seq<Row> := [];
    for n := 0 to |spans|
      invariant RowsOf(spans[..n], Makes(c, parseInt)) == Returned(rows)
    {
      assert spans[..n + 1][..n] == spans[..n];
      var s := spans[n];
      if RowRaises(s) {
        RowsRaise(spans, n + 1, Makes(c, parseInt));
        return Raised;
      }
      var depth := SpanDepth.Depth(c.par, s.parentId);
      var usage := Section(GenAi(s), "usage").value;
      var row := Row(c.task, SpanKind(s.name), depth, s.latencyMs, CountedFlag(s, c.invoke),
                     TokensScalar(usage, "input_tokens", parseInt), TokensScalar(usage, "output_tokens", parseInt));
      assert Makes(c, parseInt)(s) == Returned(row);
      rows := rows + [row];
    }
    assert spans[..|spans|] == spans;
    r := Returned(rows);
  }

  // The first span that passes, if any.
  method FirstWith(spans: seq<Span>, test: SpanTest) returns (r: Option<Span>)
    ensures r == First(Pick(spans, test))
  {
    for n := 0 to |spans|
      invariant Pick(spans[..n], test) == []
    {
      assert spans[..n + 1][..n] == spans[..n];
      if test(spans[n]) {
        PickStartsWith(spans, n + 1, test);
        return Some(spans[n]);
      }
    }
    assert spans[..|spans|] == spans;
    r := None;
  }

  lemma {:induction false} PickStartsWith(spans: seq<Span>, n: nat, test: SpanTest)
    requires n <= |spans|
    ensures Pick(spans[..n], test) <= Pick(spans, test)
    decreases |spans|
  {
    if n < |spans| {
      assert spans[..|spans| - 1][..n] == spans[..n];
      PickStartsWith(spans[..|spans| - 1], n, test);
    } else {
      assert spans[..n] == spans;
    }
  }

  lemma {:induction false} RowsRaise(spans: seq<Span>, n: nat, make: RowMaker)
    requires n <= |spans| && RowsOf(spans[..n], make).Raised?
    ensures RowsOf(spans, make).Raised?
    decreases |spans|
  {
    if n < |spans| {
      assert spans[..|spans| - 1][..n] == spans[..n];
      RowsRaise(spans[..|spans| - 1], n, make);
    } else {
      assert spans[..n] == spans;
    }
  }

  // ---------------------------------------------------------------- reading the rows back

  // Rows of one kind whose counted flag is not False.
  function CountedRows(rows: seq<Row>, kind: Kind): seq<Row> {
    if rows == [] then []
    else
      var n := |rows| - 1;
      if rows[n].kind == kind && rows[n].counted != Some(false) then CountedRows(rows[..n], kind) + [rows[n]]
      else CountedRows(rows[..n], kind)
  }

  function RowsMs(rows: seq<Row>): real {
    if rows == [] then 0.0 else RowsMs(rows[..|rows| - 1]) + rows[|rows| - 1].latencyMs
  }

  function RowsTokens(rows: seq<Row>): (int, int) {
    if rows == [] then (0, 0)
    else
      var row, before := rows[|rows| - 1], RowsTokens(rows[..|rows| - 1]);
      (before.0 + AsCount(row.inputTokens), before.1 + AsCount(row.outputTokens))
  }

  // gen-12run-report.py, _lost on a record and _span_lost on the rows of its task.
  predicate ToolsWithoutTurns(r: Record) {
    r.llmCount <= 1 && r.toolCount >= 2
  }

  predicate Lost(r: Record) {
    || (r.status == "OK" && r.llmCount == 0)
    || (r.llmCount > 0 && r.inputTokens == 0)
    || ToolsWithoutTurns(r)
  }

  // What is kept, by the number of model calls.
  lemma KeptIff(r: Record)
    ensures !Lost(r)
      <==> || (r.llmCount == 0 && r.status != "OK" && r.toolCount <= 1)
           || (r.llmCount == 1 && r.inputTokens != 0 && r.toolCount <= 1)
           || (r.llmCount >= 2 && r.inputTokens != 0)
  {
  }

  predicate SpanLost(rows: seq<Row>) {
    |CountedRows(rows, ChatKind)| <= 1 && |CountedRows(rows, ToolKind)| >= 2
  }

  // ---------------------------------------------------------------- the agreement

  // The rows of one kind that count are those of the spans a test picks, and carry their figures.
  ghost predicate RowsCount(make: RowMaker, kind: Kind, test: SpanTest) {
    forall s :: make(s).Returned? ==>
      && make(s).value.latencyMs == s.latencyMs
      && (make(s).value.kind == kind && make(s).value.counted != Some(false) <==> test(s))
  }

  ghost predicate RowsTell(make: RowMaker, read: UsageReader) {
    forall s :: make(s).Returned? && read(s).Returned? ==>
      read(s).value == (AsCount(make(s).value.inputTokens), AsCount(make(s).value.outputTokens))
  }

  ghost predicate Mirrors(rows: seq<Row>, spans: seq<Span>, read: UsageReader) {
    && |rows| == |spans| && RowsMs(rows) == SumMs(spans)
    && (UsageSum(spans, read).Returned? ==> RowsTokens(rows) == UsageSum(spans, read).value)
  }

  lemma MirrorsNext(rows: seq<Row>, spans: seq<Span>, row: Row, s: Span, read: UsageReader)
    requires Mirrors(rows, spans, read) && row.latencyMs == s.latencyMs
    requires read(s).Returned? ==> read(s).value == (AsCount(row.inputTokens), AsCount(row.outputTokens))
    ensures Mirrors(rows + [row], spans + [s], read)
  {
    assert (rows + [row])[..|rows|] == rows && (spans + [s])[..|spans|] == spans;
  }

  // Then the counted rows of the kind mirror the picked spans, figure by figure.
  lemma {:induction false} RowsMirror(spans: seq<Span>, make: RowMaker, kind: Kind, test: SpanTest, read: UsageReader)
    requires RowsOf(spans, make).Returned? && RowsCount(make, kind, test) && RowsTell(make, read)
    ensures Mirrors(CountedRows(RowsOf(spans, make).value, kind), Pick(spans, test), read)
  {
    if spans == [] {
    } else {
      var n := |spans| - 1;
      RowsMirror(spans[..n], make, kind, test, read);
      var before, row := RowsOf(spans[..n], make).value, make(spans[n]).value;
      assert (before + [row])[..|before|] == before;
      if test(spans[n]) {
        MirrorsNext(CountedRows(before, kind), Pick(spans[..n], test), row, spans[n], read);
      }
    }
  }

  // The rows span_rows makes do count and tell what parse_traces counts under the same parent.
  lemma RowsFaithful(c: Context, parseInt: IntParser)
    requires parseInt("") == None
    ensures RowsCount(Makes(c, parseInt), ChatKind, ChatTest(c.invoke))
    ensures RowsCount(Makes(c, parseInt), ToolKind, ToolTest(c.invoke))
    ensures RowsTell(Makes(c, parseInt), Reads(parseInt))
  {
    forall s: Span
      ensures ChatTest(c.invoke)(s) <==> SpanKind(s.name) == ChatKind && CountedFlag(s, c.invoke) != Some(false)
      ensures ToolTest(c.invoke)(s) <==> SpanKind(s.name) == ToolKind && CountedFlag(s, c.invoke) != Some(false)
    {
      KindsExclusive(s);
    }
    forall s: Span | !RowRaises(s) && Usage(s, parseInt).Returned?
      ensures var usage := Section(GenAi(s), "usage").value;
        Usage(s, parseInt).value == (AsCount(TokensScalar(usage, "input_tokens", parseInt)),
                                     AsCount(TokensScalar(usage, "output_tokens", parseInt)))
    {
      var usage := Section(GenAi(s), "usage").value;
      TokensAgree(usage, "input_tokens", parseInt);
      TokensAgree(usage, "output_tokens", parseInt);
    }
  }

  // A record and a list of rows tell the same of one task.
  ghost predicate Agree(r: Record, rows: seq<Row>) {
    var chats, tools := CountedRows(rows, ChatKind), CountedRows(rows, ToolKind);
    && r.llmCount == |chats| && r.toolCount == |tools|
    && r.llmMs == RowsMs(chats) && r.toolMs == RowsMs(tools)
    && (r.inputTokens, r.outputTokens) == RowsTokens(chats)
    && (SpanLost(rows) <==> ToolsWithoutTurns(r))
    && (SpanLost(rows) ==> Lost(r))
  }

  // When both passes return and take the same invoke_agent span, they agree on every figure, and
  // so the test for lost spans gives one answer from either.
  lemma PassesAgree(spans: seq<Span>, parseInt: IntParser)
    requires parseInt("") == None
    requires FirstInvoke(spans) == LastInvoke(spans)
    requires RecordOf(spans, parseInt).Returned? && RecordOf(spans, parseInt).value.Some?
    requires TraceRows(spans, parseInt).Returned?
    ensures Agree(RecordOf(spans, parseInt).value.value, TraceRows(spans, parseInt).value)
  {
    var c := Context(RowTask(Section(First(Pick(spans, ROOT_TEST)).value.attributes, "metadata").value),
                     ParentsById(spans), FirstInvoke(spans));
    RowsFaithful(c, parseInt);
    RowsMirror(spans, Makes(c, parseInt), ChatKind, ChatTest(c.invoke), Reads(parseInt));
    RowsMirror(spans, Makes(c, parseInt), ToolKind, ToolTest(c.invoke), Reads(parseInt));
  }

  // One invoke_agent span, or none, is enough for that.
  lemma AtMostOneInvoke(spans: seq<Span>)
    requires forall i, j :: 0 <= i < j < |spans| ==> !(IsInvoke(spans[i]) && IsInvoke(spans[j]))
    ensures FirstInvoke(spans) == LastInvoke(spans)
  {
    PickedTwice(spans, INVOKE_TEST);
  }

  lemma {:induction false} PickedTwice(spans: seq<Span>, test: SpanTest)
    ensures |Pick(spans, test)| >= 1 ==> exists i :: 0 <= i < |spans| && test(spans[i])
    ensures |Pick(spans, test)| >= 2 ==> exists i, j :: 0 <= i < j < |spans| && test(spans[i]) && test(spans[j])
  {
    if spans == [] {
    } else {
      var n := |spans| - 1;
      PickedTwice(spans[..n], test);
      assert forall i :: 0 <= i < n ==> spans[..n][i] == spans[i];
      if |Pick(spans[..n], test)| >= 1 {
        var i :| 0 <= i < n && test(spans[..n][i]);
        assert test(spans[i]);
      }
    }
  }

  // A span the aggregate can count: a chat, or a tool call the agent chose.
  predicate Countable(s: Span) {
    IsChat(s.name) || IsTool(s.name)
  }

  // In general the counted flags match what parse_traces counts exactly when the two passes take
  // the same invoke_agent span, or no chat or tool call hangs under either of the two.
  lemma CountedMatchesIff(spans: seq<Span>)
    ensures (forall s :: s in spans && Countable(s) ==>
               (CountedFlag(s, FirstInvoke(spans)) == Some(true) <==> s.parentId == LastInvoke(spans)))
       <==> || FirstInvoke(spans) == LastInvoke(spans)
            || forall s :: s in spans && Countable(s) ==> s.parentId !in {FirstInvoke(spans), LastInvoke(spans)}
  {
    forall s | Countable(s)
      ensures CountedFlag(s, FirstInvoke(spans)) == Some(true) <==> s.parentId == FirstInvoke(spans)
    {
      KindsExclusive(s);
    }
  }
}

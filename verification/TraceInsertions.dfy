// src/autobench/mlflow_report.py: what one span does to the record and the rows of its trace, told by
// the names spans have in a download.
module TraceInsertions {
  import opened Wrappers
  import opened AttributeNesting
  import opened TraceSpans
  import opened TracePasses

  // ---------------------------------------------------------------- a span put into a trace

  lemma {:induction false} PickConcat(a: seq<Span>, b: seq<Span>, test: SpanTest)
    ensures Pick(a + b, test) == Pick(a, test) + Pick(b, test)
    decreases |b|
  {
    if b == [] {
      assert a + b == a;
    } else {
      var n := |b| - 1;
      assert (a + b)[..|a + b| - 1] == a + b[..n];
      PickConcat(a, b[..n], test);
    }
  }

  lemma PickAround(a: seq<Span>, s: Span, b: seq<Span>, test: SpanTest)
    ensures Pick(a + b, test) == Pick(a, test) + Pick(b, test)
    ensures Pick(a + [s] + b, test) == Pick(a, test) + (if test(s) then [s] else []) + Pick(b, test)
  {
    PickConcat(a, b, test);
    PickConcat(a + [s], b, test);
    PickConcat(a, [s], test);
    assert [s][..0] == [];
  }

  lemma {:induction false} SumMsConcat(a: seq<Span>, b: seq<Span>)
    ensures SumMs(a + b) == SumMs(a) + SumMs(b)
    decreases |b|
  {
    if b == [] {
      assert a + b == a;
    } else {
      var n := |b| - 1;
      assert (a + b)[..|a + b| - 1] == a + b[..n];
      SumMsConcat(a, b[..n]);
    }
  }

  function Added(x: Outcome<(int, int)>, y: Outcome<(int, int)>): Outcome<(int, int)> {
    if x.Raised? || y.Raised? then Raised else Returned((x.value.0 + y.value.0, x.value.1 + y.value.1))
  }

  lemma {:induction false} UsageConcat(a: seq<Span>, b: seq<Span>, read: UsageReader)
    ensures UsageSum(a + b, read) == Added(UsageSum(a, read), UsageSum(b, read))
    decreases |b|
  {
    if b == [] {
      assert a + b == a;
    } else {
      var n := |b| - 1;
      assert (a + b)[..|a + b| - 1] == a + b[..n];
      UsageConcat(a, b[..n], read);
    }
  }

  lemma SumMsAround(a: seq<Span>, s: Span, b: seq<Span>)
    ensures SumMs(a + [s] + b) == SumMs(a + b) + s.latencyMs
  {
    SumMsConcat(a + [s], b);
    SumMsConcat(a, b);
    assert (a + [s])[..|a|] == a;
  }

  lemma UsageAround(a: seq<Span>, s: Span, b: seq<Span>, read: UsageReader)
    ensures UsageSum(a + [s] + b, read) == Added(UsageSum(a + b, read), read(s))
  {
    UsageConcat(a + [s], b, read);
    UsageConcat(a, b, read);
    assert (a + [s])[..|a|] == a;
  }

  // ---------------------------------------------------------------- names

  // A span of this name is no root and no invoke_agent span, and no chat or tool call either.
  predicate NoName(name: string) {
    && name != "Agent.Session" && !("invoke_agent" <= name)
    && !("chat " <= name) && !("execute_tool " <= name)
  }

  lemma NamedObservation(s: Span)
    requires s.name == "execute_tool initial_observation"
    ensures !IsRoot(s) && !IsInvoke(s) && !IsChat(s.name) && !IsTool(s.name) && SpanKind(s.name) == ToolKind
  {
    assert s.name[..13] == TOOL_PREFIX;
    KindsExclusive(s);
  }

  lemma NamedChat(s: Span)
    requires "chat " <= s.name
    ensures !IsRoot(s) && !IsInvoke(s) && IsChat(s.name) && !IsTool(s.name) && SpanKind(s.name) == ChatKind
  {
    KindsExclusive(s);
  }

  lemma NamedOther(s: Span)
    requires NoName(s.name)
    ensures !IsRoot(s) && !IsInvoke(s) && !IsChat(s.name) && !IsTool(s.name)
  {
    KindsExclusive(s);
  }

  lemma NamedTool(s: Span)
    requires "execute_tool " <= s.name && s.name != "execute_tool initial_observation"
    ensures !IsRoot(s) && !IsInvoke(s) && !IsChat(s.name) && IsTool(s.name) && SpanKind(s.name) == ToolKind
  {
    KindsExclusive(s);
  }

  // ---------------------------------------------------------------- the record

  // A span neither pass looks at under the invoke_agent span that is taken.
  predicate Unseen(s: Span, invoke: Option<string>) {
    !IsRoot(s) && !IsInvoke(s) && (s.parentId == invoke ==> !IsChat(s.name) && !IsTool(s.name))
  }

  lemma UnseenChangesNothing(a: seq<Span>, s: Span, b: seq<Span>, parseInt: IntParser)
    requires Unseen(s, LastInvoke(a + b))
    ensures LastInvoke(a + [s] + b) == LastInvoke(a + b)
    ensures RecordOf(a + [s] + b, parseInt) == RecordOf(a + b, parseInt)
  {
    var id := LastInvoke(a + b);
    PickAround(a, s, b, ROOT_TEST);
    PickAround(a, s, b, INVOKE_TEST);
    PickAround(a, s, b, ChatTest(id));
    PickAround(a, s, b, ToolTest(id));
    SameAround(a, s, b, ROOT_TEST);
    SameAround(a, s, b, INVOKE_TEST);
    SameAround(a, s, b, ChatTest(id));
    SameAround(a, s, b, ToolTest(id));
  }

  lemma SameAround(a: seq<Span>, s: Span, b: seq<Span>, test: SpanTest)
    requires !test(s)
    ensures Pick(a + [s] + b, test) == Pick(a + b, test)
  {
    PickAround(a, s, b, test);
    assert Pick(a, test) + [] == Pick(a, test);
  }

  // The first observation of a task is no tool call: wherever it stands, the record stays as it is.
  lemma InitialObservationIgnored(a: seq<Span>, s: Span, b: seq<Span>, parseInt: IntParser)
    requires s.name == "execute_tool initial_observation"
    ensures RecordOf(a + [s] + b, parseInt) == RecordOf(a + b, parseInt)
  {
    NamedObservation(s);
    UnseenChangesNothing(a, s, b, parseInt);
  }

  // Nor does any other name count, or a chat or a tool call that hangs elsewhere.
  lemma OthersIgnored(a: seq<Span>, s: Span, b: seq<Span>, parseInt: IntParser)
    requires || NoName(s.name)
             || (("chat " <= s.name || "execute_tool " <= s.name) && s.parentId != LastInvoke(a + b))
    ensures RecordOf(a + [s] + b, parseInt) == RecordOf(a + b, parseInt)
  {
    if NoName(s.name) {
      NamedOther(s);
    } else if "chat " <= s.name {
      NamedChat(s);
    } else if s.name == "execute_tool initial_observation" {
      NamedObservation(s);
    } else {
      NamedTool(s);
    }
    UnseenChangesNothing(a, s, b, parseInt);
  }

  lemma ToolName(tool: string)
    requires tool != "initial_observation"
    ensures "execute_tool " <= "execute_tool " + tool && "execute_tool " + tool != "execute_tool initial_observation"
  {
    assert ("execute_tool " + tool)[13..] == tool;
    assert "execute_tool initial_observation"[13..] == "initial_observation";
  }

  // Any other tool call under the invoke_agent span counts once, with its latency.
  lemma ToolCallCounts(a: seq<Span>, s: Span, b: seq<Span>, tool: string, r: Record, parseInt: IntParser)
    requires s.name == "execute_tool " + tool && tool != "initial_observation" && s.parentId == LastInvoke(a + b)
    requires RecordOf(a + b, parseInt) == Returned(Some(r))
    ensures RecordOf(a + [s] + b, parseInt)
         == Returned(Some(r.(toolCount := r.toolCount + 1, toolMs := r.toolMs + s.latencyMs)))
  {
    ToolName(tool);
    NamedTool(s);
    var id := LastInvoke(a + b);
    SameAround(a, s, b, ROOT_TEST);
    SameAround(a, s, b, INVOKE_TEST);
    SameAround(a, s, b, ChatTest(id));
    OneMorePicked(a, s, b, ToolTest(id));
    var chats, tools, more := Pick(a + b, ChatTest(id)), Pick(a + b, ToolTest(id)), Pick(a + [s] + b, ToolTest(id));
    var root := Last(Pick(a + b, ROOT_TEST)).value;
    RecordMade(a + b, root, id, chats, tools, parseInt);
    RecordMade(a + [s] + b, root, id, chats, more, parseInt);
    OneMoreTool(TaskField(root), root.statusCode, chats, Reads(parseInt), tools, more, s, r);
  }

  lemma OneMoreTool(task: Outcome<Option<string>>, status: string, chats: seq<Span>, read: UsageReader,
                    tools: seq<Span>, more: seq<Span>, s: Span, r: Record)
    requires Made(task, status, chats, read, tools) == Returned(Some(r))
    requires |more| == |tools| + 1 && SumMs(more) == SumMs(tools) + s.latencyMs
    ensures Made(task, status, chats, read, more)
         == Returned(Some(r.(toolCount := r.toolCount + 1, toolMs := r.toolMs + s.latencyMs)))
  {
  }

  lemma OneMorePicked(a: seq<Span>, s: Span, b: seq<Span>, test: SpanTest)
    requires test(s)
    ensures var now, before := Pick(a + [s] + b, test), Pick(a + b, test);
      |now| == |before| + 1 && SumMs(now) == SumMs(before) + s.latencyMs
  {
    PickAround(a, s, b, test);
    SumMsAround(Pick(a, test), s, Pick(b, test));
  }

  // A chat there counts once, with its latency and its tokens; what is wrong with them raises.
  lemma ChatCounts(a: seq<Span>, s: Span, b: seq<Span>, model: string, r: Record, parseInt: IntParser)
    requires s.name == "chat " + model && s.parentId == LastInvoke(a + b)
    requires RecordOf(a + b, parseInt) == Returned(Some(r))
    ensures RecordOf(a + [s] + b, parseInt) == WithChat(r, s.latencyMs, Usage(s, parseInt))
  {
    assert "chat " <= s.name;
    NamedChat(s);
    var id, read := LastInvoke(a + b), Reads(parseInt);
    SameAround(a, s, b, ROOT_TEST);
    SameAround(a, s, b, INVOKE_TEST);
    SameAround(a, s, b, ToolTest(id));
    ChatFigures(a, s, b, ChatTest(id), read);
    var chats, tools, more := Pick(a + b, ChatTest(id)), Pick(a + b, ToolTest(id)), Pick(a + [s] + b, ChatTest(id));
    var root := Last(Pick(a + b, ROOT_TEST)).value;
    RecordMade(a + b, root, id, chats, tools, parseInt);
    RecordMade(a + [s] + b, root, id, more, tools, parseInt);
    OneMoreChat(TaskField(root), root.statusCode, chats, more, s, read, tools, r);
  }

  function WithChat(r: Record, ms: real, usage: Outcome<(int, int)>): Outcome<Option<Record>> {
    if usage.Raised? then Raised
    else Returned(Some(r.(llmCount := r.llmCount + 1, llmMs := r.llmMs + ms,
                          inputTokens := r.inputTokens + usage.value.0,
                          outputTokens := r.outputTokens + usage.value.1)))
  }

  lemma RecordMade(spans: seq<Span>, root: Span, id: Option<string>, chats: seq<Span>, tools: seq<Span>,
                 parseInt: IntParser)
    requires Last(Pick(spans, ROOT_TEST)) == Some(root) && LastInvoke(spans) == id
    requires Pick(spans, ChatTest(id)) == chats && Pick(spans, ToolTest(id)) == tools
    ensures RecordOf(spans, parseInt) == Made(TaskField(root), root.statusCode, chats, Reads(parseInt), tools)
  {
  }

  lemma OneMoreChat(task: Outcome<Option<string>>, status: string, chats: seq<Span>, more: seq<Span>, s: Span,
                    read: UsageReader, tools: seq<Span>, r: Record)
    requires Made(task, status, chats, read, tools) == Returned(Some(r))
    requires |more| == |chats| + 1 && SumMs(more) == SumMs(chats) + s.latencyMs
    requires UsageSum(more, read) == Added(UsageSum(chats, read), read(s))
    ensures Made(task, status, more, read, tools) == WithChat(r, s.latencyMs, read(s))
  {
  }

  lemma ChatFigures(a: seq<Span>, s: Span, b: seq<Span>, test: SpanTest, read: UsageReader)
    requires test(s)
    ensures var now, before := Pick(a + [s] + b, test), Pick(a + b, test);
      && |now| == |before| + 1 && SumMs(now) == SumMs(before) + s.latencyMs
      && UsageSum(now, read) == Added(UsageSum(before, read), read(s))
  {
    OneMorePicked(a, s, b, test);
    PickAround(a, s, b, test);
    UsageAround(Pick(a, test), s, Pick(b, test), read);
  }

  // Where the figures of a chat stand.
  lemma UsageRead(s: Span, genAi: Attrs, usage: Attrs, parseInt: IntParser)
    requires "gen_ai" in s.attributes && s.attributes["gen_ai"] == Node(genAi)
    requires "usage" in genAi && genAi["usage"] == Node(usage)
    ensures Usage(s, parseInt)
         == var i, o := TokensParsed(usage, "input_tokens", parseInt), TokensParsed(usage, "output_tokens", parseInt);
            if i.Raised? || o.Raised? then Raised else Returned((i.value, o.value))
  {
  }

  // What is no dict where one is read raises; what is missing is an empty one.
  lemma UsageRaises(s: Span, parseInt: IntParser)
    ensures "gen_ai" in s.attributes && s.attributes["gen_ai"].Leaf? ==> Usage(s, parseInt) == Raised
    ensures "gen_ai" in s.attributes && s.attributes["gen_ai"].Node? ==>
      var genAi := s.attributes["gen_ai"].kids;
      "usage" in genAi && genAi["usage"].Leaf? ==> Usage(s, parseInt) == Raised
    ensures "gen_ai" !in s.attributes ==> Usage(s, parseInt) == Returned((0, 0))
  {
  }

  // A record takes a string or nothing as its task id; a column takes any value.
  lemma TaskIds(root: Span, meta: Attrs, id: Scalar)
    requires "metadata" in root.attributes && root.attributes["metadata"] == Node(meta)
    ensures "task_id" !in meta ==> TaskField(root) == Returned(None) && RowTask(meta) == SNone
    ensures "task_id" in meta && meta["task_id"] == Leaf(id) ==>
      && RowTask(meta) == id
      && TaskField(root)
         == match id case SNone => Returned(None) case SStr(t) => Returned(Some(t)) case _ => Raised
    ensures "task_id" in meta && meta["task_id"].Node? ==> TaskField(root) == Raised
  {
  }

  // What int(v or 0) makes of a field: integers and truth values as they are, other numbers cut towards
  // zero, digits read; null and nothing are zero, and what int refuses raises.
  lemma TokensRead(usage: Attrs, key: string, parseInt: IntParser)
    ensures key !in usage ==> TokensParsed(usage, key, parseInt) == Returned(0)
    ensures key in usage && usage[key] == Leaf(SNone) ==> TokensParsed(usage, key, parseInt) == Returned(0)
    ensures key in usage && usage[key] == Leaf(SBool(true)) ==> TokensParsed(usage, key, parseInt) == Returned(1)
    ensures key in usage && usage[key] == Leaf(SBool(false)) ==> TokensParsed(usage, key, parseInt) == Returned(0)
    ensures forall i :: key in usage && usage[key] == Leaf(SInt(i)) ==>
      TokensParsed(usage, key, parseInt) == Returned(i)
    ensures forall x :: key in usage && usage[key] == Leaf(SReal(x)) ==>
      var r := TokensParsed(usage, key, parseInt);
      r.Returned? && if x >= 0.0 then r.value as real <= x < r.value as real + 1.0
                     else r.value as real - 1.0 < x <= r.value as real
    ensures forall t :: key in usage && usage[key] == Leaf(SStr(t)) ==>
      TokensParsed(usage, key, parseInt)
        == if t == "" then Returned(0) else match parseInt(t) case Some(i) => Returned(i) case None => Raised
    ensures forall kids :: key in usage && usage[key] == Node(kids) ==>
      TokensParsed(usage, key, parseInt) == if kids == map[] then Returned(0) else Raised
  {
  }

  // What the same field is as a column: null for what int refuses, and some text for a dict.
  lemma TokensShown(usage: Attrs, key: string, parseInt: IntParser)
    ensures key !in usage ==> TokensScalar(usage, key, parseInt) == SNone
    ensures key in usage && usage[key].Node? ==> TokensScalar(usage, key, parseInt).SStr?
    ensures key in usage && usage[key].Leaf? ==>
      var shown := TokensScalar(usage, key, parseInt);
      match usage[key].value
      case SStr(t) => shown == if parseInt(t).Some? then SInt(parseInt(t).value) else SNone
      case SReal(x) =>
        shown.SInt? && if x >= 0.0 then shown.i as real <= x < shown.i as real + 1.0
                       else shown.i as real - 1.0 < x <= shown.i as real
      case other => shown == other
  {
  }

  // The last span named after invoke_agent is the one that is taken.
  lemma LastInvokeTaken(a: seq<Span>, s: Span, b: seq<Span>)
    requires "invoke_agent" <= s.name && forall t :: t in b ==> !("invoke_agent" <= t.name)
    ensures LastInvoke(a + [s] + b) == Some(s.spanId)
  {
    PickAround(a, s, b, INVOKE_TEST);
    NonePicked(b, INVOKE_TEST);
    assert Pick(a, INVOKE_TEST) + [s] + [] == Pick(a, INVOKE_TEST) + [s];
  }

  // The rows take the first.
  lemma FirstInvokeTaken(a: seq<Span>, s: Span, b: seq<Span>)
    requires "invoke_agent" <= s.name && forall t :: t in a ==> !("invoke_agent" <= t.name)
    ensures FirstInvoke(a + [s] + b) == Some(s.spanId)
  {
    PickAround(a, s, b, INVOKE_TEST);
    NonePicked(a, INVOKE_TEST);
    assert Pick(a + [s] + b, INVOKE_TEST)[0] == s;
  }

  lemma {:induction false} NonePicked(spans: seq<Span>, test: SpanTest)
    requires forall s :: s in spans ==> !test(s)
    ensures Pick(spans, test) == []
  {
    if spans == [] {
    } else {
      var n := |spans| - 1;
      assert !test(spans[n]);
      NonePicked(spans[..n], test);
    }
  }

  // Without one, a chat or tool call counts if it has no parent.
  lemma NoInvoke(spans: seq<Span>)
    requires forall t :: t in spans ==> !("invoke_agent" <= t.name)
    ensures FirstInvoke(spans) == None && LastInvoke(spans) == None
  {
    NonePicked(spans, INVOKE_TEST);
  }

  // The task id a root carries.
  predicate RootOf(s: Span, task: string) {
    && s.name == "Agent.Session" && "metadata" in s.attributes && s.attributes["metadata"].Node?
    && var meta := s.attributes["metadata"].kids; "task_id" in meta && meta["task_id"] == Leaf(SStr(task))
  }

  // The last root gives a record its task and its status.
  lemma LastRootTells(a: seq<Span>, s: Span, b: seq<Span>, task: string, parseInt: IntParser)
    requires RootOf(s, task) && forall t :: t in b ==> t.name != "Agent.Session"
    requires RecordOf(a + [s] + b, parseInt).Returned?
    ensures var r := RecordOf(a + [s] + b, parseInt).value;
      r.Some? && r.value.task == Some(task) && r.value.status == s.statusCode
  {
    PickAround(a, s, b, ROOT_TEST);
    NonePicked(b, ROOT_TEST);
    var roots := Pick(a + [s] + b, ROOT_TEST);
    assert roots == Pick(a, ROOT_TEST) + [s] && roots[|roots| - 1] == s;
  }

  // Without a root there is no record and no row.
  lemma NoRoot(spans: seq<Span>, parseInt: IntParser)
    requires forall t :: t in spans ==> t.name != "Agent.Session"
    ensures RecordOf(spans, parseInt) == Returned(None) && TraceRows(spans, parseInt) == Returned([])
  {
    NonePicked(spans, ROOT_TEST);
  }

  // ---------------------------------------------------------------- the rows

  lemma {:induction false} RowAt(spans: seq<Span>, make: RowMaker, n: nat)
    requires RowsOf(spans, make).Returned? && n < |spans|
    ensures |RowsOf(spans, make).value| == |spans| && make(spans[n]) == Returned(RowsOf(spans, make).value[n])
    decreases |spans|
  {
    var last := |spans| - 1;
    if n == last {
      if last > 0 {
        RowAt(spans[..last], make, 0);
      } else {
        assert spans[..last] == [];
      }
    } else {
      RowAt(spans[..last], make, n);
    }
  }

  // The row of a span raises where one of these three is no dict.
  lemma RowRaisesIff(s: Span)
    ensures RowRaises(s)
      <==> && "gen_ai" in s.attributes && s.attributes["gen_ai"].Node?
           && var genAi := s.attributes["gen_ai"].kids;
              || ("usage" in genAi && genAi["usage"].Leaf?)
              || ("request" in genAi && genAi["request"].Leaf?)
              || ("response" in genAi && genAi["response"].Leaf?)
  {
  }

  // Each span has its row, with the parent index and the invoke_agent span of the trace.
  lemma RowOfSpan(spans: seq<Span>, n: nat, parseInt: IntParser) returns (task: Scalar)
    requires TraceRows(spans, parseInt).Returned? && TraceRows(spans, parseInt).value != [] && n < |spans|
    ensures |TraceRows(spans, parseInt).value| == |spans|
    ensures RowOf(spans[n], Context(task, ParentsById(spans), FirstInvoke(spans)), parseInt)
         == Returned(TraceRows(spans, parseInt).value[n])
  {
    var root := Pick(spans, ROOT_TEST)[0];
    task := RowTask(Section(root.attributes, "metadata").value);
    RowAt(spans, Makes(Context(task, ParentsById(spans), FirstInvoke(spans)), parseInt), n);
  }

  // The index knows the ids of the spans, the empty one excepted.
  lemma {:induction false} KnownIds(spans: seq<Span>, id: string)
    ensures id in ParentsById(spans) <==> id != "" && exists s :: s in spans && s.spanId == id
  {
    if spans == [] {
    } else {
      var last := |spans| - 1;
      KnownIds(spans[..last], id);
      assert spans == spans[..last] + [spans[last]];
    }
  }

  // It maps an id to the parent of the last span of that id.
  lemma {:induction false} ParentOfLast(spans: seq<Span>, n: nat)
    requires n < |spans| && spans[n].spanId != ""
    requires forall m :: n < m < |spans| ==> spans[m].spanId != spans[n].spanId
    ensures spans[n].spanId in ParentsById(spans) && ParentsById(spans)[spans[n].spanId] == spans[n].parentId
    decreases |spans|
  {
    if n == |spans| - 1 {
    } else {
      ParentOfLast(spans[..|spans| - 1], n);
    }
  }

  // The row of a span is counted if it hangs under the first invoke_agent span and is a chat or a tool
  // call other than the first observation, which never is; other spans have no such flag.
  lemma RowIsCounted(spans: seq<Span>, n: nat, parseInt: IntParser)
    requires TraceRows(spans, parseInt).Returned? && TraceRows(spans, parseInt).value != [] && n < |spans|
    ensures |TraceRows(spans, parseInt).value| == |spans|
    ensures var hops := |SpanDepth.Ancestors(ParentsById(spans), spans[n].parentId)|;
      TraceRows(spans, parseInt).value[n].depth == if hops < 32 then hops else 32
    ensures var s, row := spans[n], TraceRows(spans, parseInt).value[n];
      && row.latencyMs == s.latencyMs
      && (s.name == "execute_tool initial_observation" ==> row.kind == ToolKind && row.counted == Some(false))
      && ("execute_tool " <= s.name && s.name != "execute_tool initial_observation" ==>
            row.kind == ToolKind && row.counted == Some(s.parentId == FirstInvoke(spans)))
      && ("chat " <= s.name ==> row.kind == ChatKind && row.counted == Some(s.parentId == FirstInvoke(spans)))
      && (!("execute_tool " <= s.name) && !("chat " <= s.name) ==>
            row.kind !in {ChatKind, ToolKind} && row.counted == None)
  {
    var task := RowOfSpan(spans, n, parseInt);
    if spans[n].name == "execute_tool initial_observation" {
      NamedObservation(spans[n]);
    } else if "execute_tool " <= spans[n].name {
      NamedTool(spans[n]);
    } else if "chat " <= spans[n].name {
      NamedChat(spans[n]);
    }
    KindsExclusive(spans[n]);
  }
}

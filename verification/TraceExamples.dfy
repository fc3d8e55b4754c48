// Downloads on which the two passes over the spans do not tell the same.
module TraceExamples {
  import opened AttributeNesting
  import opened TaskGroups
  import opened TraceDownloads
  import opened TracePasses
  import opened TraceSpans
  import opened Wrappers

  function RootSpan(task: string): Span {
    Span(ROOT_SPAN, "r", None, "ERROR", 0.0, map["metadata" := Node(map["task_id" := Leaf(SStr(task))])])
  }

  function InvokeSpan(id: string): Span {
    Span(AGENT_PREFIX, id, Some("r"), "OK", 0.0, map[])
  }

  function ToolSpan(parent: string): Span {
    Span(TOOL_PREFIX, "t", Some(parent), "OK", 0.0, map[])
  }

  lemma SpanNames(task: string, id: string, parent: string)
    ensures var root, invoke, tool := RootSpan(task), InvokeSpan(id), ToolSpan(parent);
      && IsRoot(root) && !IsInvoke(root) && !IsChat(root.name) && !IsTool(root.name)
      && !IsRoot(invoke) && IsInvoke(invoke) && !IsChat(invoke.name) && !IsTool(invoke.name)
      && !IsRoot(tool) && !IsInvoke(tool) && !IsChat(tool.name) && IsTool(tool.name)
  {
    KindsExclusive(RootSpan(task));
    KindsExclusive(InvokeSpan(id));
    KindsExclusive(ToolSpan(parent));
    assert |INITIAL_OBS_SPAN| > |TOOL_PREFIX|;
  }

  function Kept(s: Span, test: SpanTest): seq<Span> {
    if test(s) then [s] else []
  }

  lemma PickBehind(spans: seq<Span>, s: Span, test: SpanTest)
    ensures Pick(spans + [s], test) == Pick(spans, test) + Kept(s, test)
  {
    assert (spans + [s])[..|spans|] == spans;
    assert Pick(spans, test) + [] == Pick(spans, test);
  }

  lemma PickThree(a: Span, b: Span, c: Span, test: SpanTest)
    ensures Pick([a, b, c], test) == Kept(a, test) + Kept(b, test) + Kept(c, test)
  {
    assert [a, b, c] == [] + [a] + [b] + [c];
    PickBehind([], a, test);
    PickBehind([] + [a], b, test);
    PickBehind([] + [a] + [b], c, test);
    assert [] + Kept(a, test) == Kept(a, test);
  }

  lemma PickFive(a: Span, b: Span, c: Span, d: Span, e: Span, test: SpanTest)
    ensures Pick([a, b, c, d, e], test) == Kept(a, test) + Kept(b, test) + Kept(c, test) + Kept(d, test) + Kept(e, test)
  {
    PickThree(a, b, c, test);
    assert [a, b, c, d, e] == [a, b, c] + [d] + [e];
    PickBehind([a, b, c], d, test);
    PickBehind([a, b, c] + [d], e, test);
  }

  lemma {:induction false} RowsReturned(spans: seq<Span>, c: Context, parseInt: IntParser)
    requires forall s :: s in spans ==> !RowRaises(s)
    ensures RowsOf(spans, Makes(c, parseInt)).Returned?
  {
    if spans == [] {
    } else {
      RowsReturned(spans[..|spans| - 1], c, parseInt);
    }
  }

  // ---------------------------------------------------------------- two invoke_agent spans

  function TwoAgents(): seq<Span> {
    [RootSpan("task"), InvokeSpan("1"), InvokeSpan("2"), ToolSpan("1"), ToolSpan("1")]
  }

  lemma TwoAgentsPicked(test: SpanTest)
    ensures Pick(TwoAgents(), test)
         == Kept(RootSpan("task"), test) + Kept(InvokeSpan("1"), test) + Kept(InvokeSpan("2"), test)
            + Kept(ToolSpan("1"), test) + Kept(ToolSpan("1"), test)
  {
    PickFive(RootSpan("task"), InvokeSpan("1"), InvokeSpan("2"), ToolSpan("1"), ToolSpan("1"), test);
  }

  lemma TwoAgentsAnchors()
    ensures Pick(TwoAgents(), ROOT_TEST) == [RootSpan("task")]
    ensures FirstInvoke(TwoAgents()) == Some("1") && LastInvoke(TwoAgents()) == Some("2")
  {
    SpanNames("task", "1", "1");
    SpanNames("task", "2", "1");
    TwoAgentsPicked(ROOT_TEST);
    TwoAgentsPicked(INVOKE_TEST);
    assert Pick(TwoAgents(), INVOKE_TEST) == [InvokeSpan("1"), InvokeSpan("2")];
  }

  lemma TwoAgentsCalls(parent: string)
    ensures Pick(TwoAgents(), ChatTest(Some(parent))) == []
    ensures Pick(TwoAgents(), ToolTest(Some(parent)))
         == if parent == "1" then [ToolSpan("1"), ToolSpan("1")] else []
  {
    SpanNames("task", "1", "1");
    SpanNames("task", "2", "1");
    TwoAgentsPicked(ChatTest(Some(parent)));
    TwoAgentsPicked(ToolTest(Some(parent)));
  }

  lemma NoneRaises(spans: seq<Span>)
    requires forall s :: s in spans ==> "gen_ai" !in s.attributes
    ensures forall s :: s in spans ==> !RowRaises(s)
  {
  }

  lemma TwoAgentsRecord(parseInt: IntParser)
    ensures RecordOf(TwoAgents(), parseInt) == Returned(Some(Record(Some("task"), "ERROR", 0, 0, 0.0, 0.0, 0, 0)))
  {
    TwoAgentsAnchors();
    TwoAgentsCalls("2");
    TaskOfRoot("task");
  }

  lemma {:induction false} TwoAgentsRows(parseInt: IntParser)
    requires parseInt("") == None
    ensures TraceRows(TwoAgents(), parseInt).Returned?
    ensures var rows := TraceRows(TwoAgents(), parseInt).value;
      |CountedRows(rows, ToolKind)| == 2 && |CountedRows(rows, ChatKind)| == 0
  {
    var c := Context(SStr("task"), ParentsById(TwoAgents()), Some("1"));
    assert TraceRows(TwoAgents(), parseInt) == RowsOf(TwoAgents(), Makes(c, parseInt)) by {
      TwoAgentsAnchors();
      TaskOfRoot("task");
    }
    assert forall s :: s in TwoAgents() ==> !RowRaises(s) by {
      assert |"gen_ai"| != |"metadata"|;
      NoneRaises(TwoAgents());
    }
    RowsReturned(TwoAgents(), c, parseInt);
    TwoAgentsCalls("1");
    CountsMirror(TwoAgents(), c, parseInt);
  }

  lemma {:induction false} CountsMirror(spans: seq<Span>, c: Context, parseInt: IntParser)
    requires parseInt("") == None && RowsOf(spans, Makes(c, parseInt)).Returned?
    ensures var rows := RowsOf(spans, Makes(c, parseInt)).value;
      && |CountedRows(rows, ChatKind)| == |Pick(spans, ChatTest(c.invoke))|
      && |CountedRows(rows, ToolKind)| == |Pick(spans, ToolTest(c.invoke))|
  {
    RowsFaithful(c, parseInt);
    RowsMirror(spans, Makes(c, parseInt), ChatKind, ChatTest(c.invoke), Reads(parseInt));
    RowsMirror(spans, Makes(c, parseInt), ToolKind, ToolTest(c.invoke), Reads(parseInt));
  }

  // A task that failed: its record looks under the second agent, counts nothing and is not lost; its
  // rows count the two tool calls under the first agent, and are.
  lemma TwoAgentsDisagree(parseInt: IntParser)
    requires parseInt("") == None
    ensures RecordOf(TwoAgents(), parseInt).Returned? && RecordOf(TwoAgents(), parseInt).value.Some?
    ensures TraceRows(TwoAgents(), parseInt).Returned?
    ensures var r, rows := RecordOf(TwoAgents(), parseInt).value.value, TraceRows(TwoAgents(), parseInt).value;
      && r.toolCount == 0 && !Lost(r)
      && |CountedRows(rows, ToolKind)| == 2 && SpanLost(rows)
  {
    TwoAgentsRecord(parseInt);
    TwoAgentsRows(parseInt);
    FailedEarly(RecordOf(TwoAgents(), parseInt).value.value);
  }

  // A failed record without model calls and with one tool call at most is not lost.
  lemma FailedEarly(r: Record)
    requires r.status == "ERROR" && r.llmCount == 0 && r.toolCount <= 1
    ensures !Lost(r)
  {
    assert "ERROR" != "OK" by {
      assert |"ERROR"| != |"OK"|;
    }
  }

  lemma TaskOfRoot(task: string)
    ensures var meta := Section(RootSpan(task).attributes, "metadata");
      meta.Returned? && RowTask(meta.value) == SStr(task) && TaskField(RootSpan(task)) == Returned(Some(task))
  {
  }

  // ---------------------------------------------------------------- one task id on two traces

  function OneTool(): seq<Span> {
    [RootSpan("task"), InvokeSpan("1"), ToolSpan("1")]
  }

  lemma OneToolPicked()
    ensures Pick(OneTool(), ROOT_TEST) == [RootSpan("task")] && Pick(OneTool(), INVOKE_TEST) == [InvokeSpan("1")]
    ensures Pick(OneTool(), ChatTest(Some("1"))) == [] && Pick(OneTool(), ToolTest(Some("1"))) == [ToolSpan("1")]
  {
    SpanNames("task", "1", "1");
    PickThree(RootSpan("task"), InvokeSpan("1"), ToolSpan("1"), ROOT_TEST);
    PickThree(RootSpan("task"), InvokeSpan("1"), ToolSpan("1"), INVOKE_TEST);
    PickThree(RootSpan("task"), InvokeSpan("1"), ToolSpan("1"), ChatTest(Some("1")));
    PickThree(RootSpan("task"), InvokeSpan("1"), ToolSpan("1"), ToolTest(Some("1")));
  }

  lemma OneToolRead(parseInt: IntParser)
    ensures OneAnchor(OneTool()) && TraceRows(OneTool(), parseInt).Returned?
    ensures RecordOf(OneTool(), parseInt) == Returned(Some(Record(Some("task"), "ERROR", 0, 1, 0.0, 0.0, 0, 0)))
  {
    OneToolPicked();
    TaskOfRoot("task");
    assert "gen_ai" != "metadata" by {
      assert |"gen_ai"| != |"metadata"|;
    }
    NoneRaises(OneTool());
    RowsReturned(OneTool(), Context(SStr("task"), ParentsById(OneTool()), Some("1")), parseInt);
    assert SumMs([ToolSpan("1")]) == SumMs([]) + 0.0;
  }

  // The same trace twice.
  lemma RecordTwice(t: seq<Span>, r: Record, parseInt: IntParser)
    ensures RecordOf(t, parseInt) == Returned(Some(r)) && TraceRows(t, parseInt).Returned? ==>
      RecordsOf([t, t], parseInt) == Returned([r, r]) && FlatRows([t, t], parseInt).Returned?
  {
    if RecordOf(t, parseInt) != Returned(Some(r)) || TraceRows(t, parseInt).Raised? {
      return;
    }
    assert [t, t][..1] == [t] && [t][..0] == [];
    assert [] + [r] == [r] && [r] + [r] == [r, r];
    assert RecordsOf([t], parseInt) == Returned([r]);
    assert FlatRows([t], parseInt).Returned?;
  }

  lemma TotalTwice(r: Record)
    ensures TaskTotal([r, r], r.task) == Plus(RecordFigures(r), RecordFigures(r))
  {
    assert [r, r][..1] == [r] && [r][..0] == [];
    assert TaskTotal([r], r.task) == Plus(Figures(0, 0, 0, 0), RecordFigures(r));
  }

  lemma {:induction false} TwiceIsLost(traces: seq<seq<Span>>, r: Record, parseInt: IntParser)
    requires parseInt("") == None && forall t :: t in traces ==> OneAnchor(t)
    requires RecordsOf(traces, parseInt) == Returned([r, r]) && FlatRows(traces, parseInt).Returned?
    requires r.llmCount == 0 && r.toolCount == 1
    ensures SpanLost(RowsFor(Grouped(FlatRows(traces, parseInt).value, ROW_TASK), AsColumn(r.task)))
  {
    TotalTwice(r);
    LostByTotal(traces, parseInt, r.task);
  }

  // Two failed traces with one task id and one tool call each: neither record is lost, and their rows
  // together are.
  lemma {:induction false} SharedTaskMisleads(parseInt: IntParser)
    requires parseInt("") == None
    ensures var traces := [OneTool(), OneTool()];
      && RecordsOf(traces, parseInt).Returned? && FlatRows(traces, parseInt).Returned?
      && (forall r :: r in RecordsOf(traces, parseInt).value ==> r.task == Some("task") && !Lost(r))
      && SpanLost(RowsFor(Grouped(FlatRows(traces, parseInt).value, ROW_TASK), SStr("task")))
  {
    OneToolRead(parseInt);
    var r := Record(Some("task"), "ERROR", 0, 1, 0.0, 0.0, 0, 0);
    FailedEarly(r);
    RecordTwice(OneTool(), r, parseInt);
    TwiceIsLost([OneTool(), OneTool()], r, parseInt);
  }

  // ---------------------------------------------------------------- two roots

  function TwoRoots(): seq<Span> {
    [RootSpan("a"), RootSpan("b")]
  }

  lemma TwoRootsPicked()
    ensures Pick(TwoRoots(), ROOT_TEST) == TwoRoots() && Pick(TwoRoots(), INVOKE_TEST) == []
    ensures Pick(TwoRoots(), ChatTest(None)) == [] && Pick(TwoRoots(), ToolTest(None)) == []
  {
    SpanNames("a", "1", "1");
    SpanNames("b", "1", "1");
    PickTwo(RootSpan("a"), RootSpan("b"), ROOT_TEST);
    PickTwo(RootSpan("a"), RootSpan("b"), INVOKE_TEST);
    PickTwo(RootSpan("a"), RootSpan("b"), ChatTest(None));
    PickTwo(RootSpan("a"), RootSpan("b"), ToolTest(None));
  }

  lemma PickTwo(a: Span, b: Span, test: SpanTest)
    ensures Pick([a, b], test) == Kept(a, test) + Kept(b, test)
  {
    assert [a, b] == [] + [a] + [b];
    PickBehind([], a, test);
    PickBehind([] + [a], b, test);
    assert [] + Kept(a, test) == Kept(a, test);
  }

  // The record takes its task from the last root, the rows theirs from the first.
  lemma TwoRootsDisagree(parseInt: IntParser)
    ensures RecordOf(TwoRoots(), parseInt) == Returned(Some(Record(Some("b"), "ERROR", 0, 0, 0.0, 0.0, 0, 0)))
    ensures TraceRows(TwoRoots(), parseInt).Returned? && |TraceRows(TwoRoots(), parseInt).value| == 2
    ensures forall row :: row in TraceRows(TwoRoots(), parseInt).value ==> row.task == SStr("a")
  {
    TwoRootsPicked();
    TaskOfRoot("a");
    TaskOfRoot("b");
    var c := Context(SStr("a"), ParentsById(TwoRoots()), None);
    assert TraceRows(TwoRoots(), parseInt) == RowsOf(TwoRoots(), Makes(c, parseInt));
    assert forall s :: s in TwoRoots() ==> !RowRaises(s) by {
      assert |"gen_ai"| != |"metadata"|;
      NoneRaises(TwoRoots());
    }
    RowsReturned(TwoRoots(), c, parseInt);
    RowsShareTask(TwoRoots(), c, parseInt);
  }
}

// src/autobench/mlflow_report.py, parse_traces and span_rows over a whole download, and
// reference/gen-12run-report.py, section 8, which takes the rows apart again by task.
module TraceDownloads {
  import opened TaskGroups
  import opened TracePasses
  import opened TraceSpans
  import opened Wrappers

  // ---------------------------------------------------------------- the two lists

  function RecordsOf(traces: seq<seq<Span>>, parseInt: IntParser): Outcome<seq<Record>> {
    if traces == [] then Returned([])
    else
      var n := |traces| - 1;
      var before, r := RecordsOf(traces[..n], parseInt), RecordOf(traces[n], parseInt);
      if before.Raised? || r.Raised? then Raised
      else if r.value.None? then before
      else Returned(before.value + [r.value.value])
  }

  lemma RecordsNext(traces: seq<seq<Span>>, n: nat, parseInt: IntParser)
    requires n < |traces|
    ensures var before, r := RecordsOf(traces[..n], parseInt), RecordOf(traces[n], parseInt);
      RecordsOf(traces[..n + 1], parseInt)
        == if before.Raised? || r.Raised? then Raised
           else if r.value.None? then before
           else Returned(before.value + [r.value.value])
  {
    assert traces[..n + 1][..n] == traces[..n];
  }

  method ParseTraces(traces: seq<seq<Span>>, parseInt: IntParser) returns (r: Outcome<seq<Record>>)
    ensures r == RecordsOf(traces, parseInt)
  {
    var records: seq<Record> := [];
    for n := 0 to |traces|
      invariant RecordsOf(traces[..n], parseInt) == Returned(records)
    {
      RecordsNext(traces, n, parseInt);
      var record := ParseTrace(traces[n], parseInt);
      if record.Raised? {
        RecordsRaise(traces, n + 1, parseInt);
        return Raised;
      }
      if record.value.Some? {
        records := records + [record.value.value];
      }
    }
    assert traces[..|traces|] == traces;
    r := Returned(records);
  }

  lemma {:induction false} RecordsRaise(traces: seq<seq<Span>>, n: nat, parseInt: IntParser)
    requires n <= |traces| && RecordsOf(traces[..n], parseInt).Raised?
    ensures RecordsOf(traces, parseInt).Raised?
    decreases |traces|
  {
    if n < |traces| {
      assert traces[..|traces| - 1][..n] == traces[..n];
      RecordsRaise(traces[..|traces| - 1], n, parseInt);
    } else {
      assert traces[..n] == traces;
    }
  }

  // All rows in one list.
  ghost function FlatRows(traces: seq<seq<Span>>, parseInt: IntParser): Outcome<seq<Row>> {
    if traces == [] then Returned([])
    else
      var n := |traces| - 1;
      var before, rows := FlatRows(traces[..n], parseInt), TraceRows(traces[n], parseInt);
      if before.Raised? || rows.Raised? then Raised else Returned(before.value + rows.value)
  }

  method SpanRows(traces: seq<seq<Span>>, parseInt: IntParser) returns (r: Outcome<seq<Row>>)
    ensures r == FlatRows(traces, parseInt)
  {
    var rows: seq<Row> := [];
    for n := 0 to |traces|
      invariant FlatRows(traces[..n], parseInt) == Returned(rows)
    {
      assert traces[..n + 1][..n] == traces[..n];
      var more := TraceSpanRows(traces[n], parseInt);
      if more.Raised? {
        FlatRowsRaise(traces, n + 1, parseInt);
        return Raised;
      }
      rows := rows + more.value;
    }
    assert traces[..|traces|] == traces;
    r := Returned(rows);
  }

  lemma {:induction false} FlatRowsRaise(traces: seq<seq<Span>>, n: nat, parseInt: IntParser)
    requires n <= |traces| && FlatRows(traces[..n], parseInt).Raised?
    ensures FlatRows(traces, parseInt).Raised?
    decreases |traces|
  {
    if n < |traces| {
      assert traces[..|traces| - 1][..n] == traces[..n];
      FlatRowsRaise(traces[..|traces| - 1], n, parseInt);
    } else {
      assert traces[..n] == traces;
    }
  }

  // ---------------------------------------------------------------- one trace in the lists

  const ROW_TASK: TaskOf<Row, Scalar> := (row: Row) => row.task

  // The column made from the first root's metadata is the task the record takes from the last root's.
  predicate SameTask(spans: seq<Span>) {
    var roots := Pick(spans, ROOT_TEST);
    roots != [] ==>
      var meta, task := Section(roots[0].attributes, "metadata"), TaskField(roots[|roots| - 1]);
      meta.Returned? && task.Returned? ==> RowTask(meta.value) == AsColumn(task.value)
  }

  // The two passes take one task and one invoke_agent span of the trace.
  predicate OneAnchor(spans: seq<Span>) {
    SameTask(spans) && FirstInvoke(spans) == LastInvoke(spans)
  }

  // One root, or none, is enough for the task.
  lemma AtMostOneRoot(spans: seq<Span>)
    requires |Pick(spans, ROOT_TEST)| <= 1
    ensures SameTask(spans)
  {
  }

  lemma {:induction false} RowsShareTask(spans: seq<Span>, c: Context, parseInt: IntParser)
    requires RowsOf(spans, Makes(c, parseInt)).Returned?
    ensures |RowsOf(spans, Makes(c, parseInt)).value| == |spans|
    ensures forall row :: row in RowsOf(spans, Makes(c, parseInt)).value ==> row.task == c.task
  {
    if spans == [] {
    } else {
      RowsShareTask(spans[..|spans| - 1], c, parseInt);
    }
  }

  lemma SomeRow(spans: seq<Span>, parseInt: IntParser)
    requires TraceRows(spans, parseInt).Returned?
    ensures var roots, rows := Pick(spans, ROOT_TEST), TraceRows(spans, parseInt).value;
      if roots == [] then rows == []
      else rows != [] && Section(roots[0].attributes, "metadata").Returned?
           && forall row :: row in rows ==> row.task == RowTask(Section(roots[0].attributes, "metadata").value)
  {
    var roots := Pick(spans, ROOT_TEST);
    if roots != [] {
      var meta := Section(roots[0].attributes, "metadata").value;
      RowsShareTask(spans, Context(RowTask(meta), ParentsById(spans), FirstInvoke(spans)), parseInt);
      PickedTwice(spans, ROOT_TEST);
    }
  }

  // The rows of a trace carry its record's task if and only if the two roots tell the same task.
  lemma RowsCarryTaskIff(spans: seq<Span>, parseInt: IntParser)
    requires RecordOf(spans, parseInt).Returned? && RecordOf(spans, parseInt).value.Some?
    requires TraceRows(spans, parseInt).Returned?
    ensures var r, rows := RecordOf(spans, parseInt).value.value, TraceRows(spans, parseInt).value;
      SameTask(spans) <==> forall row :: row in rows ==> row.task == AsColumn(r.task)
  {
    SomeRow(spans, parseInt);
    var rows := TraceRows(spans, parseInt).value;
    assert rows[0] in rows;
  }

  // A trace is a record and rows of one task that tell the same, or neither.
  lemma TraceMatches(spans: seq<Span>, parseInt: IntParser)
    requires parseInt("") == None && OneAnchor(spans)
    requires RecordOf(spans, parseInt).Returned? && TraceRows(spans, parseInt).Returned?
    ensures var r, rows := RecordOf(spans, parseInt).value, TraceRows(spans, parseInt).value;
      if r.None? then rows == []
      else Agree(r.value, rows) && rows != [] && forall row :: row in rows ==> row.task == AsColumn(r.value.task)
  {
    SomeRow(spans, parseInt);
    if RecordOf(spans, parseInt).value.Some? {
      PassesAgree(spans, parseInt);
      RowsCarryTaskIff(spans, parseInt);
    }
  }

  // ---------------------------------------------------------------- the download, task by task

  // What the records of one task count together.
  datatype Figures = Figures(llm: int, tools: int, input: int, output: int)

  function Plus(a: Figures, b: Figures): Figures {
    Figures(a.llm + b.llm, a.tools + b.tools, a.input + b.input, a.output + b.output)
  }

  function RecordFigures(r: Record): Figures {
    Figures(r.llmCount, r.toolCount, r.inputTokens, r.outputTokens)
  }

  function TaskTotal(records: seq<Record>, task: Option<string>): Figures {
    if records == [] then Figures(0, 0, 0, 0)
    else
      var n := |records| - 1;
      if records[n].task == task then Plus(TaskTotal(records[..n], task), RecordFigures(records[n]))
      else TaskTotal(records[..n], task)
  }

  ghost function CallFigures(chats: seq<Row>, tools: seq<Row>): Figures {
    Figures(|chats|, |tools|, RowsTokens(chats).0, RowsTokens(chats).1)
  }

  // What its rows count.
  ghost function RowFigures(rows: seq<Row>): Figures {
    CallFigures(CountedRows(rows, ChatKind), CountedRows(rows, ToolKind))
  }

  lemma {:induction false} OfTaskConcat(a: seq<Row>, b: seq<Row>, task: Scalar)
    ensures OfTask(a + b, ROW_TASK, task) == OfTask(a, ROW_TASK, task) + OfTask(b, ROW_TASK, task)
    decreases |b|
  {
    if b == [] {
      assert a + b == a;
    } else {
      assert (a + b)[..|a + b| - 1] == a + b[..|b| - 1];
      OfTaskConcat(a, b[..|b| - 1], task);
    }
  }

  lemma {:induction false} OfOneTask(rows: seq<Row>, task: Scalar, other: Scalar)
    requires forall row :: row in rows ==> row.task == task
    ensures OfTask(rows, ROW_TASK, other) == if task == other then rows else []
  {
    if rows == [] {
    } else {
      OfOneTask(rows[..|rows| - 1], task, other);
      assert rows == rows[..|rows| - 1] + [rows[|rows| - 1]];
    }
  }

  lemma {:induction false} CountedConcat(a: seq<Row>, b: seq<Row>, kind: Kind)
    ensures CountedRows(a + b, kind) == CountedRows(a, kind) + CountedRows(b, kind)
    decreases |b|
  {
    if b == [] {
      assert a + b == a;
    } else {
      assert (a + b)[..|a + b| - 1] == a + b[..|b| - 1];
      CountedConcat(a, b[..|b| - 1], kind);
    }
  }

  lemma {:induction false} TokensConcat(a: seq<Row>, b: seq<Row>)
    ensures RowsTokens(a + b) == (RowsTokens(a).0 + RowsTokens(b).0, RowsTokens(a).1 + RowsTokens(b).1)
    decreases |b|
  {
    if b == [] {
      assert a + b == a;
    } else {
      assert (a + b)[..|a + b| - 1] == a + b[..|b| - 1];
      TokensConcat(a, b[..|b| - 1]);
    }
  }

  lemma CallsConcat(a: seq<Row>, b: seq<Row>, c: seq<Row>, d: seq<Row>)
    ensures CallFigures(a + b, c + d) == Plus(CallFigures(a, c), CallFigures(b, d))
  {
    TokensConcat(a, b);
  }

  lemma {:induction false} FiguresConcat(a: seq<Row>, b: seq<Row>)
    ensures RowFigures(a + b) == Plus(RowFigures(a), RowFigures(b))
  {
    CallsConcat(CountedRows(a, ChatKind), CountedRows(b, ChatKind), CountedRows(a, ToolKind), CountedRows(b, ToolKind));
    CountedConcat(a, b, ChatKind);
    CountedConcat(a, b, ToolKind);
  }

  // One more trace adds its record to its task, and its rows to the same.
  lemma TotalsNext(records: seq<Record>, rows: seq<Row>, r: Record, more: seq<Row>, task: Option<string>)
    requires RowFigures(OfTask(rows, ROW_TASK, AsColumn(task))) == TaskTotal(records, task)
    requires RowFigures(more) == RecordFigures(r) && forall row :: row in more ==> row.task == AsColumn(r.task)
    ensures RowFigures(OfTask(rows + more, ROW_TASK, AsColumn(task))) == TaskTotal(records + [r], task)
  {
    assert (records + [r])[..|records|] == records;
    OfTaskConcat(rows, more, AsColumn(task));
    OfOneTask(more, AsColumn(r.task), AsColumn(task));
    var own := OfTask(rows, ROW_TASK, AsColumn(task));
    if r.task == task {
      FiguresConcat(own, more);
    } else {
      assert own + [] == own;
    }
  }

  // Over any download, the rows of a task count what the records of the task count together.
  lemma {:induction false} TasksTotal(traces: seq<seq<Span>>, parseInt: IntParser, task: Option<string>)
    requires parseInt("") == None && forall t :: t in traces ==> OneAnchor(t)
    requires RecordsOf(traces, parseInt).Returned? && FlatRows(traces, parseInt).Returned?
    ensures RowFigures(OfTask(FlatRows(traces, parseInt).value, ROW_TASK, AsColumn(task)))
         == TaskTotal(RecordsOf(traces, parseInt).value, task)
  {
    if traces == [] {
    } else {
      var n := |traces| - 1;
      TasksTotal(traces[..n], parseInt, task);
      TraceMatches(traces[n], parseInt);
      var records, rows := RecordsOf(traces[..n], parseInt).value, FlatRows(traces[..n], parseInt).value;
      var r, more := RecordOf(traces[n], parseInt).value, TraceRows(traces[n], parseInt).value;
      if r.Some? {
        TotalsNext(records, rows, r.value, more, task);
      } else {
        assert rows + more == rows;
      }
    }
  }

  // So section 8 calls a task lost exactly when its records have at most one model call and two or
  // more tool calls between them.
  lemma LostByTotal(traces: seq<seq<Span>>, parseInt: IntParser, task: Option<string>)
    requires parseInt("") == None && forall t :: t in traces ==> OneAnchor(t)
    requires RecordsOf(traces, parseInt).Returned? && FlatRows(traces, parseInt).Returned?
    ensures var records, rows := RecordsOf(traces, parseInt).value, FlatRows(traces, parseInt).value;
      var own := RowsFor(Grouped(rows, ROW_TASK), AsColumn(task));
      SpanLost(own) <==> TaskTotal(records, task).llm <= 1 && TaskTotal(records, task).tools >= 2
  {
    TasksTotal(traces, parseInt, task);
    GroupedExactly(FlatRows(traces, parseInt).value, ROW_TASK, AsColumn(task));
  }

  // ---------------------------------------------------------------- the two verdicts on a task

  ghost predicate SomeWithoutTurns(records: seq<Record>, task: Option<string>) {
    exists r :: r in records && r.task == task && ToolsWithoutTurns(r)
  }

  lemma {:induction false} PartOfTotal(records: seq<Record>, task: Option<string>)
    ensures TaskTotal(records, task).llm >= 0 && TaskTotal(records, task).tools >= 0
    ensures forall r :: r in records && r.task == task ==>
      r.llmCount <= TaskTotal(records, task).llm && r.toolCount <= TaskTotal(records, task).tools
  {
    if records == [] {
    } else {
      var n := |records| - 1;
      PartOfTotal(records[..n], task);
      assert records == records[..n] + [records[n]];
    }
  }

  // Section 8 condemns a task id exactly when the structural test condemns one of its records, if and
  // only if: with one model call or none in all, a record has two tool calls or there are not two in
  // all; with more, every record of one call or none has at most one tool call.
  lemma VerdictsAgreeIff(traces: seq<seq<Span>>, parseInt: IntParser, task: Option<string>)
    requires parseInt("") == None && forall t :: t in traces ==> OneAnchor(t)
    requires RecordsOf(traces, parseInt).Returned? && FlatRows(traces, parseInt).Returned?
    ensures var records, rows := RecordsOf(traces, parseInt).value, FlatRows(traces, parseInt).value;
      var own, total := RowsFor(Grouped(rows, ROW_TASK), AsColumn(task)), TaskTotal(records, task);
      (SpanLost(own) <==> SomeWithoutTurns(records, task))
        <==> if total.llm <= 1 then total.tools <= 1 || exists r :: r in records && r.task == task && r.toolCount >= 2
             else forall r :: r in records && r.task == task ==> r.llmCount >= 2 || r.toolCount <= 1
  {
    LostByTotal(traces, parseInt, task);
    VerdictOnCounts(RecordsOf(traces, parseInt).value, task);
  }

  lemma VerdictOnCounts(records: seq<Record>, task: Option<string>)
    ensures var total := TaskTotal(records, task);
      (total.llm <= 1 && total.tools >= 2 <==> SomeWithoutTurns(records, task))
        <==> if total.llm <= 1 then total.tools <= 1 || exists r :: r in records && r.task == task && r.toolCount >= 2
             else forall r :: r in records && r.task == task ==> r.llmCount >= 2 || r.toolCount <= 1
  {
    PartOfTotal(records, task);
  }

  // A record that ended well and that section 7 does not count as lost.
  predicate Sound(r: Record) {
    r.status == "OK" && !Lost(r)
  }

  lemma {:induction false} SoundTotal(records: seq<Record>, task: Option<string>)
    requires forall r :: r in records && r.task == task ==> Sound(r)
    ensures var total := TaskTotal(records, task);
      (total.llm <= 1 ==> total.tools <= 1) && (total.tools > 0 ==> total.llm > 0) && total.llm >= 0 && total.tools >= 0
  {
    if records == [] {
    } else {
      var n := |records| - 1;
      SoundTotal(records[..n], task);
      assert records[n] in records;
    }
  }

  // If every record of a task id is such, shared or not, section 8 does not call the task lost.
  lemma SoundIsNotLost(traces: seq<seq<Span>>, parseInt: IntParser, task: Option<string>)
    requires parseInt("") == None && forall t :: t in traces ==> OneAnchor(t)
    requires RecordsOf(traces, parseInt).Returned? && FlatRows(traces, parseInt).Returned?
    requires forall r :: r in RecordsOf(traces, parseInt).value && r.task == task ==> Sound(r)
    ensures !SpanLost(RowsFor(Grouped(FlatRows(traces, parseInt).value, ROW_TASK), AsColumn(task)))
  {
    LostByTotal(traces, parseInt, task);
    SoundTotal(RecordsOf(traces, parseInt).value, task);
  }

  // ---------------------------------------------------------------- distinct task ids

  predicate DistinctTasks(records: seq<Record>) {
    forall i, j :: 0 <= i < j < |records| ==> records[i].task != records[j].task
  }

  // The groups are the records' tasks in the records' order, and tell the same.
  ghost predicate GroupsMatch(records: seq<Record>, groups: seq<Group<Scalar, Row>>) {
    && |groups| == |records|
    && forall i :: 0 <= i < |records| ==>
         groups[i].task == AsColumn(records[i].task) && Agree(records[i], groups[i].rows)
  }

  lemma {:induction false} TasksOfGroups(rows: seq<Row>)
    ensures forall row :: row in rows ==> exists g :: g in Grouped(rows, ROW_TASK) && g.task == row.task
  {
    if rows == [] {
    } else {
      var n := |rows| - 1;
      TasksOfGroups(rows[..n]);
      AddRowKeeps(Grouped(rows[..n], ROW_TASK), rows[n].task, rows[n]);
      assert rows == rows[..n] + [rows[n]];
      forall row | row in rows ensures exists g :: g in Grouped(rows, ROW_TASK) && g.task == row.task {
        if row in rows[..n] {
          var g :| g in Grouped(rows[..n], ROW_TASK) && g.task == row.task;
        }
      }
    }
  }

  lemma {:induction false} AddRowKeeps(groups: seq<Group<Scalar, Row>>, task: Scalar, row: Row)
    ensures exists g :: g in AddRow(groups, task, row) && g.task == task
    ensures forall h :: h in groups ==> exists g :: g in AddRow(groups, task, row) && g.task == h.task
  {
    var after := AddRow(groups, task, row);
    if groups == [] || groups[0].task == task {
      assert after[0] in after && after[0].task == task;
      forall h | h in groups ensures exists g :: g in after && g.task == h.task {
        if h != groups[0] {
          assert h in groups[1..] && h in after;
        }
      }
    } else {
      AddRowKeeps(groups[1..], task, row);
      assert after[1..] == AddRow(groups[1..], task, row);
      assert forall g :: g in after[1..] ==> g in after;
      assert groups[0] in after;
      var own :| own in after[1..] && own.task == task;
      forall h | h in groups ensures exists g :: g in after && g.task == h.task {
        if h != groups[0] {
          assert h in groups[1..];
          var g :| g in after[1..] && g.task == h.task;
        }
      }
    }
  }

  lemma NewTaskApart(records: seq<Record>, rows: seq<Row>, r: Record, more: seq<Row>)
    requires |Grouped(rows, ROW_TASK)| == |records| && DistinctTasks(records + [r])
    requires forall i :: 0 <= i < |records| ==> Grouped(rows, ROW_TASK)[i].task == AsColumn(records[i].task)
    requires forall row :: row in more ==> row.task == AsColumn(r.task)
    ensures Tasks(rows, ROW_TASK) !! Tasks(more, ROW_TASK)
  {
    TasksOfGroups(rows);
    forall row | row in rows ensures row.task != AsColumn(r.task) {
      var g :| g in Grouped(rows, ROW_TASK) && g.task == row.task;
      var i :| 0 <= i < |records| && Grouped(rows, ROW_TASK)[i] == g;
      assert (records + [r])[i] == records[i] && (records + [r])[|records|] == r;
    }
  }

  lemma MatchBehind(records: seq<Record>, groups: seq<Group<Scalar, Row>>, r: Record, more: seq<Row>)
    requires GroupsMatch(records, groups) && Agree(r, more)
    ensures GroupsMatch(records + [r], groups + [Group(AsColumn(r.task), more)])
  {
    var last := |records|;
    assert (records + [r])[last] == r && (groups + [Group(AsColumn(r.task), more)])[last].rows == more;
  }

  // One more record of a new task is one more group at the end.
  lemma {:induction false} GroupBehind(records: seq<Record>, rows: seq<Row>, r: Record, more: seq<Row>)
    requires GroupsMatch(records, Grouped(rows, ROW_TASK)) && DistinctTasks(records + [r])
    requires Agree(r, more) && more != [] && forall row :: row in more ==> row.task == AsColumn(r.task)
    ensures GroupsMatch(records + [r], Grouped(rows + more, ROW_TASK))
  {
    NewTaskApart(records, rows, r, more);
    GroupedApart(rows, more, ROW_TASK);
    GroupedAlone(more, ROW_TASK, AsColumn(r.task));
    MatchBehind(records, Grouped(rows, ROW_TASK), r, more);
  }

  // When no two traces carry one task id, the report made from the rows lists the tasks of the
  // records, in their order, with their figures and the same ones lost.
  lemma {:induction false} DownloadsAgree(traces: seq<seq<Span>>, parseInt: IntParser)
    requires parseInt("") == None && forall t :: t in traces ==> OneAnchor(t)
    requires RecordsOf(traces, parseInt).Returned? && FlatRows(traces, parseInt).Returned?
    requires DistinctTasks(RecordsOf(traces, parseInt).value)
    ensures GroupsMatch(RecordsOf(traces, parseInt).value, Grouped(FlatRows(traces, parseInt).value, ROW_TASK))
  {
    if traces == [] {
    } else {
      var n := |traces| - 1;
      var records, rows := RecordsOf(traces[..n], parseInt).value, FlatRows(traces[..n], parseInt).value;
      var r, more := RecordOf(traces[n], parseInt).value, TraceRows(traces[n], parseInt).value;
      TraceMatches(traces[n], parseInt);
      if r.Some? {
        assert forall i :: 0 <= i < |records| ==> (records + [r.value])[i] == records[i];
        DownloadsAgree(traces[..n], parseInt);
        GroupBehind(records, rows, r.value, more);
      } else {
        DownloadsAgree(traces[..n], parseInt);
        assert rows + more == rows;
      }
    }
  }
}

// src/autobench/mlflow_report.py: the span vocabulary and the fields that parse_traces and
// span_rows read from a transformed span.
module TraceSpans {
  import opened Wrappers
  import opened AttributeNesting

  // A native attribute value.
  datatype Scalar = SNone | SStr(s: string) | SInt(i: int) | SReal(x: real) | SBool(b: bool)

  type Attrs = Dict<Scalar>

  datatype Span = Span(
    name: string,
    spanId: string,
    parentId: Option<string>,
    statusCode: string,
    latencyMs: real,
    attributes: Attrs)

  const ROOT_SPAN := "Agent.Session"
  const AGENT_PREFIX := "invoke_agent"
  const CHAT_PREFIX := "chat "
  const TOOL_PREFIX := "execute_tool "
  const INITIAL_OBS_SPAN := "execute_tool initial_observation"
  const PHASE_SPANS := ["MCP.CreateSession", "Agent.Call", "Evaluator.Evaluate"]

  predicate IsRoot(s: Span) { s.name == ROOT_SPAN }

  predicate IsInvoke(s: Span) { AGENT_PREFIX <= s.name }

  predicate IsChat(name: string) { CHAT_PREFIX <= name }

  predicate IsTool(name: string) { TOOL_PREFIX <= name && name != INITIAL_OBS_SPAN }

  datatype Kind = RootKind | PhaseKind | AgentKind | ChatKind | ToolKind | OtherKind

  function SpanKind(name: string): Kind {
    if name == ROOT_SPAN then RootKind
    else if name in PHASE_SPANS then PhaseKind
    else if AGENT_PREFIX <= name then AgentKind
    else if IsChat(name) then ChatKind
    else if TOOL_PREFIX <= name then ToolKind
    else OtherKind
  }

  // The prefixes exclude one another, so the order of the tests in SpanKind does not matter.
  lemma KindsExclusive(s: Span)
    ensures SpanKind(s.name) == RootKind <==> IsRoot(s)
    ensures SpanKind(s.name) == PhaseKind <==> s.name in PHASE_SPANS
    ensures SpanKind(s.name) == AgentKind <==> IsInvoke(s)
    ensures SpanKind(s.name) == ChatKind <==> IsChat(s.name)
    ensures SpanKind(s.name) == ToolKind <==> TOOL_PREFIX <= s.name
    ensures IsChat(s.name) || TOOL_PREFIX <= s.name ==> !IsRoot(s) && !IsInvoke(s) && s.name !in PHASE_SPANS
    ensures IsChat(s.name) ==> !(TOOL_PREFIX <= s.name)
    ensures IsInvoke(s) ==> !IsRoot(s) && s.name !in PHASE_SPANS
  {
    var c := if |s.name| > 0 then s.name[0] else ' ';
    assert ROOT_SPAN[0] == 'A' && CHAT_PREFIX[0] == 'c' && TOOL_PREFIX[0] == 'e' && AGENT_PREFIX[0] == 'i';
    assert PHASE_SPANS[0][0] == 'M' && PHASE_SPANS[1][0] == 'A' && PHASE_SPANS[2][0] == 'E';
    assert IsChat(s.name) ==> c == 'c';
    assert TOOL_PREFIX <= s.name ==> c == 'e';
    assert IsInvoke(s) ==> c == 'i';
    assert s.name in PHASE_SPANS ==> c == 'M' || c == 'A' || c == 'E';
  }

  type SpanTest = Span -> bool

  const ROOT_TEST: SpanTest := s => IsRoot(s)
  const CHILD_TEST: SpanTest := s => !IsRoot(s)
  const INVOKE_TEST: SpanTest := s => IsInvoke(s)

  function ChatTest(parent: Option<string>): SpanTest {
    (s: Span) => s.parentId == parent && IsChat(s.name)
  }

  function ToolTest(parent: Option<string>): SpanTest {
    (s: Span) => s.parentId == parent && IsTool(s.name)
  }

  // The spans that pass a test, in order.
  function Pick(spans: seq<Span>, test: SpanTest): seq<Span> {
    if spans == [] then []
    else
      var n := |spans| - 1;
      if test(spans[n]) then Pick(spans[..n], test) + [spans[n]] else Pick(spans[..n], test)
  }

  // Picking among spans already picked by a weaker test loses nothing.
  lemma {:induction false} PickAmong(spans: seq<Span>, wide: SpanTest, test: SpanTest)
    requires forall s :: test(s) ==> wide(s)
    ensures Pick(Pick(spans, wide), test) == Pick(spans, test)
  {
    if spans == [] {
    } else {
      var n := |spans| - 1;
      PickAmong(spans[..n], wide, test);
      if wide(spans[n]) {
        var picked := Pick(spans[..n], wide) + [spans[n]];
        assert picked[..|picked| - 1] == Pick(spans[..n], wide);
      }
    }
  }

  // How Python reads an integer from a string; None where it refuses.
  type IntParser = string -> Option<int>

  function Truncate(x: real): int {
    if x >= 0.0 then x.Floor else -((-x).Floor)
  }

  // A nested dict, empty when it is missing; reading on in anything else raises.
  function Section(attrs: Attrs, key: string): Outcome<Attrs> {
    if key !in attrs then Returned(map[])
    else if attrs[key].Node? then Returned(attrs[key].kids)
    else Raised
  }

  // The task id a record takes from its root's metadata: a string or null, anything else is refused.
  function RecordTask(meta: Attrs): Outcome<Option<string>> {
    if "task_id" !in meta then Returned(None)
    else
      match meta["task_id"]
      case Leaf(SNone) => Returned(None)
      case Leaf(SStr(s)) => Returned(Some(s))
      case _ => Raised
  }

  // The same field as a column; dict values become some text.
  function RowTask(meta: Attrs): Scalar {
    if "task_id" !in meta then SNone
    else
      match meta["task_id"]
      case Leaf(v) => v
      case Node(_) => SStr("{...}")
  }

  // A record's task id as the column has it.
  function AsColumn(task: Option<string>): Scalar {
    if task.Some? then SStr(task.value) else SNone
  }

  // A token field as the aggregate reads it: missing, null and empty values are zero, and what is no number raises.
  function TokensParsed(usage: Attrs, key: string, parseInt: IntParser): Outcome<int> {
    if key !in usage then Returned(0)
    else
      match usage[key]
      case Node(kids) => if kids == map[] then Returned(0) else Raised
      case Leaf(SNone) => Returned(0)
      case Leaf(SBool(b)) => Returned(if b then 1 else 0)
      case Leaf(SInt(i)) => Returned(i)
      case Leaf(SReal(x)) => Returned(Truncate(x))
      case Leaf(SStr(s)) =>
        if s == "" then Returned(0)
        else if parseInt(s).Some? then Returned(parseInt(s).value)
        else Raised
  }

  // The same field as a column: what is no number becomes null, a dict some text.
  function TokensScalar(usage: Attrs, key: string, parseInt: IntParser): Scalar {
    if key !in usage then SNone
    else
      match usage[key]
      case Node(_) => SStr("{...}")
      case Leaf(SNone) => SNone
      case Leaf(SBool(b)) => SBool(b)
      case Leaf(SInt(i)) => SInt(i)
      case Leaf(SReal(x)) => SInt(Truncate(x))
      case Leaf(SStr(s)) => if parseInt(s).Some? then SInt(parseInt(s).value) else SNone
  }

  // A published token field as a summand: null counts for nothing.
  function AsCount(v: Scalar): int {
    match v
    case SInt(i) => i
    case SBool(b) => if b then 1 else 0
    case _ => 0
  }

  // Where the aggregate does not raise, the published field carries the same number.
  lemma TokensAgree(usage: Attrs, key: string, parseInt: IntParser)
    requires parseInt("") == None
    requires TokensParsed(usage, key, parseInt).Returned?
    ensures AsCount(TokensScalar(usage, key, parseInt)) == TokensParsed(usage, key, parseInt).value
  {
  }
}

// src/autobench/public_errors.py prints upstream errors for a public bucket; reference/causelib.py
// reads them back.
module PublicErrors {
  import opened Wrappers
  import opened PyStrings

  // ---------------------------------------------------------------- the taxonomy

  datatype Category =
    | BudgetExceeded | ModelNotGranted | ModelAuthFailed | RateLimited | ModelProbeFailed
    | AgentCardUnreachable | McpSessionPoisoned | McpConnectTimeout | McpCallFailed | McpToolError
    | TransportGateway | TaskTimeout | RunTimeout | RunInterrupted | ActionLimit | AgentDefect
    | ToolChoiceUnsupported | SessionTerminated | JudgeCallFailed | WrongAnswer | TimedOut | OtherError

  // _CAUSES, most specific first.
  const CAUSES: seq<Category> := [
    BudgetExceeded, ModelNotGranted, ModelAuthFailed, RateLimited, ModelProbeFailed, AgentCardUnreachable,
    McpSessionPoisoned, McpConnectTimeout, McpCallFailed, McpToolError, TransportGateway, TaskTimeout, RunTimeout,
    RunInterrupted, ActionLimit, AgentDefect, ToolChoiceUnsupported, SessionTerminated, JudgeCallFailed,
    WrongAnswer, TimedOut]

  function Slug(c: Category): string {
    match c
    case BudgetExceeded => "budget_exceeded"
    case ModelNotGranted => "model_not_granted"
    case ModelAuthFailed => "model_auth_failed"
    case RateLimited => "rate_limited"
    case ModelProbeFailed => "model_probe_failed"
    case AgentCardUnreachable => "agent_card_unreachable"
    case McpSessionPoisoned => "mcp_session_poisoned"
    case McpConnectTimeout => "mcp_connect_timeout"
    case McpCallFailed => "mcp_call_failed"
    case McpToolError => "mcp_tool_error"
    case TransportGateway => "transport_gateway"
    case TaskTimeout => "task_timeout"
    case RunTimeout => "run_timeout"
    case RunInterrupted => "run_interrupted"
    case ActionLimit => "action_limit"
    case AgentDefect => "agent_defect"
    case ToolChoiceUnsupported => "tool_choice_unsupported"
    case SessionTerminated => "session_terminated"
    case JudgeCallFailed => "judge_call_failed"
    case WrongAnswer => "wrong_answer"
    case TimedOut => "timed_out"
    case OtherError => "other"
  }

  function Patterns(c: Category): seq<string> {
    match c
    case BudgetExceeded => ["Budget has been exceeded", "ExceededBudget"]
    case ModelNotGranted => ["team not allowed to access model"]
    case ModelAuthFailed => ["is not accessible: litellm.AuthenticationError", "AuthenticationError"]
    case RateLimited => ["RateLimitError", "HTTP 429", "Too Many Requests"]
    case ModelProbeFailed =>
      ["/v1/models", "is unreachable", "did not respond after", "is not accessible: TimeoutError"]
    case AgentCardUnreachable => ["Failed to fetch agent card"]
    case McpSessionPoisoned => ["was poisoned by an earlier stuck call"]
    case McpConnectTimeout => ["MCP connect to"]
    case McpCallFailed => ["Failed to run mcp call", "Failed to execute action"]
    case McpToolError => ["MCP tool error"]
    case TransportGateway =>
      ["peer closed connection", "incomplete chunked", "Bad Gateway", "503", "Network communication error"]
    case TaskTimeout => ["per-task timeout"]
    case RunTimeout => ["run exceeded timeout of"]
    case RunInterrupted => ["run was interrupted before completing"]
    case ActionLimit => ["limit_reached ("]
    case AgentDefect =>
      ["missing assistant content", "cannot pickle", "has no attribute 'model_dump'", "No action with is_message=True"]
    case ToolChoiceUnsupported => ["\"auto\" tool choice"]
    case SessionTerminated => ["Session terminated"]
    case JudgeCallFailed => ["llmclient: HTTP"]
    case WrongAnswer => ["Error executing submit", "does not match"]
    case TimedOut => ["timed out", "TimeoutError", "ReadTimeout", "ConnectTimeout"]
    case OtherError => []
  }

  // ---------------------------------------------------------------- classify and print

  predicate Claims(c: Category, message: string) {
    exists p :: p in Patterns(c) && Contains(message, p)
  }

  type Claimant = (Category, string) -> bool

  const CLAIMS: Claimant := (c, m) => Claims(c, m)

  // The first category of the list that claims the message.
  function FirstOf(causes: seq<Category>, message: string, claims: Claimant): Category {
    if causes == [] then OtherError
    else if claims(causes[0], message) then causes[0]
    else FirstOf(causes[1..], message, claims)
  }

  predicate Blank(message: string) {
    Strip(message, SPACE) == ""
  }

  // Nothing but white space.
  lemma BlankIff(message: string)
    ensures Blank(message) <==> All(message, SPACE)
  {
    StripEmptyIff(message, SPACE);
  }

  function Classify(message: Option<string>): Option<Category> {
    if message.None? || Blank(message.value) then None else Some(FirstOf(CAUSES, message.value, CLAIMS))
  }

  method ClassifyMessage(message: Option<string>) returns (r: Option<Category>)
    ensures r == Classify(message)
  {
    if message.None? || Blank(message.value) {
      return None;
    }
    for i := 0 to |CAUSES|
      invariant FirstOf(CAUSES[i..], message.value, CLAIMS) == FirstOf(CAUSES, message.value, CLAIMS)
    {
      NextCause(CAUSES, i, message.value, CLAIMS);
      if CLAIMS(CAUSES[i], message.value) {
        return Some(CAUSES[i]);
      }
    }
    r := Some(OtherError);
  }

  lemma NextCause(causes: seq<Category>, i: nat, message: string, claims: Claimant)
    requires i < |causes|
    ensures FirstOf(causes[i..], message, claims)
         == if claims(causes[i], message) then causes[i] else FirstOf(causes[i + 1..], message, claims)
  {
    assert causes[i..][1..] == causes[i + 1..];
  }

  // The first claim wins, and only a message nothing claims is unclassified.
  lemma {:induction false} FirstClaimWins(causes: seq<Category>, message: string, claims: Claimant)
    requires OtherError !in causes
    ensures var c := FirstOf(causes, message, claims);
      if c == OtherError then forall i :: 0 <= i < |causes| ==> !claims(causes[i], message)
      else exists i :: 0 <= i < |causes| && causes[i] == c && claims(c, message)
             && forall j :: 0 <= j < i ==> !claims(causes[j], message)
  {
    if causes == [] || claims(causes[0], message) {
    } else {
      FirstClaimWins(causes[1..], message, claims);
      var c := FirstOf(causes[1..], message, claims);
      forall i | 1 <= i < |causes| ensures causes[1..][i - 1] == causes[i] {
      }
      if c != OtherError {
        var i :| 0 <= i < |causes[1..]| && causes[1..][i] == c && claims(c, message)
          && forall j :: 0 <= j < i ==> !claims(causes[1..][j], message);
        assert causes[i + 1] == c;
        forall j | 0 <= j < i + 1 ensures !claims(causes[j], message) {
          assert j > 0 ==> causes[1..][j - 1] == causes[j];
        }
      }
    }
  }

  const HEX_DIGIT: CharTest := c => '0' <= c <= '9' || 'a' <= c <= 'f'
  const SLUG_CHAR: CharTest := c => 'a' <= c <= 'z' || c == '_'

  // sha256 of the normalised message, cut to eight hex digits.
  type Shape = s: string | |s| == 8 && All(s, HEX_DIGIT) witness "00000000"

  type Hash = string -> Shape

  function Printed(slug: string, shape: string): string {
    slug + " (shape " + shape + ")"
  }

  function PublicError(message: Option<string>, hash: Hash): Option<string> {
    var c := Classify(message);
    if c.None? then None else Some(Printed(Slug(c.value), hash(message.value)))
  }

  // ---------------------------------------------------------------- reading it back

  function SlugLength(s: string): nat {
    if s != "" && SLUG_CHAR(s[0]) then 1 + SlugLength(s[1..]) else 0
  }

  // _SCRUBBED, matched against the stripped text.
  function ParseScrubbed(msg: Option<string>): Option<(string, string)> {
    var s := if msg.None? then "" else Strip(msg.value, SPACE);
    var n := SlugLength(s);
    if n >= 1 && |s| == n + 17 && s[n..n + 8] == " (shape " && All(s[n + 8..n + 16], HEX_DIGIT) && s[n + 16] == ')'
    then Some((s[..n], s[n + 8..n + 16]))
    else None
  }

  lemma {:induction false} SlugEnds(slug: string, rest: string)
    requires All(slug, SLUG_CHAR) && rest != "" && !SLUG_CHAR(rest[0])
    ensures SlugLength(slug + rest) == |slug|
  {
    if slug == "" {
      assert slug + rest == rest;
    } else {
      assert SLUG_CHAR(slug[0]) && (slug + rest)[1..] == slug[1..] + rest;
      SlugEnds(slug[1..], rest);
    }
  }

  // Any printed pair is read back as it was printed.
  lemma PrintedParsed(slug: string, shape: Shape)
    requires IsSlug(slug)
    ensures ParseScrubbed(Some(Printed(slug, shape))) == Some((slug, shape))
  {
    var s := Printed(slug, shape);
    var n := |slug|;
    assert SLUG_CHAR(s[0]) && !SPACE(s[0]);
    NotStripped(s, SPACE);
    assert s == slug + (" (shape " + shape + ")");
    SlugEnds(slug, " (shape " + shape + ")");
    assert s[n..n + 8] == " (shape ";
    assert s[n + 8..n + 16] == shape;
  }

  lemma {:induction false} SlugRead(s: string)
    ensures SlugLength(s) <= |s|
    ensures forall i :: 0 <= i < SlugLength(s) ==> 'a' <= s[i] <= 'z' || s[i] == '_'
  {
    if s == "" || !SLUG_CHAR(s[0]) {
    } else {
      SlugRead(s[1..]);
      forall i | 0 <= i < SlugLength(s) ensures 'a' <= s[i] <= 'z' || s[i] == '_' {
        assert i > 0 ==> s[1..][i - 1] == s[i];
      }
    }
  }

  // What is read is, white space around it aside, a printed pair: a word of small letters and
  // underscores, and eight hexadecimal digits.
  lemma ParsedIsPrinted(msg: Option<string>, slug: string, shape: string)
    requires ParseScrubbed(msg) == Some((slug, shape))
    ensures msg.Some? && Strip(msg.value, SPACE) == Printed(slug, shape)
    ensures slug != "" && forall i :: 0 <= i < |slug| ==> 'a' <= slug[i] <= 'z' || slug[i] == '_'
    ensures |shape| == 8 && forall i :: 0 <= i < 8 ==> '0' <= shape[i] <= '9' || 'a' <= shape[i] <= 'f'
  {
    var s := Strip(msg.value, SPACE);
    var n := SlugLength(s);
    SlugRead(s);
    assert s == s[..n] + s[n..n + 8] + s[n + 8..n + 16] + [s[n + 16]];
  }

  predicate IsSlug(s: string) {
    s != "" && All(s, SLUG_CHAR)
  }

  lemma GatewaySlugs()
    ensures IsSlug("budget_exceeded") && IsSlug("model_not_granted") && IsSlug("model_auth_failed")
    ensures IsSlug("rate_limited") && IsSlug("model_probe_failed") && IsSlug("agent_card_unreachable")
  {
  }

  lemma McpSlugs()
    ensures IsSlug("mcp_session_poisoned") && IsSlug("mcp_connect_timeout") && IsSlug("mcp_call_failed")
    ensures IsSlug("mcp_tool_error")
  {
  }

  lemma RunSlugs()
    ensures IsSlug("run_timeout") && IsSlug("run_interrupted") && IsSlug("action_limit") && IsSlug("agent_defect")
    ensures IsSlug("tool_choice_unsupported") && IsSlug("session_terminated")
  {
  }

  lemma TaskSlugs()
    ensures IsSlug("transport_gateway") && IsSlug("task_timeout")
    ensures IsSlug("judge_call_failed") && IsSlug("wrong_answer") && IsSlug("timed_out") && IsSlug("other")
  {
  }

  lemma SlugsAreSlugs(c: Category)
    ensures IsSlug(Slug(c))
  {
    GatewaySlugs();
    McpSlugs();
    RunSlugs();
    TaskSlugs();
  }

  // The published value carries the category and the shape, and nothing of the message besides.
  lemma ScrubRoundTrip(message: string, hash: Hash)
    requires !Blank(message)
    ensures PublicError(Some(message), hash).Some?
    ensures ParseScrubbed(PublicError(Some(message), hash))
         == Some((Slug(Classify(Some(message)).value), hash(message)))
  {
    var c := Classify(Some(message)).value;
    SlugsAreSlugs(c);
    PrintedParsed(Slug(c), hash(message));
  }
}

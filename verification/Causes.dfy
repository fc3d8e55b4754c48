// reference/causelib.py: what the report generators call an error, whether they hold its text or
// the published form of it.
module Causes {
  import opened Wrappers
  import opened PyStrings
  import opened PublicErrors

  // ---------------------------------------------------------------- labels

  // _SLUG_LABELS, by category.
  function Label(c: Category): string {
    match c
    case ModelProbeFailed => "health probe (Bug 3)"
    case TransportGateway => "transport / gateway"
    case AgentCardUnreachable => "transport / gateway"
    case TaskTimeout => "per-task timeout"
    case AgentDefect => "agent (upstream defect)"
    case ToolChoiceUnsupported => "agent (upstream defect)"
    case JudgeCallFailed => "IBAC judge call failed"
    case WrongAnswer => "wrong answer"
    case BudgetExceeded => "gateway budget / entitlement"
    case ModelNotGranted => "gateway budget / entitlement"
    case ModelAuthFailed => "gateway budget / entitlement"
    case RateLimited => "gateway budget / entitlement"
    case McpSessionPoisoned => "MCP unreachable"
    case McpConnectTimeout => "MCP unreachable"
    case McpCallFailed => "MCP unreachable"
    case McpToolError => "MCP unreachable"
    case RunTimeout => "run-level timeout"
    case RunInterrupted => "run interrupted"
    case ActionLimit => "agent action/step limit"
    case SessionTerminated => "session terminated"
    case TimedOut => "task timed out (unattributed)"
    case OtherError => "other"
  }

  const CATEGORIES: seq<Category> := CAUSES + [OtherError]

  function FindSlug(cs: seq<Category>, slug: string): Option<Category> {
    if cs == [] then None else if Slug(cs[0]) == slug then Some(cs[0]) else FindSlug(cs[1..], slug)
  }

  // The label of a slug; an unknown one counts as unclassified.
  function LabelFor(slug: string): string {
    var c := FindSlug(CATEGORIES, slug);
    if c.Some? then Label(c.value) else "other"
  }

  // Length, first and seventh letter tell the slugs apart.
  function Mark(c: Category): (nat, char, char) {
    match c
    case BudgetExceeded => (15, 'b', '_')
    case ModelNotGranted => (17, 'm', 'n')
    case ModelAuthFailed => (17, 'm', 'a')
    case RateLimited => (12, 'r', 'i')
    case ModelProbeFailed => (18, 'm', 'p')
    case AgentCardUnreachable => (22, 'a', 'c')
    case McpSessionPoisoned => (20, 'm', 's')
    case McpConnectTimeout => (19, 'm', 'n')
    case McpCallFailed => (15, 'm', 'l')
    case McpToolError => (14, 'm', 'o')
    case TransportGateway => (17, 't', 'o')
    case TaskTimeout => (12, 't', 'i')
    case RunTimeout => (11, 'r', 'm')
    case RunInterrupted => (15, 'r', 't')
    case ActionLimit => (12, 'a', '_')
    case AgentDefect => (12, 'a', 'd')
    case ToolChoiceUnsupported => (23, 't', 'h')
    case SessionTerminated => (18, 's', 'n')
    case JudgeCallFailed => (17, 'j', 'c')
    case WrongAnswer => (12, 'w', 'a')
    case TimedOut => (9, 't', 'o')
    case OtherError => (5, 'o', ' ')
  }

  lemma SlugMark(c: Category)
    ensures Fits(Slug(c), Mark(c))
  {
  }

  predicate Fits(s: string, mark: (nat, char, char)) {
    |s| == mark.0 && 0 < |s| && s[0] == mark.1 && mark.2 == if |s| > 6 then s[6] else ' '
  }

  lemma MarksTell(c: Category, d: Category)
    requires Mark(c) == Mark(d)
    ensures c == d
  {
  }

  lemma SlugInjective(c: Category, d: Category)
    requires Slug(c) == Slug(d)
    ensures c == d
  {
    SlugMark(c);
    SlugMark(d);
    MarksTell(c, d);
  }

  lemma {:induction false} FindOwn(cs: seq<Category>, c: Category)
    requires c in cs
    ensures FindSlug(cs, Slug(c)) == Some(c)
  {
    if Slug(cs[0]) == Slug(c) {
      SlugInjective(cs[0], c);
    } else {
      FindOwn(cs[1..], c);
    }
  }

  lemma ListedFirst()
    ensures BudgetExceeded in CATEGORIES && ModelNotGranted in CATEGORIES && ModelAuthFailed in CATEGORIES
    ensures RateLimited in CATEGORIES && ModelProbeFailed in CATEGORIES && AgentCardUnreachable in CATEGORIES
    ensures McpSessionPoisoned in CATEGORIES && McpConnectTimeout in CATEGORIES && McpCallFailed in CATEGORIES
    ensures McpToolError in CATEGORIES && TransportGateway in CATEGORIES
  {
    assert CATEGORIES[..11] == [BudgetExceeded, ModelNotGranted, ModelAuthFailed, RateLimited, ModelProbeFailed,
      AgentCardUnreachable, McpSessionPoisoned, McpConnectTimeout, McpCallFailed, McpToolError, TransportGateway];
  }

  lemma ListedLast()
    ensures TaskTimeout in CATEGORIES && RunTimeout in CATEGORIES && RunInterrupted in CATEGORIES
    ensures ActionLimit in CATEGORIES && AgentDefect in CATEGORIES && ToolChoiceUnsupported in CATEGORIES
    ensures SessionTerminated in CATEGORIES && JudgeCallFailed in CATEGORIES && WrongAnswer in CATEGORIES
    ensures TimedOut in CATEGORIES && OtherError in CATEGORIES
  {
    assert CATEGORIES[11..] == [TaskTimeout, RunTimeout, RunInterrupted, ActionLimit, AgentDefect,
      ToolChoiceUnsupported, SessionTerminated, JudgeCallFailed, WrongAnswer, TimedOut, OtherError];
  }

  lemma Listed(c: Category)
    ensures c in CATEGORIES
  {
    ListedFirst();
    ListedLast();
  }

  lemma OwnLabel(c: Category)
    ensures LabelFor(Slug(c)) == Label(c)
  {
    Listed(c);
    FindOwn(CATEGORIES, c);
  }

  // ---------------------------------------------------------------- cause

  // _LEGACY: label and patterns for text published before the scrubbing.
  const LEGACY: seq<(string, seq<string>)> := [
    ("health probe (Bug 3)", ["/v1/models"]),
    ("transport / gateway", ["peer closed connection", "incomplete chunked", "503", "Network communication error"]),
    ("per-task timeout", ["per-task timeout"]),
    ("agent (upstream defect)", ["missing assistant content", "cannot pickle"]),
    ("IBAC judge call failed", ["llmclient: HTTP"]),
    ("wrong answer", ["Error executing submit", "does not match"]),
    ("task timed out (unattributed)", ["timed out"])]

  function LegacyLabel(table: seq<(string, seq<string>)>, text: string): string {
    if table == [] then "other"
    else if exists p :: p in table[0].1 && Contains(text, p) then table[0].0
    else LegacyLabel(table[1..], text)
  }

  // _OTHER_SHAPES
  const OTHER_SHAPES: map<string, string> := map["03deb26f" := "action_limit"]

  function LabelOfPair(slug: string, shape: string): string {
    LabelFor(if slug == "other" && shape in OTHER_SHAPES then OTHER_SHAPES[shape] else slug)
  }

  function Cause(msg: Option<string>): string {
    var parsed := ParseScrubbed(msg);
    if parsed.Some? then
      LabelOfPair(parsed.value.0, parsed.value.1)
    else LegacyLabel(LEGACY, if msg.None? then "" else msg.value)
  }

  lemma OwnPair(c: Category, shape: string)
    ensures LabelOfPair(Slug(c), shape)
         == if c == OtherError && shape in OTHER_SHAPES then Label(ActionLimit) else Label(c)
  {
    OwnLabel(c);
    OwnLabel(ActionLimit);
    if Slug(c) == Slug(OtherError) {
      SlugInjective(c, OtherError);
    }
  }

  // A published error is named after its category; an unclassified one may be named by its shape.
  lemma CauseOfPublished(message: string, hash: Hash)
    requires !Blank(message)
    ensures var c := Classify(Some(message)).value;
      Cause(PublicError(Some(message), hash))
        == if c == OtherError && hash(message) in OTHER_SHAPES then Label(ActionLimit) else Label(c)
  {
    ScrubRoundTrip(message, hash);
    OwnPair(Classify(Some(message)).value, hash(message));
  }

  // ---------------------------------------------------------------- probe failures

  predicate EndsWith(s: string, tail: string) {
    |tail| <= |s| && s[|s| - |tail|..] == tail
  }

  const PROBE := "/v1/models"

  predicate IsProbeFailure(msg: Option<string>) {
    var parsed := ParseScrubbed(msg);
    if parsed.Some? then parsed.value.0 == "model_probe_failed"
    else EndsWith(if msg.None? then "" else msg.value, PROBE)
  }

  // The buckets that are tried before the probe's.
  predicate ClaimedEarlier(message: string) {
    || Claims(BudgetExceeded, message) || Claims(ModelNotGranted, message)
    || Claims(ModelAuthFailed, message) || Claims(RateLimited, message)
  }

  lemma ProbeText(message: string)
    requires EndsWith(message, PROBE)
    ensures !Blank(message) && ParseScrubbed(Some(message)).None? && Claims(ModelProbeFailed, message)
  {
    var n := |message| - |PROBE|;
    assert message == message[..n] + PROBE;
    assert PROBE in Patterns(ModelProbeFailed) by {
      assert Patterns(ModelProbeFailed)[0] == PROBE;
    }
    assert Occurs(message, PROBE, n);
    var last := |message| - 1;
    assert message[last] == PROBE[|PROBE| - 1] == 's' && !SPACE('s');
    var m := StripLeftPart(message, SPACE);
    if m == |message| {
      StripLeftEmpty(message, SPACE);
    }
    assert Strip(message, SPACE) == message[m..];
    assert message[m..][|message[m..]| - 1] == 's';
  }

  // A message that ends like a failed probe counts as one in its own words, and counts as one when
  // published exactly if no earlier bucket claims it.
  lemma ProbeFailureSurvives(message: string, hash: Hash)
    requires EndsWith(message, PROBE)
    ensures IsProbeFailure(Some(message))
    ensures IsProbeFailure(PublicError(Some(message), hash)) <==> !ClaimedEarlier(message)
  {
    ProbeText(message);
    ProbePublished(message, hash);
    FirstFive(message);
  }

  lemma ProbePublished(message: string, hash: Hash)
    requires !Blank(message)
    ensures IsProbeFailure(PublicError(Some(message), hash)) <==> Classify(Some(message)) == Some(ModelProbeFailed)
  {
    ScrubRoundTrip(message, hash);
    var c := Classify(Some(message)).value;
    if Slug(c) == Slug(ModelProbeFailed) {
      SlugInjective(c, ModelProbeFailed);
    }
  }

  lemma FirstFive(message: string)
    requires Claims(ModelProbeFailed, message)
    ensures FirstOf(CAUSES, message, CLAIMS) == ModelProbeFailed <==> !ClaimedEarlier(message)
  {
    FifthOf(CAUSES, message, CLAIMS);
  }

  lemma FifthOf(causes: seq<Category>, message: string, claims: Claimant)
    requires |causes| >= 5 && claims(causes[4], message)
    requires causes[0] != causes[4] && causes[1] != causes[4] && causes[2] != causes[4] && causes[3] != causes[4]
    ensures FirstOf(causes, message, claims) == causes[4]
      <==> && !claims(causes[0], message) && !claims(causes[1], message)
           && !claims(causes[2], message) && !claims(causes[3], message)
  {
    assert causes[0..] == causes;
    NextCause(causes, 0, message, claims);
    NextCause(causes, 1, message, claims);
    NextCause(causes, 2, message, claims);
    NextCause(causes, 3, message, claims);
    NextCause(causes, 4, message, claims);
  }
}

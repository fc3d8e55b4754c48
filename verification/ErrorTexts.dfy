// src/autobench/public_errors.py and reference/causelib.py, told by the texts of the messages.
module ErrorTexts {
  import opened Wrappers
  import opened PyStrings
  import opened PublicErrors
  import opened Causes

  // ---------------------------------------------------------------- what claims a message

  // A bucket claims a message if and only if one of its texts stands in it.
  lemma GatewayTexts(m: string)
    ensures Claims(BudgetExceeded, m) <==> Contains(m, "Budget has been exceeded") || Contains(m, "ExceededBudget")
    ensures Claims(ModelNotGranted, m) <==> Contains(m, "team not allowed to access model")
  {
  }

  lemma AccessTexts(m: string)
    ensures Claims(ModelAuthFailed, m)
      <==> || Contains(m, "is not accessible: litellm.AuthenticationError")
           || Contains(m, "AuthenticationError")
    ensures Claims(RateLimited, m)
      <==> || Contains(m, "RateLimitError")
           || Contains(m, "HTTP 429")
           || Contains(m, "Too Many Requests")
  {
  }

  lemma ProbeTexts(m: string)
    ensures Claims(ModelProbeFailed, m)
      <==> || Contains(m, "/v1/models")
           || Contains(m, "is unreachable")
           || Contains(m, "did not respond after")
           || Contains(m, "is not accessible: TimeoutError")
  {
  }

  lemma ReachingTexts(m: string)
    ensures Claims(AgentCardUnreachable, m) <==> Contains(m, "Failed to fetch agent card")
    ensures Claims(McpSessionPoisoned, m) <==> Contains(m, "was poisoned by an earlier stuck call")
    ensures Claims(McpConnectTimeout, m) <==> Contains(m, "MCP connect to")
  {
  }

  lemma McpTexts(m: string)
    ensures Claims(McpCallFailed, m)
      <==> || Contains(m, "Failed to run mcp call")
           || Contains(m, "Failed to execute action")
    ensures Claims(McpToolError, m) <==> Contains(m, "MCP tool error")
  {
  }

  lemma TransportTexts(m: string)
    ensures Claims(TransportGateway, m)
      <==> || Contains(m, "peer closed connection")
           || Contains(m, "incomplete chunked")
           || Contains(m, "Bad Gateway")
           || Contains(m, "503")
           || Contains(m, "Network communication error")
  {
  }

  lemma DeadlineTexts(m: string)
    ensures Claims(TaskTimeout, m) <==> Contains(m, "per-task timeout")
    ensures Claims(RunTimeout, m) <==> Contains(m, "run exceeded timeout of")
    ensures Claims(RunInterrupted, m) <==> Contains(m, "run was interrupted before completing")
  {
  }

  lemma AgentTexts(m: string)
    ensures Claims(ActionLimit, m) <==> Contains(m, "limit_reached (")
    ensures Claims(AgentDefect, m)
      <==> || Contains(m, "missing assistant content")
           || Contains(m, "cannot pickle")
           || Contains(m, "has no attribute 'model_dump'")
           || Contains(m, "No action with is_message=True")
  {
  }

  lemma OutcomeTexts(m: string)
    ensures Claims(ToolChoiceUnsupported, m) <==> Contains(m, "\"auto\" tool choice")
    ensures Claims(SessionTerminated, m) <==> Contains(m, "Session terminated")
    ensures Claims(JudgeCallFailed, m) <==> Contains(m, "llmclient: HTTP")
  {
  }

  lemma WrongTexts(m: string)
    ensures Claims(WrongAnswer, m) <==> Contains(m, "Error executing submit") || Contains(m, "does not match")
  {
  }

  lemma TimeoutTexts(m: string)
    ensures Claims(TimedOut, m)
      <==> || Contains(m, "timed out")
           || Contains(m, "TimeoutError")
           || Contains(m, "ReadTimeout")
           || Contains(m, "ConnectTimeout")
  {
  }

  // ---------------------------------------------------------------- which bucket gets it

  // The place of a bucket among them: what our own deadlines and the gateway say is named before
  // what is only a symptom of it.
  function Rank(c: Category): nat {
    match c
    case BudgetExceeded => 0
    case ModelNotGranted => 1
    case ModelAuthFailed => 2
    case RateLimited => 3
    case ModelProbeFailed => 4
    case AgentCardUnreachable => 5
    case McpSessionPoisoned => 6
    case McpConnectTimeout => 7
    case McpCallFailed => 8
    case McpToolError => 9
    case TransportGateway => 10
    case TaskTimeout => 11
    case RunTimeout => 12
    case RunInterrupted => 13
    case ActionLimit => 14
    case AgentDefect => 15
    case ToolChoiceUnsupported => 16
    case SessionTerminated => 17
    case JudgeCallFailed => 18
    case WrongAnswer => 19
    case TimedOut => 20
    case OtherError => 21
  }

  lemma RankedFirst(i: nat)
    requires i < 11
    ensures Rank(CAUSES[i]) == i
  {
  }

  lemma RankedLast(i: nat)
    requires 11 <= i < |CAUSES|
    ensures Rank(CAUSES[i]) == i
  {
  }

  lemma Ranked(c: Category)
    ensures |CAUSES| == 21 && OtherError !in CAUSES
    ensures forall i :: 0 <= i < |CAUSES| ==> Rank(CAUSES[i]) == i
    ensures c != OtherError ==> Rank(c) < |CAUSES| && CAUSES[Rank(c)] == c
  {
    forall i | 0 <= i < |CAUSES| ensures Rank(CAUSES[i]) == i {
      if i < 11 {
        RankedFirst(i);
      } else {
        RankedLast(i);
      }
    }
    Listed(c);
    if c != OtherError {
      var i :| 0 <= i < |CATEGORIES| && CATEGORIES[i] == c;
      assert i < |CAUSES|;
    }
  }

  // The first claim of the list decides.
  lemma {:induction false} FirstIs(causes: seq<Category>, message: string, claims: Claimant, i: nat)
    requires i < |causes| && claims(causes[i], message) && forall j :: 0 <= j < i ==> !claims(causes[j], message)
    ensures FirstOf(causes, message, claims) == causes[i]
  {
    if i == 0 {
    } else {
      forall j | 0 <= j < i - 1 ensures !claims(causes[1..][j], message) {
        assert causes[1..][j] == causes[j + 1];
      }
      assert causes[1..][i - 1] == causes[i];
      FirstIs(causes[1..], message, claims, i - 1);
    }
  }

  type Ranking = Category -> nat

  ghost predicate Ranks(causes: seq<Category>, rank: Ranking) {
    && OtherError !in causes && rank(OtherError) == |causes|
    && (forall i :: 0 <= i < |causes| ==> rank(causes[i]) == i)
    && forall d :: d != OtherError ==> rank(d) < |causes| && causes[rank(d)] == d
  }

  // The bucket that gets the message claims it, and none before it does.
  lemma GotByRank(causes: seq<Category>, message: string, claims: Claimant, rank: Ranking)
    requires Ranks(causes, rank)
    ensures var got := FirstOf(causes, message, claims);
      (got != OtherError ==> claims(got, message)) && forall d :: rank(d) < rank(got) ==> !claims(d, message)
  {
    var got := FirstOf(causes, message, claims);
    FirstClaimWins(causes, message, claims);
    if got != OtherError {
      var i :| 0 <= i < |causes| && causes[i] == got && forall j :: 0 <= j < i ==> !claims(causes[j], message);
      assert i == rank(got);
    }
    forall d | rank(d) < rank(got) ensures !claims(d, message) {
      assert causes[rank(d)] == d;
    }
  }

  lemma FirstByRank(causes: seq<Category>, message: string, claims: Claimant, rank: Ranking, c: Category)
    requires Ranks(causes, rank)
    ensures FirstOf(causes, message, claims) == c
      <==> (c != OtherError ==> claims(c, message)) && forall d :: rank(d) < rank(c) ==> !claims(d, message)
  {
    var got := FirstOf(causes, message, claims);
    GotByRank(causes, message, claims, rank);
    if (c != OtherError ==> claims(c, message)) && forall d :: rank(d) < rank(c) ==> !claims(d, message) {
      assert rank(got) >= rank(c) >= rank(got);
    }
  }

  const RANK: Ranking := (c: Category) => Rank(c)

  lemma CausesRanked()
    ensures Ranks(CAUSES, RANK)
  {
    forall d ensures d != OtherError ==> RANK(d) < |CAUSES| && CAUSES[RANK(d)] == d {
      Ranked(d);
    }
    Ranked(OtherError);
  }

  // A message that says something goes to a bucket if and only if that claims it and none of a lower
  // place does; it is unclassified if and only if none claims it.
  lemma BucketIff(message: string, c: Category)
    requires !Blank(message)
    ensures Classify(Some(message)) == Some(c)
      <==> (c != OtherError ==> CLAIMS(c, message)) && forall d :: RANK(d) < RANK(c) ==> !CLAIMS(d, message)
  {
    CausesRanked();
    FirstByRank(CAUSES, message, CLAIMS, RANK, c);
  }

  // So a claim keeps a message out of all later buckets.
  lemma Outranked(message: string, c: Category, d: Category)
    requires Claims(d, message) && Rank(d) < Rank(c)
    ensures Classify(Some(message)) != Some(c)
  {
    assert CLAIMS(d, message) && RANK(d) < RANK(c);
    if !Blank(message) {
      BucketIff(message, c);
    }
  }

  // The judge's failure begins like a wrong answer and is none.
  lemma JudgeIsNoAnswer(message: string)
    requires Contains(message, "llmclient: HTTP")
    ensures Classify(Some(message)) != Some(WrongAnswer)
  {
    assert Claims(JudgeCallFailed, message) by {
      OutcomeTexts(message);
    }
    Outranked(message, WrongAnswer, JudgeCallFailed);
  }

  // What only timed out is what nothing else explains.
  lemma TimedOutIsLast(message: string, c: Category)
    requires Classify(Some(message)) == Some(TimedOut)
    ensures Claims(c, message) <==> c == TimedOut
  {
    BucketIff(message, TimedOut);
    assert CLAIMS(TimedOut, message);
    NoTexts(message);
    if Claims(c, message) && Rank(c) < Rank(TimedOut) {
      Outranked(message, TimedOut, c);
    }
  }

  lemma NoTexts(message: string)
    ensures !Claims(OtherError, message)
  {
  }

  // ---------------------------------------------------------------- the two eras of a report

  // The buckets the lines of the older table stand for.
  const OLDER: seq<Category> :=
    [ModelProbeFailed, TransportGateway, TaskTimeout, AgentDefect, JudgeCallFailed, WrongAnswer, TimedOut]

  type Line = (string, seq<string>)

  // The line has the label of the bucket, and its texts are among those of the bucket.
  predicate Agrees(line: Line, c: Category) {
    line.0 == Label(c) && forall p :: p in line.1 ==> p in Patterns(c)
  }

  lemma EarlyLinesAgree()
    ensures Agrees(LEGACY[0], ModelProbeFailed) && Agrees(LEGACY[1], TransportGateway)
  {
  }

  lemma MiddleLinesAgree()
    ensures Agrees(LEGACY[2], TaskTimeout) && Agrees(LEGACY[3], AgentDefect)
  {
  }

  lemma LateLinesAgree()
    ensures Agrees(LEGACY[4], JudgeCallFailed) && Agrees(LEGACY[5], WrongAnswer) && Agrees(LEGACY[6], TimedOut)
  {
  }

  // Line by line the two tables agree, and in the same order.
  lemma TablesAgree()
    ensures |LEGACY| == |OLDER| && forall i :: 0 <= i < |OLDER| ==> Agrees(LEGACY[i], OLDER[i])
    ensures forall i, j :: 0 <= i < j < |OLDER| ==> Rank(OLDER[i]) < Rank(OLDER[j])
  {
    EarlyLinesAgree();
    MiddleLinesAgree();
    LateLinesAgree();
  }

  predicate Matches(line: Line, text: string) {
    exists p :: p in line.1 && Contains(text, p)
  }

  // The texts of the older table.
  lemma EarlyLineTexts(m: string)
    ensures Matches(LEGACY[0], m) <==> Contains(m, "/v1/models")
    ensures Matches(LEGACY[1], m)
      <==> || Contains(m, "peer closed connection") || Contains(m, "incomplete chunked")
           || Contains(m, "503") || Contains(m, "Network communication error")
  {
  }

  lemma LateLineTexts(m: string)
    ensures Matches(LEGACY[2], m) <==> Contains(m, "per-task timeout")
    ensures Matches(LEGACY[3], m) <==> Contains(m, "missing assistant content") || Contains(m, "cannot pickle")
    ensures Matches(LEGACY[4], m) <==> Contains(m, "llmclient: HTTP")
    ensures Matches(LEGACY[5], m) <==> Contains(m, "Error executing submit") || Contains(m, "does not match")
    ensures Matches(LEGACY[6], m) <==> Contains(m, "timed out")
  {
  }

  lemma {:induction false} FirstLine(table: seq<Line>, text: string, i: nat)
    requires i < |table| && Matches(table[i], text) && forall j :: 0 <= j < i ==> !Matches(table[j], text)
    ensures LegacyLabel(table, text) == table[i].0
  {
    if i == 0 {
    } else {
      assert !Matches(table[0], text);
      forall j | 0 <= j < i - 1 ensures !Matches(table[1..][j], text) {
        assert table[1..][j] == table[j + 1];
      }
      FirstLine(table[1..], text, i - 1);
    }
  }

  lemma MatchIsClaim(line: Line, c: Category, message: string)
    requires Agrees(line, c) && Matches(line, message)
    ensures Claims(c, message)
  {
    var p :| p in line.1 && Contains(message, p);
    assert p in Patterns(c);
  }

  lemma NoEarlierLine(message: string, i: nat, j: nat)
    requires j < i < |OLDER| && |OLDER| == |LEGACY| && Agrees(LEGACY[j], OLDER[j]) && Rank(OLDER[j]) < Rank(OLDER[i])
    requires Classify(Some(message)) == Some(OLDER[i])
    ensures !Matches(LEGACY[j], message)
  {
    if Matches(LEGACY[j], message) {
      MatchIsClaim(LEGACY[j], OLDER[j], message);
      Outranked(message, OLDER[i], OLDER[j]);
    }
  }

  lemma OlderLabel(message: string, i: nat)
    requires i < |OLDER| && i < |LEGACY| && Matches(LEGACY[i], message)
    requires Classify(Some(message)) == Some(OLDER[i])
    ensures LegacyLabel(LEGACY, message) == Label(OLDER[i])
  {
    TablesAgree();
    forall j | 0 <= j < i ensures !Matches(LEGACY[j], message) {
      NoEarlierLine(message, i, j);
    }
    FirstLine(LEGACY, message, i);
  }

  lemma NewerLabel(message: string, c: Category, hash: Hash)
    requires Classify(Some(message)) == Some(c) && c != OtherError
    ensures Cause(PublicError(Some(message), hash)) == Label(c)
  {
    CauseOfPublished(message, hash);
  }

  // A message of a bucket the older table knew, in words it knew, has one label in either era.
  lemma ErasAgree(message: string, i: nat, hash: Hash)
    requires i < |OLDER| && i < |LEGACY| && Matches(LEGACY[i], message)
    requires Classify(Some(message)) == Some(OLDER[i]) && ParseScrubbed(Some(message)).None?
    ensures Cause(Some(message)) == Label(OLDER[i]) == Cause(PublicError(Some(message), hash))
  {
    OlderLabel(message, i);
    assert OtherError !in OLDER && OLDER[i] in OLDER;
    NewerLabel(message, OLDER[i], hash);
  }

  // ---------------------------------------------------------------- which buckets share a label

  // What a report adds up under one label.
  datatype Family =
    | Gateway | Mcp | Transport | Agent | Probe | Deadline | Judge | Answer | RunLimit | Interrupted | Steps
    | Session | Unattributed | Unclassified

  function FamilyOf(c: Category): Family {
    match c
    case BudgetExceeded | ModelNotGranted | ModelAuthFailed | RateLimited => Gateway
    case McpSessionPoisoned | McpConnectTimeout | McpCallFailed | McpToolError => Mcp
    case TransportGateway | AgentCardUnreachable => Transport
    case AgentDefect | ToolChoiceUnsupported => Agent
    case ModelProbeFailed => Probe
    case TaskTimeout => Deadline
    case JudgeCallFailed => Judge
    case WrongAnswer => Answer
    case RunTimeout => RunLimit
    case RunInterrupted => Interrupted
    case ActionLimit => Steps
    case SessionTerminated => Session
    case TimedOut => Unattributed
    case OtherError => Unclassified
  }

  // Length and seventh letter tell the labels apart.
  function LabelMark(f: Family): (nat, char) {
    match f
    case Gateway => (28, 'y')
    case Mcp => (15, 'r')
    case Transport => (19, 'o')
    case Agent => (23, '(')
    case Probe => (20, ' ')
    case Deadline => (16, 's')
    case Judge => (22, 'u')
    case Answer => (12, 'a')
    case RunLimit => (17, 'v')
    case Interrupted => (15, 't')
    case Steps => (23, 'a')
    case Session => (18, 'n')
    case Unattributed => (29, 'i')
    case Unclassified => (5, ' ')
  }

  lemma MarksApart(f: Family, g: Family)
    requires LabelMark(f) == LabelMark(g)
    ensures f == g
  {
  }

  predicate Marked(text: string, mark: (nat, char)) {
    |text| == mark.0 && mark.1 == if |text| > 6 then text[6] else ' '
  }

  lemma SharedLabelMarked(c: Category)
    requires var f := FamilyOf(c); f.Gateway? || f.Mcp? || f.Transport? || f.Agent?
    ensures Marked(Label(c), LabelMark(FamilyOf(c)))
  {
  }

  lemma EarlyLabelMarked(c: Category)
    requires var f := FamilyOf(c); f.Probe? || f.Deadline? || f.Judge? || f.Answer? || f.RunLimit?
    ensures Marked(Label(c), LabelMark(FamilyOf(c)))
  {
  }

  lemma LateLabelMarked(c: Category)
    requires var f := FamilyOf(c); f.Interrupted? || f.Steps? || f.Session? || f.Unattributed? || f.Unclassified?
    ensures Marked(Label(c), LabelMark(FamilyOf(c)))
  {
  }

  lemma LabelMarked(c: Category)
    ensures Marked(Label(c), LabelMark(FamilyOf(c)))
  {
    match FamilyOf(c)
    case Gateway | Mcp | Transport | Agent => SharedLabelMarked(c);
    case Probe | Deadline | Judge | Answer | RunLimit => EarlyLabelMarked(c);
    case Interrupted | Steps | Session | Unattributed | Unclassified => LateLabelMarked(c);
  }

  lemma FamilyLabelled(c: Category, d: Category)
    requires FamilyOf(c) == FamilyOf(d)
    ensures Label(c) == Label(d)
  {
  }

  // Buckets share a label exactly when they are of one family; what nothing claims is alone with its own.
  lemma LabelsShared(c: Category, d: Category)
    ensures Label(c) == Label(d) <==> FamilyOf(c) == FamilyOf(d)
  {
    if Label(c) == Label(d) {
      LabelMarked(c);
      LabelMarked(d);
      MarksApart(FamilyOf(c), FamilyOf(d));
    } else if FamilyOf(c) == FamilyOf(d) {
      FamilyLabelled(c, d);
    }
  }
}

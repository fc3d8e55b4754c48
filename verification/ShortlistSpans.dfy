// reference/shortlistlib.py: which spans reach the counters, and under which role their tokens do.
module ShortlistSpans {
  import opened Sequences
  import opened Shortlist
  import opened TaskGroups
  import opened Wrappers

  // ---------------------------------------------------------------- spans that are no turn

  // A capability probe, a chat the gateway failed, or neither chat nor tool call.
  predicate NoTurn(s: Span) {
    s.maxTokens == Some(1) || (s.kind == Chat && s.errored) || s.kind == OtherKind
  }

  lemma {:induction false} UsableConcat(a: seq<Span>, b: seq<Span>)
    ensures UsableOf(a + b) == UsableOf(a) + UsableOf(b)
    decreases |b|
  {
    if b == [] {
      assert a + b == a;
    } else {
      var n := |b| - 1;
      assert (a + b)[..|a + b| - 1] == a + b[..n];
      UsableConcat(a, b[..n]);
    }
  }

  // A span is among those that are used if and only if it is a turn.
  lemma UsableIff(a: seq<Span>, s: Span, b: seq<Span>)
    ensures UsableOf(a + [s] + b) == UsableOf(a) + (if NoTurn(s) then [] else [s]) + UsableOf(b)
  {
    UsableConcat(a + [s], b);
    UsableConcat(a, [s]);
    assert [s][..0] == [];
  }

  // One that is not leaves the classification of its task as it is.
  lemma NoTurnIgnored(a: seq<Span>, s: Span, b: seq<Span>)
    requires NoTurn(s)
    ensures RolesOf(a + [s] + b) == RolesOf(a + b) && TallyOf(a + [s] + b) == TallyOf(a + b)
  {
    UsableIff(a, s, b);
    UsableConcat(a, b);
    assert UsableOf(a) + [] + UsableOf(b) == UsableOf(a + b);
  }

  // ---------------------------------------------------------------- in the rows of a leg

  type Teller = seq<Span> -> Totals

  const TALLY: Teller := (rows: seq<Span>) => TallyOf(rows)

  // The groups told one by one, by any such function.
  function Told(groups: seq<TaskGroup>, tell: Teller): Totals {
    if groups == [] then NEW else Plus(tell(groups[0].rows), Told(groups[1..], tell))
  }

  lemma {:induction false} TalliesTold(groups: seq<TaskGroup>)
    ensures GroupsTally(groups) == Told(groups, TALLY)
  {
    if groups == [] {
    } else {
      TalliesTold(groups[1..]);
    }
  }

  lemma ToldFirst(g: TaskGroup, groups: seq<TaskGroup>, tell: Teller)
    ensures Told([g] + groups, tell) == Plus(tell(g.rows), Told(groups, tell))
  {
    assert ([g] + groups)[1..] == groups;
  }

  // One more row: what is told of its task is replaced, every other stays.
  lemma {:induction false} ToldNext(groups: seq<TaskGroup>, task: Option<string>, s: Span, tell: Teller)
    requires tell([]) == NEW
    ensures Plus(Told(AddRow(groups, task, s), tell), tell(RowsFor(groups, task)))
         == Plus(Told(groups, tell), tell(RowsFor(groups, task) + [s]))
  {
    if groups == [] {
      ToldNew(groups, task, s, tell);
    } else if groups[0].task == task {
      ToldOwn(groups, s, tell);
    } else {
      ToldNext(groups[1..], task, s, tell);
      ToldOther(groups, task, s, tell);
    }
  }

  lemma ToldNew(groups: seq<TaskGroup>, task: Option<string>, s: Span, tell: Teller)
    requires groups == [] && tell([]) == NEW
    ensures Plus(Told(AddRow(groups, task, s), tell), tell(RowsFor(groups, task)))
         == Plus(Told(groups, tell), tell(RowsFor(groups, task) + [s]))
  {
    var g := Group(task, [s]);
    assert AddRow(groups, task, s) == [g] + groups && RowsFor(groups, task) + [s] == g.rows;
    ToldFirst(g, groups, tell);
    Exchanged(tell(g.rows), NEW, NEW);
  }

  lemma ToldOwn(groups: seq<TaskGroup>, s: Span, tell: Teller)
    requires groups != []
    ensures Plus(Told(AddRow(groups, groups[0].task, s), tell), tell(RowsFor(groups, groups[0].task)))
         == Plus(Told(groups, tell), tell(RowsFor(groups, groups[0].task) + [s]))
  {
    var g, rest := groups[0], groups[1..];
    ToldFirst(Group(g.task, g.rows + [s]), rest, tell);
    Exchanged(tell(g.rows + [s]), tell(g.rows), Told(rest, tell));
  }

  lemma ToldOther(groups: seq<TaskGroup>, task: Option<string>, s: Span, tell: Teller)
    requires groups != [] && groups[0].task != task
    requires Plus(Told(AddRow(groups[1..], task, s), tell), tell(RowsFor(groups[1..], task)))
          == Plus(Told(groups[1..], tell), tell(RowsFor(groups[1..], task) + [s]))
    ensures Plus(Told(AddRow(groups, task, s), tell), tell(RowsFor(groups, task)))
         == Plus(Told(groups, tell), tell(RowsFor(groups, task) + [s]))
  {
    var g, rest := groups[0], groups[1..];
    ToldFirst(g, AddRow(rest, task, s), tell);
    Carried(tell(g.rows), Told(AddRow(rest, task, s), tell), Told(rest, tell),
            tell(RowsFor(rest, task)), tell(RowsFor(rest, task) + [s]));
  }

  lemma Carried(a: Totals, b: Totals, c: Totals, d: Totals, e: Totals)
    ensures Plus(b, d) == Plus(c, e) ==> Plus(Plus(a, b), d) == Plus(Plus(a, c), e)
  {
    PlusAssoc(a, b, d);
    PlusAssoc(a, c, e);
  }

  lemma Exchanged(a: Totals, b: Totals, c: Totals)
    ensures Plus(Plus(a, c), b) == Plus(Plus(b, c), a) && Plus(a, NEW) == a
  {
  }

  lemma TallyNext(groups: seq<TaskGroup>, task: Option<string>, s: Span)
    ensures Plus(GroupsTally(AddRow(groups, task, s)), TallyOf(RowsFor(groups, task)))
         == Plus(GroupsTally(groups), TallyOf(RowsFor(groups, task) + [s]))
  {
    TalliesTold(AddRow(groups, task, s));
    TalliesTold(groups);
    assert TALLY([]) == NEW;
    ToldNext(groups, task, s, TALLY);
  }

  lemma RowsTallyNext(rows: seq<Span>, s: Span)
    ensures var own := OfTask(rows, TASK_OF, s.task);
      Plus(RowsTally(rows + [s]), TallyOf(own)) == Plus(RowsTally(rows), TallyOf(own + [s]))
  {
    assert (rows + [s])[..|rows|] == rows;
    GroupedExactly(rows, TASK_OF, s.task);
    TallyNext(Grouped(rows, TASK_OF), s.task, s);
  }

  lemma {:induction false} OfTaskConcat(a: seq<Span>, b: seq<Span>, task: Option<string>)
    ensures OfTask(a + b, TASK_OF, task) == OfTask(a, TASK_OF, task) + OfTask(b, TASK_OF, task)
    decreases |b|
  {
    if b == [] {
      assert a + b == a;
    } else {
      var n := |b| - 1;
      assert (a + b)[..|a + b| - 1] == a + b[..n];
      OfTaskConcat(a, b[..n], task);
    }
  }

  // The spans of any task are used alike.
  lemma SameOfTask(a: seq<Span>, s: Span, b: seq<Span>, task: Option<string>, behind: seq<Span>)
    requires NoTurn(s)
    ensures TallyOf(OfTask(a + [s] + b, TASK_OF, task) + behind) == TallyOf(OfTask(a + b, TASK_OF, task) + behind)
  {
    var x, y := OfTask(a, TASK_OF, task), OfTask(b, TASK_OF, task);
    OfTaskAround(a, s, b, task);
    if s.task == task {
      NoTurnIgnored(x, s, y + behind);
      RegroupFour(x, [s], y, behind);
      Regroup(x + [s], y, behind);
      Regroup(x, y, behind);
    }
  }

  lemma OfTaskAround(a: seq<Span>, s: Span, b: seq<Span>, task: Option<string>)
    ensures OfTask(a + b, TASK_OF, task) == OfTask(a, TASK_OF, task) + OfTask(b, TASK_OF, task)
    ensures OfTask(a + [s] + b, TASK_OF, task)
         == if s.task == task then OfTask(a, TASK_OF, task) + [s] + OfTask(b, TASK_OF, task)
            else OfTask(a, TASK_OF, task) + OfTask(b, TASK_OF, task)
  {
    OfTaskConcat(a + [s], b, task);
    OfTaskConcat(a, b, task);
    assert (a + [s])[..|a|] == a;
  }

  lemma Cancelled(a: Totals, b: Totals, c: Totals, d: Totals, e: Totals)
    requires Plus(a, c) == Plus(b, d) && Plus(e, c) == Plus(b, d)
    ensures a == e
  {
  }

  // Wherever it stands in the rows of a leg, a span that is no turn changes no counter.
  lemma {:induction false} NoTurnCountsNothing(a: seq<Span>, s: Span, b: seq<Span>)
    requires NoTurn(s)
    ensures RowsTally(a + [s] + b) == RowsTally(a + b)
    decreases |b|
  {
    if b == [] {
      assert a + [s] + b == a + [s] && a + b == a;
      RowsTallyNext(a, s);
      SameOfTask(a, s, [], s.task, []);
      var own := OfTask(a, TASK_OF, s.task);
      NoTurnIgnored(own, s, []);
      assert own + [s] + [] == own + [s] && own + [] == own;
      Cancelled(RowsTally(a + [s]), RowsTally(a), TallyOf(own), TallyOf(own + [s]), RowsTally(a));
    } else {
      var n := |b| - 1;
      var x, y, last := a + [s] + b[..n], a + b[..n], b[n];
      assert a + [s] + b == x + [last] && a + b == y + [last];
      NoTurnCountsNothing(a, s, b[..n]);
      RowsTallyNext(x, last);
      RowsTallyNext(y, last);
      SameOfTask(a, s, b[..n], last.task, []);
      SameOfTask(a, s, b[..n], last.task, [last]);
      var p, q := OfTask(x, TASK_OF, last.task), OfTask(y, TASK_OF, last.task);
      assert p + [] == p && q + [] == q;
      Cancelled(RowsTally(x + [last]), RowsTally(x), TallyOf(p), TallyOf(p + [last]), RowsTally(y + [last]));
    }
  }

  // ---------------------------------------------------------------- tokens by role

  // The chats that another chat follows at once.
  function Followed(q: seq<Span>): seq<Span> {
    if q == [] then []
    else if ChatPair(q, 0) then [q[0]] + Followed(q[1..])
    else Followed(q[1..])
  }

  const INPUT: Measure := (s: Span) => match s.inputTokens case Some(n) => n case None => 0
  const OUTPUT: Measure := (s: Span) => match s.outputTokens case Some(n) => n case None => 0

  // The tokens of the selections are those of these chats, and those of the assistant calls the others'.
  lemma {:induction false} TokensByRole(q: seq<Span>)
    ensures var t := OfRoles(RolesIn(q));
      && t.sel == |Followed(q)|
      && t.selIn == Sum(Followed(q), INPUT) && t.selOut == Sum(Followed(q), OUTPUT)
      && t.asIn == Sum(q, CHAT_INPUT) - Sum(Followed(q), INPUT)
      && t.asOut == Sum(q, CHAT_OUTPUT) - Sum(Followed(q), OUTPUT)
  {
    if q == [] {
    } else {
      TokensByRole(q[1..]);
      RolesConserve(q);
      if q[0].kind.Chat? {
        assert RolesIn(q)[1..] == RolesIn(q[1..]);
        assert ([q[0]] + Followed(q[1..]))[1..] == Followed(q[1..]);
      }
    }
  }

  // ---------------------------------------------------------------- tasks

  lemma {:induction false} RolesOfChats(q: seq<Span>)
    ensures RolesIn(q) == [] <==> forall s :: s in q ==> s.kind != Chat
  {
    if q == [] {
    } else {
      RolesOfChats(q[1..]);
      assert q == [q[0]] + q[1..];
    }
  }

  // A task counts as one if a chat of it is a turn, and else not at all.
  lemma TaskCounted(spans: seq<Span>)
    ensures if exists s :: s in spans && s.kind == Chat && !NoTurn(s) then TallyOf(spans).tasks == 1
            else TallyOf(spans) == NEW
  {
    var u := UsableOf(spans);
    RolesOfChats(Sorted(u));
    RolesConserve(Sorted(u));
    UsableMembers(spans);
    forall s ensures s in Sorted(u) <==> s in u {
      assert s in Sorted(u) <==> s in multiset(Sorted(u));
      assert s in u <==> s in multiset(u);
    }
  }

  lemma {:induction false} UsableMembers(spans: seq<Span>)
    ensures forall s :: s in UsableOf(spans) <==> s in spans && !NoTurn(s)
  {
    if spans == [] {
    } else {
      var n := |spans| - 1;
      UsableMembers(spans[..n]);
      assert spans == spans[..n] + [spans[n]];
    }
  }
}

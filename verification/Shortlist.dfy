// reference/shortlistlib.py: which chat spans of a task select tools and which act, and the
// counters folded from them.
module Shortlist {
  import opened TaskGroups
  import opened Wrappers

  datatype Kind = Chat | Tool | OtherKind

  // A span row.  start: the place of its start time among all start times, 0 when it has none.
  datatype Span = Span(
    task: Option<string>,
    kind: Kind,
    start: nat,
    maxTokens: Option<int>,
    errored: bool,
    inputTokens: Option<int>,
    outputTokens: Option<int>)

  // Not a probe, not a failed chat, and a chat or a tool call at all.
  predicate Usable(s: Span) {
    s.kind != OtherKind && s.maxTokens != Some(1) && !(s.kind.Chat? && s.errored)
  }

  function UsableOf(spans: seq<Span>): seq<Span> {
    if spans == [] then []
    else
      var n := |spans| - 1;
      if Usable(spans[n]) then UsableOf(spans[..n]) + [spans[n]] else UsableOf(spans[..n])
  }

  // ---------------------------------------------------------------- the order of start times

  predicate InOrder(q: seq<Span>) {
    forall i, j :: 0 <= i < j < |q| ==> q[i].start <= q[j].start
  }

  // After every element that does not start later.
  function Insert(q: seq<Span>, s: Span): (r: seq<Span>)
    ensures multiset(r) == multiset(q) + multiset{s}
  {
    if q == [] || q[|q| - 1].start <= s.start then q + [s]
    else
      var n := |q| - 1;
      assert q == q[..n] + [q[n]];
      Insert(q[..n], s) + [q[n]]
  }

  function Sorted(spans: seq<Span>): (r: seq<Span>)
    ensures multiset(r) == multiset(spans)
  {
    if spans == [] then []
    else
      var n := |spans| - 1;
      assert spans == spans[..n] + [spans[n]];
      Insert(Sorted(spans[..n]), spans[n])
  }

  lemma InsertMembers(q: seq<Span>, s: Span, t: Span)
    requires t in Insert(q, s)
    ensures t == s || t in q
  {
    assert t in multiset(q) + multiset{s};
  }

  lemma {:induction false} InsertInOrder(q: seq<Span>, s: Span)
    requires InOrder(q)
    ensures InOrder(Insert(q, s))
  {
    if q == [] || q[|q| - 1].start <= s.start {
    } else {
      var n := |q| - 1;
      var front := Insert(q[..n], s);
      assert InOrder(front) by {
        InsertInOrder(q[..n], s);
      }
      forall i | 0 <= i < |front| ensures front[i].start <= q[n].start {
        InsertMembers(q[..n], s, front[i]);
      }
      assert Insert(q, s) == front + [q[n]];
    }
  }

  lemma {:induction false} SortedInOrder(spans: seq<Span>)
    ensures InOrder(Sorted(spans))
  {
    if spans == [] {
    } else {
      SortedInOrder(spans[..|spans| - 1]);
      InsertInOrder(Sorted(spans[..|spans| - 1]), spans[|spans| - 1]);
    }
  }

  // The spans that start at one time, in the order they are in.
  function At(q: seq<Span>, start: nat): seq<Span> {
    if q == [] then []
    else
      var n := |q| - 1;
      if q[n].start == start then At(q[..n], start) + [q[n]] else At(q[..n], start)
  }

  lemma AtBehind(q: seq<Span>, s: Span, start: nat)
    ensures At(q + [s], start) == if s.start == start then At(q, start) + [s] else At(q, start)
  {
    assert (q + [s])[..|q|] == q;
  }

  // Putting a span in its place puts it behind the others of its time, and moves none of another time.
  lemma {:induction false} InsertKeepsTies(q: seq<Span>, s: Span, start: nat)
    requires InOrder(q)
    ensures At(Insert(q, s), start) == if s.start == start then At(q, start) + [s] else At(q, start)
  {
    if q == [] || q[|q| - 1].start <= s.start {
      AtBehind(q, s, start);
    } else {
      var n := |q| - 1;
      assert InOrder(q[..n]);
      InsertKeepsTies(q[..n], s, start);
      AtBehind(Insert(q[..n], s), q[n], start);
    }
  }

  // The sort is stable: spans with the same start stay in the order they came in.
  lemma {:induction false} SortKeepsTies(spans: seq<Span>, start: nat)
    ensures At(Sorted(spans), start) == At(spans, start)
  {
    if spans == [] {
    } else {
      var n := |spans| - 1;
      SortKeepsTies(spans[..n], start);
      SortedInOrder(spans[..n]);
      InsertKeepsTies(Sorted(spans[..n]), spans[n], start);
    }
  }

  // ---------------------------------------------------------------- roles

  datatype Role = Sel | As

  // The role of the chat that comes first: it selects when another chat follows at once.
  function FirstRole(q: seq<Span>): Role
    requires q != []
  {
    if |q| > 1 && q[1].kind.Chat? then Sel else As
  }

  function RolesIn(q: seq<Span>): seq<(Span, Role)> {
    if q == [] then []
    else if q[0].kind.Chat? then [(q[0], FirstRole(q))] + RolesIn(q[1..])
    else RolesIn(q[1..])
  }

  function RolesOf(spans: seq<Span>): seq<(Span, Role)> {
    RolesIn(Sorted(UsableOf(spans)))
  }

  method Roles(spans: seq<Span>) returns (out: seq<(Span, Role)>)
    ensures out == RolesOf(spans)
  {
    var usable: seq<Span> := [];
    for n := 0 to |spans|
      invariant usable == UsableOf(spans[..n])
    {
      assert spans[..n + 1][..n] == spans[..n];
      if Usable(spans[n]) {
        usable := usable + [spans[n]];
      }
    }
    assert spans[..|spans|] == spans;
    var q := Sorted(usable);
    out := [];
    for i := 0 to |q|
      invariant out + RolesIn(q[i..]) == RolesIn(q)
    {
      assert q[i..][1..] == q[i + 1..];
      if q[i].kind.Chat? {
        var next := if i + 1 < |q| then Some(q[i + 1]) else None;
        out := out + [(q[i], if next.Some? && next.value.kind.Chat? then Sel else As)];
      }
    }
  }

  // ---------------------------------------------------------------- sums over spans

  type Measure = Span -> int

  function Sum(q: seq<Span>, m: Measure): int {
    if q == [] then 0 else m(q[0]) + Sum(q[1..], m)
  }

  lemma {:induction false} SumConcat(a: seq<Span>, b: seq<Span>, m: Measure)
    ensures Sum(a + b, m) == Sum(a, m) + Sum(b, m)
  {
    if a == [] {
      assert a + b == b;
    } else {
      assert (a + b)[1..] == a[1..] + b;
      SumConcat(a[1..], b, m);
    }
  }

  lemma SumLast(q: seq<Span>, m: Measure)
    requires q != []
    ensures Sum(q, m) == Sum(q[..|q| - 1], m) + m(q[|q| - 1])
  {
    var n := |q| - 1;
    assert q == q[..n] + [q[n]];
    SumConcat(q[..n], [q[n]], m);
  }

  lemma {:induction false} InsertSum(q: seq<Span>, s: Span, m: Measure)
    ensures Sum(Insert(q, s), m) == Sum(q, m) + m(s)
  {
    SumConcat(q, [s], m);
    if q == [] || q[|q| - 1].start <= s.start {
    } else {
      var n := |q| - 1;
      InsertSum(q[..n], s, m);
      SumConcat(Insert(q[..n], s), [q[n]], m);
      SumLast(q, m);
    }
  }

  lemma {:induction false} SortedSum(spans: seq<Span>, m: Measure)
    ensures Sum(Sorted(spans), m) == Sum(spans, m)
  {
    if spans == [] {
    } else {
      var n := |spans| - 1;
      SortedSum(spans[..n], m);
      InsertSum(Sorted(spans[..n]), spans[n], m);
      SumLast(spans, m);
    }
  }

  const CHATS: Measure := (s: Span) => if s.kind.Chat? then 1 else 0
  const TOOLS: Measure := (s: Span) => if s.kind.Tool? then 1 else 0
  const CHAT_INPUT: Measure := (s: Span) => if s.kind.Chat? then Or0(s.inputTokens) else 0
  const CHAT_OUTPUT: Measure := (s: Span) => if s.kind.Chat? then Or0(s.outputTokens) else 0

  // A missing count is zero.
  function Or0(v: Option<int>): int {
    if v.None? then 0 else v.value
  }

  // ---------------------------------------------------------------- what one task adds up to

  datatype Totals = Totals(tasks: int, sel: int, asst: int, selIn: int, selOut: int, asIn: int, asOut: int)

  const NEW := Totals(0, 0, 0, 0, 0, 0, 0)

  function Plus(a: Totals, b: Totals): Totals {
    Totals(a.tasks + b.tasks, a.sel + b.sel, a.asst + b.asst,
           a.selIn + b.selIn, a.selOut + b.selOut, a.asIn + b.asIn, a.asOut + b.asOut)
  }

  function OfRole(s: Span, role: Role): Totals {
    if role.Sel? then NEW.(sel := 1, selIn := Or0(s.inputTokens), selOut := Or0(s.outputTokens))
    else NEW.(asst := 1, asIn := Or0(s.inputTokens), asOut := Or0(s.outputTokens))
  }

  function OfRoles(rs: seq<(Span, Role)>): Totals {
    if rs == [] then NEW else Plus(OfRole(rs[0].0, rs[0].1), OfRoles(rs[1..]))
  }

  function TallyOf(spans: seq<Span>): Totals {
    var rs := RolesOf(spans);
    if rs == [] then NEW else Plus(NEW.(tasks := 1), OfRoles(rs))
  }

  // The lengths of the maximal runs of chats with no tool call between them.
  function RunLength(q: seq<Span>): nat {
    if q != [] && q[0].kind.Chat? then 1 + RunLength(q[1..]) else 0
  }

  function ChatRuns(q: seq<Span>): seq<nat>
    decreases |q|
  {
    if q == [] then []
    else if q[0].kind.Chat? then (RunFits(q); [RunLength(q)] + ChatRuns(q[RunLength(q)..]))
    else ChatRuns(q[1..])
  }

  lemma {:induction false} RunFits(q: seq<Span>)
    ensures RunLength(q) <= |q|
    ensures q != [] && q[0].kind.Chat? ==> RunLength(q) >= 1
  {
    if q == [] {
    } else {
      RunFits(q[1..]);
    }
  }

  function Total(lengths: seq<nat>): nat {
    if lengths == [] then 0 else lengths[0] + Total(lengths[1..])
  }

  // Each maximal run of n chats is n - 1 selections and one assistant call.
  lemma {:induction false} RunsAndRoles(q: seq<Span>)
    ensures OfRoles(RolesIn(q)).asst == |ChatRuns(q)|
    ensures OfRoles(RolesIn(q)).sel == Total(ChatRuns(q)) - |ChatRuns(q)|
    decreases |q|
  {
    if q == [] {
    } else {
      RunsAndRoles(q[1..]);
      if q[0].kind.Chat? {
        RunFits(q);
        assert RolesIn(q)[1..] == RolesIn(q[1..]);
        if |q| > 1 && q[1].kind.Chat? {
          RunFits(q[1..]);
          var n := RunLength(q[1..]);
          assert q[1..][n..] == q[n + 1..];
          assert ChatRuns(q) == [n + 1] + ChatRuns(q[n + 1..]);
          assert ChatRuns(q[1..]) == [n] + ChatRuns(q[n + 1..]);
        } else {
          assert RunLength(q) == 1;
        }
      }
    }
  }

  // Every chat is one or the other, and no token is lost or counted twice.
  lemma {:induction false} RolesConserve(q: seq<Span>)
    ensures var t := OfRoles(RolesIn(q));
      && t.sel + t.asst == Sum(q, CHATS)
      && t.selIn + t.asIn == Sum(q, CHAT_INPUT)
      && t.selOut + t.asOut == Sum(q, CHAT_OUTPUT)
      && t.tasks == 0
  {
    if q == [] {
    } else {
      RolesConserve(q[1..]);
      if q[0].kind.Chat? {
        assert RolesIn(q)[1..] == RolesIn(q[1..]);
      }
    }
  }

  // A tool call, or the end, follows every assistant call.
  lemma {:induction false} AssistantsBounded(q: seq<Span>)
    requires forall s :: s in q ==> s.kind != OtherKind
    ensures OfRoles(RolesIn(q)).asst <= Sum(q, TOOLS) + 1
    ensures q == [] || q[0].kind.Tool? ==> OfRoles(RolesIn(q)).asst <= Sum(q, TOOLS)
  {
    if q == [] {
    } else {
      AssistantsBounded(q[1..]);
      if q[0].kind.Chat? {
        assert RolesIn(q)[1..] == RolesIn(q[1..]);
      }
    }
  }

  predicate ChatPair(q: seq<Span>, i: nat) {
    i + 1 < |q| && q[i].kind.Chat? && q[i + 1].kind.Chat?
  }

  ghost predicate NoneAdjacent(q: seq<Span>) {
    forall i: nat :: !ChatPair(q, i)
  }

  lemma {:induction false} SelectionsAreAdjacent(q: seq<Span>)
    ensures OfRoles(RolesIn(q)).sel >= 0
    ensures OfRoles(RolesIn(q)).sel == 0 <==> NoneAdjacent(q)
  {
    if q == [] {
    } else {
      SelectionsAreAdjacent(q[1..]);
      assert forall i: nat :: ChatPair(q[1..], i) <==> ChatPair(q, i + 1);
      assert forall i: nat :: ChatPair(q, i) ==> i == 0 || ChatPair(q[1..], i - 1);
      if q[0].kind.Chat? {
        assert RolesIn(q)[1..] == RolesIn(q[1..]);
      }
      assert OfRoles(RolesIn(q)).sel == OfRoles(RolesIn(q[1..])).sel + if ChatPair(q, 0) then 1 else 0;
    }
  }

  // The classification of a task, in terms of the spans it was given in any order.
  lemma TaskClassified(spans: seq<Span>)
    ensures var q, u, t := Sorted(UsableOf(spans)), UsableOf(spans), OfRoles(RolesOf(spans));
      && InOrder(q)
      && t.asst == |ChatRuns(q)|
      && t.sel + t.asst == Sum(u, CHATS)
      && t.asst <= Sum(u, TOOLS) + 1
      && (t.sel == 0 <==> NoneAdjacent(q))
      && t.selIn + t.asIn == Sum(u, CHAT_INPUT)
      && t.selOut + t.asOut == Sum(u, CHAT_OUTPUT)
  {
    var u := UsableOf(spans);
    var q := Sorted(u);
    SortedInOrder(u);
    RunsAndRoles(q);
    RolesConserve(q);
    SelectionsAreAdjacent(q);
    SortedSum(u, CHATS);
    SortedSum(u, TOOLS);
    SortedSum(u, CHAT_INPUT);
    SortedSum(u, CHAT_OUTPUT);
    UsableKinds(spans);
    forall s | s in q ensures s.kind != OtherKind {
      assert s in multiset(q);
      assert s in u;
    }
    AssistantsBounded(q);
  }

  lemma {:induction false} UsableKinds(spans: seq<Span>)
    ensures forall s :: s in UsableOf(spans) ==> Usable(s)
  {
    if spans == [] {
    } else {
      UsableKinds(spans[..|spans| - 1]);
    }
  }

  // ---------------------------------------------------------------- the counters, in place

  class Acc {
    var t: Totals

    constructor ()
      ensures t == NEW
    {
      t := NEW;
    }

    // tally: fold one task into the counters; a task without a usable chat counts for nothing.
    method Tally(spans: seq<Span>)
      modifies this
      ensures t == Plus(old(t), TallyOf(spans))
    {
      var rs := Roles(spans);
      if rs == [] {
        return;
      }
      t := t.(tasks := t.tasks + 1);
      AddRoles(rs);
    }

    method AddRoles(rs: seq<(Span, Role)>)
      modifies this
      ensures t == Plus(old(t), OfRoles(rs))
    {
      for i := 0 to |rs|
        invariant Plus(t, OfRoles(rs[i..])) == Plus(old(t), OfRoles(rs))
      {
        assert rs[i..][1..] == rs[i + 1..];
        var (s, role) := rs[i];
        PlusAssoc(t, OfRole(s, role), OfRoles(rs[i + 1..]));
        if role.Sel? {
          t := t.(sel := t.sel + 1, selIn := t.selIn + Or0(s.inputTokens), selOut := t.selOut + Or0(s.outputTokens));
        } else {
          t := t.(asst := t.asst + 1, asIn := t.asIn + Or0(s.inputTokens), asOut := t.asOut + Or0(s.outputTokens));
        }
      }
    }

    // tally_rows: group the rows of a leg by task, then fold each task.
    method TallyRows(rows: seq<Span>)
      modifies this
      ensures t == Plus(old(t), RowsTally(rows))
    {
      var byTask := GroupByTask(rows, TASK_OF);
      AddGroups(byTask);
    }

    method AddGroups(groups: seq<TaskGroup>)
      modifies this
      ensures t == Plus(old(t), GroupsTally(groups))
    {
      for i := 0 to |groups|
        invariant Plus(t, GroupsTally(groups[i..])) == Plus(old(t), GroupsTally(groups))
      {
        FirstGroup(groups, i);
        PlusAssoc(t, TallyOf(groups[i].rows), GroupsTally(groups[i + 1..]));
        Tally(groups[i].rows);
      }
    }
  }

  lemma PlusAssoc(a: Totals, b: Totals, c: Totals)
    ensures Plus(Plus(a, b), c) == Plus(a, Plus(b, c))
  {
  }

  lemma FirstGroup(groups: seq<TaskGroup>, i: nat)
    requires i < |groups|
    ensures GroupsTally(groups[i..]) == Plus(TallyOf(groups[i].rows), GroupsTally(groups[i + 1..]))
  {
    assert groups[i..][1..] == groups[i + 1..];
  }

  const TASK_OF: TaskOf<Span, Option<string>> := (s: Span) => s.task

  type TaskGroup = Group<Option<string>, Span>

  function GroupsTally(groups: seq<TaskGroup>): Totals {
    if groups == [] then NEW else Plus(TallyOf(groups[0].rows), GroupsTally(groups[1..]))
  }

  function RowsTally(rows: seq<Span>): Totals {
    GroupsTally(Grouped(rows, TASK_OF))
  }

  function MergeOf(accs: seq<Totals>): Totals {
    if accs == [] then NEW else Plus(accs[0], MergeOf(accs[1..]))
  }

  method Merge(accs: seq<Totals>) returns (out: Totals)
    ensures out == MergeOf(accs)
  {
    out := NEW;
    for i := 0 to |accs|
      invariant Plus(out, MergeOf(accs[i..])) == MergeOf(accs)
    {
      assert accs[i..][1..] == accs[i + 1..];
      out := Plus(out, accs[i]);
    }
  }

  lemma {:induction false} GroupsTallyConcat(a: seq<TaskGroup>, b: seq<TaskGroup>)
    ensures GroupsTally(a + b) == Plus(GroupsTally(a), GroupsTally(b))
  {
    if a == [] {
      assert a + b == b;
    } else {
      assert (a + b)[1..] == a[1..] + b;
      GroupsTallyConcat(a[1..], b);
    }
  }

  // Tallying two sets of rows together is merging their tallies, as long as no task is split.
  lemma TallyMerges(a: seq<Span>, b: seq<Span>)
    requires Tasks(a, TASK_OF) !! Tasks(b, TASK_OF)
    ensures RowsTally(a + b) == MergeOf([RowsTally(a), RowsTally(b)])
  {
    GroupedApart(a, b, TASK_OF);
    GroupsTallyConcat(Grouped(a, TASK_OF), Grouped(b, TASK_OF));
    MergeTwo(RowsTally(a), RowsTally(b));
  }

  lemma MergeTwo(x: Totals, y: Totals)
    ensures MergeOf([x, y]) == Plus(x, y)
  {
    assert [x, y][1..] == [y] && [y][1..] == [];
    assert MergeOf([y]) == y;
  }
}

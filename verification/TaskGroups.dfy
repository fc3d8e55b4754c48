// Rows of a report grouped by task, as reference/shortlistlib.py (tally_rows) and
// reference/gen-12run-report.py (section 8) both do with dict.setdefault.
module TaskGroups {

  // A task and its rows; tasks stand in the order of their first row.
  datatype Group<K, R> = Group(task: K, rows: seq<R>)

  type TaskOf<!R, K> = R -> K

  function AddRow<K(==), R>(groups: seq<Group<K, R>>, task: K, row: R): seq<Group<K, R>> {
    if groups == [] then [Group(task, [row])]
    else if groups[0].task == task then [Group(task, groups[0].rows + [row])] + groups[1..]
    else [groups[0]] + AddRow(groups[1..], task, row)
  }

  function Grouped<K(==), R>(rows: seq<R>, taskOf: TaskOf<R, K>): seq<Group<K, R>> {
    if rows == [] then []
    else
      var n := |rows| - 1;
      AddRow(Grouped(rows[..n], taskOf), taskOf(rows[n]), rows[n])
  }

  method GroupByTask<K(==), R>(rows: seq<R>, taskOf: TaskOf<R, K>) returns (byTask: seq<Group<K, R>>)
    ensures byTask == Grouped(rows, taskOf)
  {
    byTask := [];
    for n := 0 to |rows|
      invariant byTask == Grouped(rows[..n], taskOf)
    {
      assert rows[..n + 1][..n] == rows[..n];
      byTask := AddRow(byTask, taskOf(rows[n]), rows[n]);
    }
    assert rows[..|rows|] == rows;
  }

  ghost function Tasks<K, R>(rows: seq<R>, taskOf: TaskOf<R, K>): set<K> {
    set i | 0 <= i < |rows| :: taskOf(rows[i])
  }

  // The rows of one task, in order; and what the groups hold for it.
  function OfTask<K(==), R>(rows: seq<R>, taskOf: TaskOf<R, K>, task: K): seq<R> {
    if rows == [] then []
    else
      var n := |rows| - 1;
      if taskOf(rows[n]) == task then OfTask(rows[..n], taskOf, task) + [rows[n]] else OfTask(rows[..n], taskOf, task)
  }

  function RowsFor<K(==), R>(groups: seq<Group<K, R>>, task: K): seq<R> {
    if groups == [] then [] else if groups[0].task == task then groups[0].rows else RowsFor(groups[1..], task)
  }

  predicate OneGroupATask<K(==), R>(groups: seq<Group<K, R>>) {
    forall i, j :: 0 <= i < j < |groups| ==> groups[i].task != groups[j].task
  }

  lemma {:induction false} AddRowRows<K, R>(groups: seq<Group<K, R>>, at: K, row: R, task: K)
    ensures RowsFor(AddRow(groups, at, row), task)
         == if at == task then RowsFor(groups, task) + [row] else RowsFor(groups, task)
  {
    if groups == [] {
      assert [] + [row] == [row];
    } else if groups[0].task != at {
      AddRowRows(groups[1..], at, row, task);
    }
  }

  lemma {:induction false} AddRowTasks<K, R>(groups: seq<Group<K, R>>, task: K, row: R)
    ensures forall g :: g in AddRow(groups, task, row) ==> g.task == task || exists h :: h in groups && h.task == g.task
  {
    if groups == [] || groups[0].task == task {
    } else {
      AddRowTasks(groups[1..], task, row);
    }
  }

  lemma {:induction false} AddRowOneGroup<K, R>(groups: seq<Group<K, R>>, task: K, row: R)
    requires OneGroupATask(groups)
    ensures OneGroupATask(AddRow(groups, task, row))
  {
    if groups == [] || groups[0].task == task {
    } else {
      AddRowOneGroup(groups[1..], task, row);
      AddRowTasks(groups[1..], task, row);
      var more := AddRow(groups[1..], task, row);
      forall j | 0 <= j < |more| ensures more[j].task != groups[0].task {
        assert more[j] in more;
      }
    }
  }

  // Every task has one group, which holds exactly its rows in their order.
  lemma {:induction false} GroupedExactly<K, R>(rows: seq<R>, taskOf: TaskOf<R, K>, task: K)
    ensures OneGroupATask(Grouped(rows, taskOf))
    ensures RowsFor(Grouped(rows, taskOf), task) == OfTask(rows, taskOf, task)
  {
    if rows == [] {
    } else {
      var n := |rows| - 1;
      GroupedExactly(rows[..n], taskOf, task);
      AddRowRows(Grouped(rows[..n], taskOf), taskOf(rows[n]), rows[n], task);
      AddRowOneGroup(Grouped(rows[..n], taskOf), taskOf(rows[n]), rows[n]);
    }
  }

  lemma {:induction false} AddBehind<K, R>(a: seq<Group<K, R>>, b: seq<Group<K, R>>, task: K, row: R)
    requires forall g :: g in a ==> g.task != task
    ensures AddRow(a + b, task, row) == a + AddRow(b, task, row)
  {
    if a == [] {
      assert a + b == b;
    } else {
      assert (a + b)[1..] == a[1..] + b;
      AddBehind(a[1..], b, task, row);
    }
  }

  lemma {:induction false} GroupedTasks<K, R>(rows: seq<R>, taskOf: TaskOf<R, K>)
    ensures forall g :: g in Grouped(rows, taskOf) ==> g.task in Tasks(rows, taskOf)
  {
    if rows == [] {
    } else {
      var n := |rows| - 1;
      GroupedTasks(rows[..n], taskOf);
      AddRowTasks(Grouped(rows[..n], taskOf), taskOf(rows[n]), rows[n]);
      assert forall i :: 0 <= i < n ==> rows[..n][i] == rows[i];
      forall g | g in Grouped(rows, taskOf) ensures g.task in Tasks(rows, taskOf) {
        assert taskOf(rows[n]) in Tasks(rows, taskOf);
      }
    }
  }

  // Rows of tasks that share no id group independently.
  lemma {:induction false} GroupedApart<K, R>(a: seq<R>, b: seq<R>, taskOf: TaskOf<R, K>)
    requires Tasks(a, taskOf) !! Tasks(b, taskOf)
    ensures Grouped(a + b, taskOf) == Grouped(a, taskOf) + Grouped(b, taskOf)
    decreases |b|
  {
    if b == [] {
      assert a + b == a;
    } else {
      var n := |b| - 1;
      assert (a + b)[..|a + b| - 1] == a + b[..n];
      assert forall i :: 0 <= i < n ==> b[..n][i] == b[i];
      GroupedApart(a, b[..n], taskOf);
      GroupedTasks(a, taskOf);
      assert taskOf(b[n]) in Tasks(b, taskOf);
      AddBehind(Grouped(a, taskOf), Grouped(b[..n], taskOf), taskOf(b[n]), b[n]);
    }
  }

  // The rows of a single task make one group.
  lemma {:induction false} GroupedAlone<K, R>(rows: seq<R>, taskOf: TaskOf<R, K>, task: K)
    requires rows != [] && forall r :: r in rows ==> taskOf(r) == task
    ensures Grouped(rows, taskOf) == [Group(task, rows)]
  {
    var n := |rows| - 1;
    assert rows == rows[..n] + [rows[n]];
    if n > 0 {
      GroupedAlone(rows[..n], taskOf, task);
    } else {
      assert rows[..n] == [] && rows == [rows[n]];
    }
  }
}

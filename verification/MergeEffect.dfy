// Where the effect of strategic_merge is felt: a path leads from the root through mapping keys and
// named list items.
module MergeEffect {
  import opened JsonTrees
  import opened Wrappers
  import opened StrategicMerge
  import opened MergeLaws

  datatype Step = Field(k: string) | Item(name: NameKey)

  function Lookup(j: Json, path: seq<Step>): Option<Json> {
    if path == [] then Some(j)
    else
      match path[0]
      case Field(k) => if j.Obj? && k in j.fields then Lookup(j.fields[k], path[1..]) else None
      case Item(n) =>
        if j.Arr? && AllIndexable(j.items) && n in IndexByName(j.items)
        then Lookup(j.items[IndexByName(j.items)[n]], path[1..])
        else None
  }

  // A value the patch states in full: a scalar, or a list that is not merged by name.
  predicate IsLeaf(j: Json) {
    !j.Null? && !j.Obj? && (j.Arr? ==> !MergesByName(j.items))
  }

  // Every leaf of the patch is in the result, at its own path.
  lemma {:induction false} LeavesArrive(base: Json, patch: Json, path: seq<Step>)
    requires NamesOk(patch) && Merge(base, patch).Returned?
    requires Lookup(patch, path).Some? && IsLeaf(Lookup(patch, path).value)
    ensures Lookup(Merge(base, patch).value, path) == Lookup(patch, path)
    decreases path
  {
    var r := Merge(base, patch).value;
    if patch.Obj? {
      var k := path[0].k;
      assert !patch.fields[k].Null?;
      if k in FieldsOf(base) {
        LeavesArrive(FieldsOf(base)[k], patch.fields[k], path[1..]);
      }
    } else if patch.Arr? && MergesByName(patch.items) {
      var items, b := patch.items, ItemsOf(base);
      var j := IndexByName(items)[path[0].name];
      MergedList(base, items);
      HeldAfter(b, items, r.items, j);
      if Holds(b, items[j]) {
        LeavesArrive(Held(b, items[j]), items[j], path[1..]);
      }
    }
  }

  // The patch says nothing about anything at or below this path.
  ghost predicate Silent(patch: Json, path: seq<Step>) {
    match patch
    case Obj(p) =>
      path != [] && path[0].Field? && (path[0].k in p ==> Silent(p[path[0].k], path[1..]))
    case Arr(items) =>
      && MergesByName(items) && AllIndexable(items)
      && path != [] && path[0].Item?
      && forall i :: 0 <= i < |items| && KeyOf(items[i]) == path[0].name ==> Silent(items[i], path[1..])
    case _ => false
  }

  lemma {:induction false} SilentIsAbsent(patch: Json, path: seq<Step>)
    requires Silent(patch, path)
    ensures Lookup(patch, path).None?
    decreases path
  {
    if patch.Obj? {
      if path[0].k in patch.fields {
        SilentIsAbsent(patch.fields[path[0].k], path[1..]);
      }
    } else if path[0].name in IndexByName(patch.items) {
      SilentIsAbsent(patch.items[IndexByName(patch.items)[path[0].name]], path[1..]);
    }
  }

  // What the patch is silent about is exactly what it was, present or absent.
  lemma {:induction false} SilenceKeeps(base: Json, patch: Json, path: seq<Step>)
    requires NamesOk(patch) && Merge(base, patch).Returned? && Silent(patch, path)
    ensures Lookup(Merge(base, patch).value, path) == Lookup(base, path)
    decreases path
  {
    var r := Merge(base, patch).value;
    if patch.Obj? {
      var k := path[0].k;
      if k in patch.fields {
        if k in FieldsOf(base) {
          SilenceKeeps(FieldsOf(base)[k], patch.fields[k], path[1..]);
        } else {
          SilentIsAbsent(patch.fields[k], path[1..]);
        }
      }
    } else {
      var items, b, n := patch.items, ItemsOf(base), path[0].name;
      MergedList(base, items);
      if j :| 0 <= j < |items| && KeyOf(items[j]) == n {
        HeldAfter(b, items, r.items, j);
        if Holds(b, items[j]) {
          SilenceKeeps(Held(b, items[j]), items[j], path[1..]);
        } else {
          SilentIsAbsent(items[j], path[1..]);
        }
      } else {
        OtherNamesKept(b, items, r.items, n);
      }
    }
  }

  // A name the patch list does not carry is found in the result where it was found before.
  lemma OtherNamesKept(b: seq<Json>, items: seq<Json>, r: seq<Json>, n: NameKey)
    requires AllIndexable(b) && MergesByName(items) && AllIndexable(items) && DistinctKeys(items)
    requires ListMerged(b, items, r)
    requires forall j :: 0 <= j < |items| ==> KeyOf(items[j]) != n
    ensures AllIndexable(r)
    ensures n in IndexByName(r) <==> n in IndexByName(b)
    ensures n in IndexByName(b) ==> r[IndexByName(r)[n]] == b[IndexByName(b)[n]]
  {
    NamesAfter(b, items, r);
    forall q | |b| <= q < |r| ensures KeyOf(r[q]) != n {
      var added := r[|b|..][q - |b|];
      var j :| 0 <= j < |items| && items[j] == added;
    }
    if n in IndexByName(b) {
      assert IndexByName(b)[n] !in Touched(IndexByName(b), items);
    }
  }

  // The patch maps the key this path ends in to null.
  ghost predicate Nulls(patch: Json, path: seq<Step>) {
    match patch
    case Obj(p) =>
      && path != [] && path[0].Field? && path[0].k in p
      && if |path| == 1 then p[path[0].k].Null? else Nulls(p[path[0].k], path[1..])
    case Arr(items) =>
      && MergesByName(items) && AllIndexable(items)
      && path != [] && path[0].Item?
      && exists i :: 0 <= i < |items| && KeyOf(items[i]) == path[0].name && Nulls(items[i], path[1..])
    case _ => false
  }

  // A value that was there and that the patch nulls is gone.
  lemma {:induction false} NullDeletes(base: Json, patch: Json, path: seq<Step>)
    requires NamesOk(patch) && Merge(base, patch).Returned? && Nulls(patch, path)
    requires Lookup(base, path).Some?
    ensures Lookup(Merge(base, patch).value, path).None?
    decreases path
  {
    var r := Merge(base, patch).value;
    if patch.Obj? {
      var k := path[0].k;
      if |path| > 1 {
        NullDeletes(base.fields[k], patch.fields[k], path[1..]);
      }
    } else {
      var items, b := patch.items, ItemsOf(base);
      var j :| 0 <= j < |items| && KeyOf(items[j]) == path[0].name && Nulls(items[j], path[1..]);
      MergedList(base, items);
      HeldAfter(b, items, r.items, j);
      NullDeletes(Held(b, items[j]), items[j], path[1..]);
    }
  }

  // Old items keep their places; the items of new names follow, in the order of the patch.
  lemma OrderKept(base: Json, items: seq<Json>)
    requires MergesByName(items) && AllIndexable(items) && DistinctKeys(items)
    requires Merge(base, Arr(items)).Returned?
    ensures var b, r := ItemsOf(base), Merge(base, Arr(items)).value.items;
      && AllIndexable(b) && AllIndexable(r) && |r| >= |b|
      && (forall n :: 0 <= n < |b| ==> KeyOf(r[n]) == KeyOf(b[n]))
      && r[|b|..] == Fresh(items, IndexByName(b))
  {
    MergedList(base, items);
    NamesAfter(ItemsOf(base), items, Merge(base, Arr(items)).value.items);
  }

  // Two new items of one name: the first run appends both, the second folds the first into the
  // second and the second into the outcome, so the list changes unless that merge is absorbed.
  lemma RepeatedName(x: Json, y: Json, folded: Json, both: Json)
    requires Indexable(x) && Indexable(y) && "name" in x.fields && "name" in y.fields && KeyOf(x) == KeyOf(y)
    requires Merge(y, x) == Returned(folded) && Merge(folded, y) == Returned(both)
    ensures Merge(Null, Arr([x, y])) == Returned(Arr([x, y]))
    ensures Merge(Arr([x, y]), Arr([x, y])) == Returned(Arr([x, both]))
  {
    AppendsBoth(x, y);
    FoldsBoth(x, y, folded, both, IndexByName([x, y]));
  }

  lemma AppendsBoth(x: Json, y: Json)
    requires Indexable(x) && Indexable(y) && "name" in x.fields && "name" in y.fields
    ensures MergeItems([], map[], [x, y]) == Returned([x, y])
  {
    assert [x, y][1..] == [y] && [y][1..] == [];
    assert [] + [x] == [x] && [x] + [y] == [x, y];
    assert MergeItems([x], map[], [y]) == MergeItems([x, y], map[], []);
  }

  lemma FoldsBoth(x: Json, y: Json, folded: Json, both: Json, index: map<NameKey, nat>)
    requires Indexable(x) && Indexable(y) && "name" in x.fields && "name" in y.fields && KeyOf(x) == KeyOf(y)
    requires Merge(y, x) == Returned(folded) && Merge(folded, y) == Returned(both)
    requires KeyOf(x) in index && index[KeyOf(x)] == 1 && forall k :: k in index ==> index[k] < 2
    ensures MergeItems([x, y], index, [x, y]) == Returned([x, both])
  {
    assert [x, y][1..] == [y] && [y][1..] == [];
    assert [x, y][1 := folded] == [x, folded] && [x, folded][1 := both] == [x, both];
    assert MergeItems([x, folded], index, [y]) == MergeItems([x, both], index, []);
  }

  // So a patch that is settled everywhere can still fail to be idempotent when a name repeats.
  lemma {:induction false} RepeatedNameBreaksIdempotence(x: Json, y: Json, both: Json)
    requires x == Named("x", 1) && y == Named("y", 2)
    requires both == Obj(y.fields["x" := Int(1)])
    ensures Settled(x) && Settled(y) && Merge(Null, Arr([x, y])) == Returned(Arr([x, y]))
    ensures Merge(Arr([x, y]), Arr([x, y])) == Returned(Arr([x, both])) && both != y
  {
    NamedFacts(x, y, both);
    MergedOver(x, y, both);
    RepeatedName(x, y, both, both);
  }

  lemma NamedFacts(x: Json, y: Json, both: Json)
    requires x == Named("x", 1) && y == Named("y", 2) && both == Obj(y.fields["x" := Int(1)])
    ensures Settled(x) && Settled(y) && both != y
    ensures Indexable(x) && Indexable(y) && "name" in x.fields && "name" in y.fields && KeyOf(x) == KeyOf(y)
  {
    assert "x" != "y" && "x" != "name" && "y" != "name";
    assert "x" in both.fields && "x" !in y.fields;
  }

  lemma MergedOver(x: Json, y: Json, both: Json)
    requires x == Named("x", 1) && y == Named("y", 2) && both == Obj(y.fields["x" := Int(1)])
    ensures Merge(y, x) == Returned(both) && Merge(both, y) == Returned(both)
  {
    MergedIn(x, y, both);
    MergedAgain(x, y, both);
  }

  lemma MergedIn(x: Json, y: Json, both: Json)
    requires x == Named("x", 1) && y == Named("y", 2) && both == Obj(y.fields["x" := Int(1)])
    ensures Merge(y, x) == Returned(both)
  {
    assert "x" != "y" && "x" != "name" && "y" != "name";
    MappingMerged(y, x, both.fields);
  }

  lemma MergedAgain(x: Json, y: Json, both: Json)
    requires x == Named("x", 1) && y == Named("y", 2) && both == Obj(y.fields["x" := Int(1)])
    ensures Merge(both, y) == Returned(both)
  {
    assert "x" != "y" && "x" != "name" && "y" != "name";
    MappingMerged(both, y, both.fields);
  }

  function Named(field: string, value: int): Json {
    Obj(map["name" := Str("a"), field := Int(value)])
  }
}

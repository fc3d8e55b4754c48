// What strategic_merge does to list items, told by the names in their fields.
module MergeNames {
  import opened JsonTrees
  import opened Wrappers
  import opened StrategicMerge
  import opened MergeLaws
  import opened MergeRepeats

  // Two names key one entry of the index if and only if Python calls them equal: null is only null, a
  // string only the same string, and the numbers are compared across their three types.
  lemma SameKeyIff(a: Json, b: Json)
    requires Hashable(a) && Hashable(b)
    ensures a.Null? || a.Str? || b.Null? || b.Str? ==> (HashKey(a) == HashKey(b) <==> a == b)
    ensures (a.Bool? && b.Bool?) || (a.Int? && b.Int?) || (a.Float? && b.Float?) ==>
      (HashKey(a) == HashKey(b) <==> a == b)
    ensures a.Int? && b.Float? ==> (HashKey(a) == HashKey(b) <==> a.i as real == b.x)
    ensures a.Bool? && b.Int? ==> (HashKey(a) == HashKey(b) <==> b.i == if a.b then 1 else 0)
    ensures a.Bool? && b.Float? ==> (HashKey(a) == HashKey(b) <==> b.x == if a.b then 1.0 else 0.0)
  {
  }

  // An item with this string, or with null or nothing, under its name.
  predicate Called(item: Json, name: Json) {
    && item.Obj? && (name.Str? || name.Null?)
    && if "name" in item.fields then item.fields["name"] == name else name.Null?
  }

  lemma CalledIff(item: Json, other: Json, name: Json)
    requires Indexable(item) && Indexable(other) && Called(other, name)
    ensures Called(item, name) <==> KeyOf(item) == KeyOf(other)
  {
    SameKeyIff(NameOf(item), NameOf(other));
  }

  // A merge by name that returns has met no name that cannot be a key.
  lemma {:induction false} ReturnedIndexable(out: seq<Json>, index: map<NameKey, nat>, items: seq<Json>)
    requires MergesByName(items) && forall k :: k in index ==> index[k] < |out|
    requires MergeItems(out, index, items).Returned?
    ensures AllIndexable(items)
    decreases |items|
  {
    if items == [] {
    } else {
      var key, rest := KeyOf(items[0]), items[1..];
      if key in index {
        ReturnedIndexable(out[index[key] := Merge(out[index[key]], items[0]).value], index, rest);
      } else {
        ReturnedIndexable(out + [items[0]], index, rest);
      }
      assert items == [items[0]] + rest;
    }
  }

  // An item of a name the patch does not carry stands unchanged at its place.
  lemma UnnamedStands(b: seq<Json>, items: seq<Json>, n: nat, name: Json)
    requires MergesByName(items)
    requires n < |b| && Called(b[n], name) && forall j :: 0 <= j < |items| ==> !Called(items[j], name)
    ensures Merge(Arr(b), Arr(items)).Returned? ==>
      var r := Merge(Arr(b), Arr(items)).value; r.Arr? && |r.items| >= |b| && r.items[n] == b[n]
  {
    if Merge(Arr(b), Arr(items)).Raised? {
      return;
    }
    var index := IndexByName(b);
    ReturnedIndexable(b, index, items);
    KeepsUntouched(b, index, items);
    forall j | Known(index, items, j) ensures index[KeyOf(items[j])] != n {
      CalledIff(items[j], b[n], name);
    }
    assert n !in Touched(index, items);
  }

  // Folding a list with one item of the name is merging that item.
  lemma {:induction false} FoldsOne(v: Json, items: seq<Json>, j: nat)
    requires AllIndexable(items) && j < |items|
    requires forall i :: 0 <= i < |items| && i != j ==> KeyOf(items[i]) != KeyOf(items[j])
    ensures Folded(v, items, KeyOf(items[j])) == Merge(v, items[j])
    decreases |items|
  {
    var key := KeyOf(items[j]);
    if j == 0 {
      if Merge(v, items[0]).Returned? {
        FoldNone(Merge(v, items[0]).value, items[1..], key);
      }
    } else {
      assert items[1..][j - 1] == items[j];
      FoldsOne(v, items[1..], j - 1);
    }
  }

  // The one patch item of a name is merged into the base item of that name, of several into the last.
  lemma NamedIsMerged(b: seq<Json>, items: seq<Json>, n: nat, j: nat, name: Json)
    requires MergesByName(items) && Merge(Arr(b), Arr(items)).Returned?
    requires n < |b| && Called(b[n], name) && forall m :: n < m < |b| ==> !Called(b[m], name)
    requires j < |items| && Called(items[j], name)
    requires forall i :: 0 <= i < |items| && i != j ==> !Called(items[i], name)
    ensures var r := Merge(Arr(b), Arr(items)).value;
      r.Arr? && |r.items| >= |b| && Merge(b[n], items[j]) == Returned(r.items[n])
  {
    var index, key := IndexByName(b), KeyOf(b[n]);
    ReturnedIndexable(b, index, items);
    CalledIff(items[j], b[n], name);
    assert index[key] == n by {
      CalledIff(b[index[key]], b[n], name);
    }
    forall i | 0 <= i < |items| && i != j ensures KeyOf(items[i]) != KeyOf(items[j]) {
      CalledIff(items[i], items[j], name);
    }
    MergesFold(b, index, items);
    FoldsOne(b[n], items, j);
  }

  // A patch item of a name the base does not have is appended as it is.
  lemma NewIsAppended(b: seq<Json>, items: seq<Json>, j: nat, name: Json)
    requires MergesByName(items) && Merge(Arr(b), Arr(items)).Returned?
    requires j < |items| && Called(items[j], name) && forall n :: 0 <= n < |b| ==> !Called(b[n], name)
    ensures var r := Merge(Arr(b), Arr(items)).value; r.Arr? && |r.items| >= |b| && items[j] in r.items[|b|..]
  {
    var index := IndexByName(b);
    ReturnedIndexable(b, index, items);
    if KeyOf(items[j]) in index {
      CalledIff(b[index[KeyOf(items[j])]], items[j], name);
    }
    PassAppends(b, index, items);
    FreshComplete(items, index, items[j]);
  }

  // A patch of one item that is merged into place n.
  lemma OneMerged(b: seq<Json>, x: Json, n: nat, merged: Json)
    requires AllIndexable(b) && Indexable(x) && "name" in x.fields && n < |b| && KeyOf(b[n]) == KeyOf(x)
    requires Merge(b[n], x) == Returned(merged) && forall m :: n < m < |b| ==> KeyOf(b[m]) != KeyOf(x)
    ensures Merge(Arr(b), Arr([x])) == Returned(Arr(b[n := merged]))
  {
    OneItem(b, IndexByName(b), x, n, merged);
    assert MergesByName([x]);
  }

  lemma OneItem(out: seq<Json>, index: map<NameKey, nat>, x: Json, n: nat, merged: Json)
    requires Indexable(x) && "name" in x.fields && n < |out| && Merge(out[n], x) == Returned(merged)
    requires KeyOf(x) in index && index[KeyOf(x)] == n && forall k :: k in index ==> index[k] < |out|
    ensures MergeItems(out, index, [x]) == Returned(out[n := merged])
  {
    assert [x][1..] == [] && MergeItems(out[n := merged], index, []) == Returned(out[n := merged]);
  }

  lemma VariableSet(name: string, value: string, other: string)
    ensures Merge(Variable(name, value), Variable(name, other)) == Returned(Variable(name, other))
  {
    assert "name" != "value";
    MappingMerged(Variable(name, value), Variable(name, other), Variable(name, other).fields);
  }

  function Variable(name: string, value: string): Json {
    Obj(map["name" := Str(name), "value" := Str(value)])
  }

  // In the environment of a deployment: one variable is set by the patch, another stays as it was.
  lemma VariablePatched(name: string, value: string, other: string, kept: string, desired: string)
    requires name != other
    ensures var b, x := [Variable(name, value), Variable(other, kept)], Variable(name, desired);
      Merge(Arr(b), Arr([x])) == Returned(Arr([x, Variable(other, kept)]))
  {
    var b, x := [Variable(name, value), Variable(other, kept)], Variable(name, desired);
    VariableSet(name, value, desired);
    assert NameOf(b[0]) == NameOf(x) == Str(name) && NameOf(b[1]) == Str(other);
    SameKeyIff(NameOf(x), NameOf(b[1]));
    OneMerged(b, x, 0, x);
    assert b[0 := x] == [x, b[1]];
  }
}

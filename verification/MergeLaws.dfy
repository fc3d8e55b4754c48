// What strategic_merge promises: patching twice is patching once, exactly when the patch nulls
// nothing inside a subtree it copies whole; what the patch does not mention stays; what it says
// is there afterwards.
module MergeLaws {
  import opened JsonTrees
  import opened Wrappers
  import opened StrategicMerge

  // ---------------------------------------------------------------- the hypotheses

  ghost predicate DistinctKeys(items: seq<Json>)
    requires AllIndexable(items)
  {
    forall i, j :: 0 <= i < j < |items| ==> KeyOf(items[i]) != KeyOf(items[j])
  }

  // Every list merged by name, at any depth, has scalar names without repetition.
  ghost predicate NamesOk(p: Json) {
    match p
    case Obj(f) => forall k :: k in f ==> NamesOk(f[k])
    case Arr(items) =>
      MergesByName(items) ==>
        AllIndexable(items) && DistinctKeys(items) && forall i :: 0 <= i < |items| ==> NamesOk(items[i])
    case _ => true
  }

  // No mapping that a merge would enter maps a key to null.
  ghost predicate Settled(v: Json) {
    match v
    case Obj(f) => forall k :: k in f ==> !f[k].Null? && Settled(f[k])
    case Arr(items) => MergesByName(items) ==> forall i :: 0 <= i < |items| ==> Settled(items[i])
    case _ => true
  }

  // Every subtree of the patch that this merge copies in whole is settled.
  ghost predicate CopiesSettled(base: Json, patch: Json)
    decreases patch, 0
  {
    match patch
    case Obj(p) =>
      forall k :: k in p && !p[k].Null? ==>
        if k in FieldsOf(base) then CopiesSettled(FieldsOf(base)[k], p[k]) else Settled(p[k])
    case Arr(items) =>
      MergesByName(items) && AllIndexable(ItemsOf(base)) && AllIndexable(items) ==>
        forall j :: 0 <= j < |items| ==> ItemSettled(ItemsOf(base), items[j])
    case _ => true
  }

  ghost predicate ItemSettled(b: seq<Json>, item: Json)
    requires AllIndexable(b) && Indexable(item)
    decreases item, 1
  {
    if Holds(b, item) then CopiesSettled(Held(b, item), item) else Settled(item)
  }

  // ---------------------------------------------------------------- one pass over the patch items

  ghost predicate IndexInto(index: map<NameKey, nat>, out: seq<Json>) {
    && (forall k :: k in index ==> index[k] < |out|)
    && (forall k, l :: k in index && l in index && index[k] == index[l] ==> k == l)
  }

  // The items that are appended, in patch order.
  ghost function Fresh(items: seq<Json>, index: map<NameKey, nat>): (f: seq<Json>)
    requires AllIndexable(items)
    ensures AllIndexable(f)
    ensures forall i :: 0 <= i < |f| ==> f[i] in items && KeyOf(f[i]) !in index
  {
    if items == [] then []
    else if KeyOf(items[0]) in index then Fresh(items[1..], index)
    else [items[0]] + Fresh(items[1..], index)
  }

  lemma {:induction false} FreshComplete(items: seq<Json>, index: map<NameKey, nat>, item: Json)
    requires AllIndexable(items) && item in items && KeyOf(item) !in index
    ensures item in Fresh(items, index)
  {
    if item == items[0] {
    } else {
      FreshComplete(items[1..], index, item);
    }
  }

  lemma {:induction false} FreshDistinct(items: seq<Json>, index: map<NameKey, nat>)
    requires AllIndexable(items) && DistinctKeys(items)
    ensures DistinctKeys(Fresh(items, index))
  {
    if items == [] {
    } else {
      FreshDistinct(items[1..], index);
      var rest := Fresh(items[1..], index);
      forall i | 0 <= i < |rest| ensures KeyOf(rest[i]) != KeyOf(items[0]) {
        var j :| 0 <= j < |items[1..]| && items[1..][j] == rest[i];
        assert items[j + 1] == rest[i];
      }
    }
  }

  // Item j finds its name in the index.
  ghost predicate Known(index: map<NameKey, nat>, items: seq<Json>, j: int)
    requires AllIndexable(items)
  {
    0 <= j < |items| && KeyOf(items[j]) in index
  }

  ghost function Touched(index: map<NameKey, nat>, items: seq<Json>): set<nat>
    requires AllIndexable(items)
  {
    set j | 0 <= j < |items| && Known(index, items, j) :: index[KeyOf(items[j])]
  }

  ghost predicate PassInput(out: seq<Json>, index: map<NameKey, nat>, items: seq<Json>) {
    MergesByName(items) && AllIndexable(items) && IndexInto(index, out)
  }

  // Positions no patch item is merged into stay as they are.
  lemma {:induction false} KeepsUntouched(out: seq<Json>, index: map<NameKey, nat>, items: seq<Json>)
    requires PassInput(out, index, items) && MergeItems(out, index, items).Returned?
    ensures var r := MergeItems(out, index, items).value;
      |r| >= |out| && forall n :: 0 <= n < |out| && n !in Touched(index, items) ==> r[n] == out[n]
    decreases |items|
  {
    if items == [] {
    } else {
      var key, rest := KeyOf(items[0]), items[1..];
      assert forall j :: Known(index, rest, j) ==> Known(index, items, j + 1);
      assert Touched(index, rest) <= Touched(index, items);
      if key in index {
        assert Known(index, items, 0);
        KeepsUntouched(out[index[key] := Merge(out[index[key]], items[0]).value], index, rest);
      } else {
        KeepsUntouched(out + [items[0]], index, rest);
      }
    }
  }

  // The pass appends the items of new names, in patch order, and nothing else.
  lemma {:induction false} PassAppends(out: seq<Json>, index: map<NameKey, nat>, items: seq<Json>)
    requires PassInput(out, index, items) && MergeItems(out, index, items).Returned?
    ensures var r := MergeItems(out, index, items).value;
      |r| >= |out| && r[|out|..] == Fresh(items, index)
    decreases |items|
  {
    if items == [] {
    } else {
      var key, rest := KeyOf(items[0]), items[1..];
      if key in index {
        PassAppends(out[index[key] := Merge(out[index[key]], items[0]).value], index, rest);
      } else {
        PassAppends(out + [items[0]], index, rest);
        NewItemStays(out, index, rest, items[0]);
        var r := MergeItems(out, index, items).value;
        assert r[|out|..] == [items[0]] + r[|out| + 1..];
      }
    }
  }

  lemma NewItemStays(out: seq<Json>, index: map<NameKey, nat>, rest: seq<Json>, item: Json)
    requires PassInput(out, index, rest) && MergeItems(out + [item], index, rest).Returned?
    ensures var r := MergeItems(out + [item], index, rest).value; |r| > |out| && r[|out|] == item
  {
    KeepsUntouched(out + [item], index, rest);
    assert |out| !in Touched(index, rest);
  }

  // Each item of a known name is merged into the position of that name, and only those merges count.
  lemma {:induction false} MergesKnown(out: seq<Json>, index: map<NameKey, nat>, items: seq<Json>)
    requires PassInput(out, index, items) && DistinctKeys(items)
    ensures MergeItems(out, index, items).Returned?
      <==> forall j :: Known(index, items, j) ==> Merge(out[index[KeyOf(items[j])]], items[j]).Returned?
    ensures MergeItems(out, index, items).Returned? ==>
      var r := MergeItems(out, index, items).value;
      |r| >= |out| && forall j :: Known(index, items, j) ==>
        Merge(out[index[KeyOf(items[j])]], items[j]) == Returned(r[index[KeyOf(items[j])]])
    decreases |items|
  {
    if items == [] {
    } else {
      var key, rest := KeyOf(items[0]), items[1..];
      assert forall j :: Known(index, rest, j) ==> Known(index, items, j + 1);
      assert forall j :: Known(index, items, j) && j > 0 ==> Known(index, rest, j - 1) && rest[j - 1] == items[j];
      if key in index {
        assert Known(index, items, 0);
        var n0 := index[key];
        var merged := Merge(out[n0], items[0]);
        if merged.Returned? {
          MergesKnown(out[n0 := merged.value], index, rest);
          FirstStays(out, index, items, merged.value);
        }
      } else {
        MergesKnown(out + [items[0]], index, rest);
      }
    }
  }

  lemma FirstStays(out: seq<Json>, index: map<NameKey, nat>, items: seq<Json>, merged: Json)
    requires PassInput(out, index, items) && DistinctKeys(items) && items != [] && Known(index, items, 0)
    ensures var n0, rest := index[KeyOf(items[0])], items[1..];
      && (forall j :: Known(index, rest, j) ==> index[KeyOf(rest[j])] != n0)
      && (MergeItems(out[n0 := merged], index, rest).Returned? ==>
            var r := MergeItems(out[n0 := merged], index, rest).value;
            |r| >= |out| && r[n0] == merged)
  {
    var n0, rest := index[KeyOf(items[0])], items[1..];
    forall j | Known(index, rest, j) ensures index[KeyOf(rest[j])] != n0 {
      assert rest[j] == items[j + 1];
    }
    if MergeItems(out[n0 := merged], index, rest).Returned? {
      KeepsUntouched(out[n0 := merged], index, rest);
      assert n0 !in Touched(index, rest);
    }
  }

  // A merged item keeps its name.
  lemma ItemKeepsKey(base: Json, item: Json)
    requires Indexable(base) && Indexable(item) && "name" in item.fields && KeyOf(base) == KeyOf(item)
    requires Merge(base, item).Returned?
    ensures var r := Merge(base, item).value; Indexable(r) && KeyOf(r) == KeyOf(item)
  {
    var name := item.fields["name"];
    if !name.Null? && "name" in base.fields {
      assert Merge(base.fields["name"], name) == Returned(name);
    }
  }

  predicate Holds(r: seq<Json>, item: Json)
    requires AllIndexable(r) && Indexable(item)
  {
    KeyOf(item) in IndexByName(r)
  }

  // The item of the same name that a merge would go into.
  function Held(r: seq<Json>, item: Json): Json
    requires AllIndexable(r) && Indexable(item) && Holds(r, item)
  {
    r[IndexByName(r)[KeyOf(item)]]
  }

  // The list a merge by name produces, position by position.
  ghost predicate ListMerged(b: seq<Json>, items: seq<Json>, r: seq<Json>)
    requires AllIndexable(b) && AllIndexable(items)
  {
    var index := IndexByName(b);
    && |r| >= |b|
    && r[|b|..] == Fresh(items, index)
    && (forall n :: 0 <= n < |b| && n !in Touched(index, items) ==> r[n] == b[n])
    && (forall j :: Known(index, items, j) ==>
          Merge(b[index[KeyOf(items[j])]], items[j]) == Returned(r[index[KeyOf(items[j])]]))
  }

  lemma MergedList(base: Json, items: seq<Json>)
    requires MergesByName(items) && AllIndexable(items) && DistinctKeys(items)
    requires Merge(base, Arr(items)).Returned?
    ensures AllIndexable(ItemsOf(base)) && Merge(base, Arr(items)).value.Arr?
    ensures ListMerged(ItemsOf(base), items, Merge(base, Arr(items)).value.items)
  {
    var b := ItemsOf(base);
    var index := IndexByName(b);
    PassAppends(b, index, items);
    KeepsUntouched(b, index, items);
    MergesKnown(b, index, items);
  }

  // Names survive the merge: old positions keep theirs, and the new index extends the old one.
  lemma NamesAfter(b: seq<Json>, items: seq<Json>, r: seq<Json>)
    requires AllIndexable(b) && MergesByName(items) && AllIndexable(items) && DistinctKeys(items)
    requires ListMerged(b, items, r)
    ensures AllIndexable(r)
    ensures forall n :: 0 <= n < |b| ==> KeyOf(r[n]) == KeyOf(b[n])
    ensures forall k :: k in IndexByName(b) ==> k in IndexByName(r) && IndexByName(r)[k] == IndexByName(b)[k]
    ensures forall j :: 0 <= j < |items| ==> KeyOf(items[j]) in IndexByName(r)
    ensures forall j :: 0 <= j < |items| && KeyOf(items[j]) !in IndexByName(b) ==>
              r[IndexByName(r)[KeyOf(items[j])]] == items[j]
  {
    var index := IndexByName(b);
    forall n | 0 <= n < |r| ensures Indexable(r[n]) && (n < |b| ==> KeyOf(r[n]) == KeyOf(b[n])) {
      if n >= |b| {
        assert r[n] == r[|b|..][n - |b|];
      } else if n in Touched(index, items) {
        var j :| Known(index, items, j) && index[KeyOf(items[j])] == n;
        ItemKeepsKey(b[n], items[j]);
      }
    }
    var added := Fresh(items, index);
    FreshDistinct(items, index);
    forall q | |b| <= q < |r| ensures r[q] == added[q - |b|] && KeyOf(r[q]) !in index {
      assert r[q] == r[|b|..][q - |b|];
    }
    forall k | k in index ensures k in IndexByName(r) && IndexByName(r)[k] == index[k] {
      assert KeyOf(r[index[k]]) == k;
      var q := IndexByName(r)[k];
      assert q < |b| ==> KeyOf(b[q]) == k && q <= index[k];
    }
    forall j | 0 <= j < |items| && KeyOf(items[j]) !in index
      ensures KeyOf(items[j]) in IndexByName(r) && r[IndexByName(r)[KeyOf(items[j])]] == items[j]
    {
      FreshComplete(items, index, items[j]);
      var f :| 0 <= f < |added| && added[f] == items[j];
      assert r[|b| + f] == items[j];
      var q := IndexByName(r)[KeyOf(items[j])];
      assert KeyOf(r[q]) == KeyOf(items[j]);
      assert q >= |b|;
      assert added[q - |b|] == r[q];
    }
  }

  // What each patch item finds in the merged list.
  lemma HeldAfter(b: seq<Json>, items: seq<Json>, r: seq<Json>, j: nat)
    requires AllIndexable(b) && MergesByName(items) && AllIndexable(items) && DistinctKeys(items)
    requires ListMerged(b, items, r) && j < |items|
    ensures AllIndexable(r) && Holds(r, items[j])
    ensures if Holds(b, items[j]) then Merge(Held(b, items[j]), items[j]) == Returned(Held(r, items[j]))
            else Held(r, items[j]) == items[j]
  {
    NamesAfter(b, items, r);
    if Holds(b, items[j]) {
      assert Known(IndexByName(b), items, j);
    }
  }

  // A second pass over a list that already holds every name appends nothing, and changes nothing
  // exactly when no single merge does.
  lemma SecondPass(r: seq<Json>, items: seq<Json>)
    requires AllIndexable(r) && MergesByName(items) && AllIndexable(items) && DistinctKeys(items)
    requires forall j :: 0 <= j < |items| ==> Holds(r, items[j]) && Merge(Held(r, items[j]), items[j]).Returned?
    ensures Merge(Arr(r), Arr(items)).Returned?
    ensures Merge(Arr(r), Arr(items)).value == Arr(r)
      <==> forall j :: 0 <= j < |items| ==> Merge(Held(r, items[j]), items[j]).value == Held(r, items[j])
  {
    var index := IndexByName(r);
    MergesKnown(r, index, items);
    MergedList(Arr(r), items);
    var again := Merge(Arr(r), Arr(items)).value.items;
    NoneFresh(items, index);
    assert |again| == |r|;
    forall j | 0 <= j < |items|
      ensures Merge(Held(r, items[j]), items[j]) == Returned(again[index[KeyOf(items[j])]])
    {
      assert Known(index, items, j);
    }
    SamePositions(r, again, items);
  }

  lemma SamePositions(r: seq<Json>, again: seq<Json>, items: seq<Json>)
    requires AllIndexable(r) && AllIndexable(items) && |again| == |r|
    requires forall j :: 0 <= j < |items| ==> KeyOf(items[j]) in IndexByName(r)
    requires forall n :: 0 <= n < |r| && n !in Touched(IndexByName(r), items) ==> again[n] == r[n]
    ensures again == r
      <==> forall j :: 0 <= j < |items| ==>
             again[IndexByName(r)[KeyOf(items[j])]] == r[IndexByName(r)[KeyOf(items[j])]]
  {
    var index := IndexByName(r);
    if forall j :: 0 <= j < |items| ==> again[index[KeyOf(items[j])]] == r[index[KeyOf(items[j])]] {
      forall n | 0 <= n < |r| ensures again[n] == r[n] {
        if n in Touched(index, items) {
          var j :| Known(index, items, j) && index[KeyOf(items[j])] == n;
        }
      }
      assert again == r;
    }
  }

  lemma {:induction false} NoneFresh(items: seq<Json>, index: map<NameKey, nat>)
    requires AllIndexable(items) && forall j :: 0 <= j < |items| ==> KeyOf(items[j]) in index
    ensures Fresh(items, index) == []
  {
    if items == [] {
    } else {
      NoneFresh(items[1..], index);
    }
  }

  // ---------------------------------------------------------------- idempotence

  // Merging a tree into itself changes nothing exactly when the tree is settled.
  lemma {:induction false} Absorption(v: Json)
    requires NamesOk(v)
    ensures Merge(v, v).Returned?
    ensures Merge(v, v).value == v <==> Settled(v)
  {
    if v.Obj? {
      var f := v.fields;
      forall k | k in f ensures Merge(f[k], f[k]).Returned? && (Merge(f[k], f[k]).value == f[k] <==> Settled(f[k])) {
        Absorption(f[k]);
      }
      var out := map k | k in f && !f[k].Null? :: Merge(f[k], f[k]).value;
      MappingMerged(v, v, out);
      if Settled(v) {
        assert out.Keys == f.Keys;
      }
      if out == f {
        assert forall k :: k in f ==> k in out;
      }
    } else if v.Arr? && MergesByName(v.items) {
      var items, index := v.items, IndexByName(v.items);
      forall j | 0 <= j < |items|
        ensures index[KeyOf(items[j])] == j
        ensures Merge(items[j], items[j]).Returned?
        ensures Merge(items[j], items[j]).value == items[j] <==> Settled(items[j])
      {
        Absorption(items[j]);
      }
      SecondPass(items, items);
    }
  }

  // Applying the patch a second time changes nothing exactly when every subtree it copied is settled.
  lemma {:induction false} MergeTwice(base: Json, patch: Json)
    requires NamesOk(patch) && Merge(base, patch).Returned?
    ensures var once := Merge(base, patch).value;
      && Merge(once, patch).Returned?
      && (Merge(once, patch).value == once <==> CopiesSettled(base, patch))
    decreases patch, 2
  {
    var once := Merge(base, patch).value;
    if patch.Obj? {
      MappingTwice(base, patch);
    } else if patch.Arr? && MergesByName(patch.items) {
      ListTwice(base, patch);
    }
  }

  // What the merged list holds of a patch item: the merge into what was held, or the item.
  ghost predicate HeldMerged(b: seq<Json>, r: seq<Json>, item: Json)
    requires AllIndexable(b) && AllIndexable(r) && Indexable(item)
  {
    && Holds(r, item)
    && if Holds(b, item) then Merge(Held(b, item), item) == Returned(Held(r, item)) else Held(r, item) == item
  }

  lemma ItemsHeld(base: Json, items: seq<Json>)
    requires MergesByName(items) && AllIndexable(items) && DistinctKeys(items)
    requires Merge(base, Arr(items)).Returned?
    ensures var once := Merge(base, Arr(items)).value;
      && AllIndexable(ItemsOf(base)) && once.Arr? && AllIndexable(once.items)
      && forall j :: 0 <= j < |items| ==> HeldMerged(ItemsOf(base), once.items, items[j])
  {
    MergedList(base, items);
    var b, r := ItemsOf(base), Merge(base, Arr(items)).value.items;
    NamesAfter(b, items, r);
    forall j | 0 <= j < |items| ensures HeldMerged(b, r, items[j]) {
      HeldAfter(b, items, r, j);
    }
  }

  lemma {:induction false} ListTwice(base: Json, patch: Json)
    requires patch.Arr? && MergesByName(patch.items) && NamesOk(patch) && Merge(base, patch).Returned?
    ensures var once := Merge(base, patch).value;
      && Merge(once, patch).Returned?
      && (Merge(once, patch).value == once <==> CopiesSettled(base, patch))
    decreases patch, 0
  {
    ItemsHeld(base, patch.items);
    var items, b, r := patch.items, ItemsOf(base), Merge(base, patch).value.items;
    forall j | 0 <= j < |items| ensures StaysAsSettled(b, r, items[j]) {
      ItemTwice(b, items[j], Held(r, items[j]));
    }
    SecondPassSettled(b, r, items);
  }

  // Merging the item into what the list r holds of its name changes nothing exactly when it is settled.
  ghost predicate StaysAsSettled(b: seq<Json>, r: seq<Json>, item: Json)
    requires AllIndexable(b) && AllIndexable(r) && Indexable(item)
  {
    && Holds(r, item) && Merge(Held(r, item), item).Returned?
    && (Merge(Held(r, item), item).value == Held(r, item) <==> ItemSettled(b, item))
  }

  lemma SecondPassSettled(b: seq<Json>, r: seq<Json>, items: seq<Json>)
    requires AllIndexable(b) && AllIndexable(r)
    requires MergesByName(items) && AllIndexable(items) && DistinctKeys(items)
    requires forall j :: 0 <= j < |items| ==> StaysAsSettled(b, r, items[j])
    ensures Merge(Arr(r), Arr(items)).Returned?
    ensures Merge(Arr(r), Arr(items)).value == Arr(r) <==> forall j :: 0 <= j < |items| ==> ItemSettled(b, items[j])
  {
    SecondPass(r, items);
  }

  // One item, merged twice: into what the list held, or into its own copy.
  lemma {:induction false} ItemTwice(b: seq<Json>, item: Json, now: Json)
    requires AllIndexable(b) && Indexable(item) && NamesOk(item)
    requires if Holds(b, item) then Merge(Held(b, item), item) == Returned(now) else now == item
    ensures Merge(now, item).Returned?
    ensures Merge(now, item).value == now <==> ItemSettled(b, item)
    decreases item, 3
  {
    if Holds(b, item) {
      MergeTwice(Held(b, item), item);
    } else {
      Absorption(item);
    }
  }

  lemma {:induction false} MappingTwice(base: Json, patch: Json)
    requires patch.Obj? && NamesOk(patch) && Merge(base, patch).Returned?
    ensures var once := Merge(base, patch).value;
      && Merge(once, patch).Returned?
      && (Merge(once, patch).value == once <==> CopiesSettled(base, patch))
    decreases patch, 0
  {
    var once := Merge(base, patch).value;
    var b, p, f := FieldsOf(base), patch.fields, once.fields;
    forall k | k in p && !p[k].Null? ensures FieldStaysAsSettled(b, f, p, k) {
      if k in b {
        MergeTwice(b[k], p[k]);
      } else {
        Absorption(p[k]);
      }
    }
    MappingAgain(f, patch);
  }

  ghost predicate FieldStaysAsSettled(b: Fields, f: Fields, p: Fields, k: string)
    requires k in p
  {
    && k in f && Merge(f[k], p[k]).Returned?
    && (Merge(f[k], p[k]).value == f[k] <==> if k in b then CopiesSettled(b[k], p[k]) else Settled(p[k]))
  }

  // Patching a mapping that has every field of the patch changes nothing exactly when no field's merge does.
  lemma MappingAgain(f: Fields, patch: Json)
    requires patch.Obj?
    requires forall k :: k in patch.fields && patch.fields[k].Null? ==> k !in f
    requires forall k :: k in patch.fields && !patch.fields[k].Null? ==>
      k in f && Merge(f[k], patch.fields[k]).Returned?
    ensures Merge(Obj(f), patch).Returned?
    ensures Merge(Obj(f), patch).value == Obj(f)
      <==> forall k :: k in patch.fields && !patch.fields[k].Null? ==> Merge(f[k], patch.fields[k]).value == f[k]
  {
    var p := patch.fields;
    var out := map k | k in f :: if k in p then Merge(f[k], p[k]).value else f[k];
    MappingMerged(Obj(f), patch, out);
    if forall k :: k in f ==> out[k] == f[k] {
      assert out == f;
    }
  }
}

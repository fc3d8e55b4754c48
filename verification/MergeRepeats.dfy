// reference/helm-parity-check.py, strategic_merge, of patch lists in which a name comes more than once.
module MergeRepeats {
  import opened JsonTrees
  import opened MergeLaws
  import opened StrategicMerge
  import opened Wrappers

  // All items of one name merged into a value, one after the other.
  function Folded(v: Json, items: seq<Json>, key: NameKey): Outcome<Json>
    requires AllIndexable(items)
    decreases |items|
  {
    if items == [] then Returned(v)
    else if KeyOf(items[0]) != key then Folded(v, items[1..], key)
    else
      var merged := Merge(v, items[0]);
      if merged.Raised? then Raised else Folded(merged.value, items[1..], key)
  }

  // What the list held of a known name ends as that value.
  lemma {:induction false} MergesFold(out: seq<Json>, index: map<NameKey, nat>, items: seq<Json>)
    requires PassInput(out, index, items)
    ensures MergeItems(out, index, items).Returned?
      <==> forall k :: k in index ==> Folded(out[index[k]], items, k).Returned?
    ensures MergeItems(out, index, items).Returned? ==>
      var r := MergeItems(out, index, items).value;
      |r| >= |out| && forall k :: k in index ==> Folded(out[index[k]], items, k) == Returned(r[index[k]])
    decreases |items|
  {
    if items == [] {
    } else {
      var key, rest := KeyOf(items[0]), items[1..];
      if key in index {
        var merged := Merge(out[index[key]], items[0]);
        if merged.Returned? {
          var next := out[index[key] := merged.value];
          MergesFold(next, index, rest);
          forall k | k in index ensures Folded(out[index[k]], items, k) == Folded(next[index[k]], rest, k) {
          }
        }
      } else {
        MergesFold(out + [items[0]], index, rest);
      }
    }
  }

  // Folding keeps the name.
  lemma {:induction false} FoldKeepsKey(v: Json, items: seq<Json>, key: NameKey)
    requires MergesByName(items) && AllIndexable(items) && Indexable(v) && KeyOf(v) == key
    requires Folded(v, items, key).Returned?
    ensures Indexable(Folded(v, items, key).value) && KeyOf(Folded(v, items, key).value) == key
    decreases |items|
  {
    if items == [] {
    } else {
      if KeyOf(items[0]) == key {
        ItemKeepsKey(v, items[0]);
        FoldKeepsKey(Merge(v, items[0]).value, items[1..], key);
      } else {
        FoldKeepsKey(v, items[1..], key);
      }
    }
  }

  // What a run leaves of a list: its places folded or untouched, and the new items behind them.
  ghost predicate RunOver(b: seq<Json>, items: seq<Json>, r: seq<Json>)
    requires AllIndexable(b) && AllIndexable(items)
  {
    var index := IndexByName(b);
    && |r| >= |b| && r[|b|..] == Fresh(items, index)
    && (forall n :: 0 <= n < |b| && n !in Touched(index, items) ==> r[n] == b[n])
    && (forall k :: k in index ==> Folded(b[index[k]], items, k) == Returned(r[index[k]]))
  }

  lemma RunIs(b: seq<Json>, items: seq<Json>)
    requires MergesByName(items) && AllIndexable(b) && AllIndexable(items)
    requires MergeItems(b, IndexByName(b), items).Returned?
    ensures RunOver(b, items, MergeItems(b, IndexByName(b), items).value)
  {
    PassAppends(b, IndexByName(b), items);
    KeepsUntouched(b, IndexByName(b), items);
    MergesFold(b, IndexByName(b), items);
  }

  lemma OldPlace(b: seq<Json>, items: seq<Json>, r: seq<Json>, n: nat)
    requires MergesByName(items) && AllIndexable(b) && AllIndexable(items) && RunOver(b, items, r) && n < |b|
    ensures Indexable(r[n]) && KeyOf(r[n]) == KeyOf(b[n])
  {
    var index := IndexByName(b);
    if n in Touched(index, items) {
      var j :| 0 <= j < |items| && Known(index, items, j) && index[KeyOf(items[j])] == n;
      FoldKeepsKey(b[n], items, KeyOf(items[j]));
    }
  }

  // After a run, old places hold items of their old names; behind them stand items of new names.
  lemma NamesKept(b: seq<Json>, items: seq<Json>, r: seq<Json>)
    requires MergesByName(items) && AllIndexable(b) && AllIndexable(items) && RunOver(b, items, r)
    ensures AllIndexable(r)
    ensures forall n :: 0 <= n < |b| ==> KeyOf(r[n]) == KeyOf(b[n])
    ensures forall n :: |b| <= n < |r| ==> r[n] in items && KeyOf(r[n]) !in IndexByName(b)
  {
    var added := Fresh(items, IndexByName(b));
    forall n | |b| <= n < |r| ensures r[n] in items && Indexable(r[n]) && KeyOf(r[n]) !in IndexByName(b) {
      assert r[n] == r[|b|..][n - |b|] == added[n - |b|];
    }
    forall n | 0 <= n < |b| ensures Indexable(r[n]) && KeyOf(r[n]) == KeyOf(b[n]) {
      OldPlace(b, items, r, n);
    }
  }

  // The items of one name.
  function OfName(items: seq<Json>, key: NameKey): seq<Json>
    requires AllIndexable(items)
  {
    if items == [] then []
    else
      var n := |items| - 1;
      if KeyOf(items[n]) == key then OfName(items[..n], key) + [items[n]] else OfName(items[..n], key)
  }

  // The list holds the last of them.
  lemma {:induction false} HeldIsLast(items: seq<Json>, item: Json)
    requires AllIndexable(items) && Indexable(item) && Holds(items, item)
    ensures var own := OfName(items, KeyOf(item)); own != [] && Held(items, item) == own[|own| - 1]
  {
    var n := |items| - 1;
    assert IndexByName(items) == IndexByName(items[..n])[KeyOf(items[n]) := n];
    if KeyOf(items[n]) == KeyOf(item) {
    } else {
      assert Held(items, item) == Held(items[..n], item);
      HeldIsLast(items[..n], item);
    }
  }

  lemma {:induction false} OfNameConcat(a: seq<Json>, b: seq<Json>, key: NameKey)
    requires AllIndexable(a) && AllIndexable(b)
    ensures AllIndexable(a + b) && OfName(a + b, key) == OfName(a, key) + OfName(b, key)
    decreases |b|
  {
    if b == [] {
      assert a + b == a;
    } else {
      var n := |b| - 1;
      assert (a + b)[..|a + b| - 1] == a + b[..n];
      OfNameConcat(a, b[..n], key);
    }
  }

  lemma {:induction false} OfNameNone(items: seq<Json>, key: NameKey)
    requires AllIndexable(items) && forall i :: 0 <= i < |items| ==> KeyOf(items[i]) != key
    ensures OfName(items, key) == []
  {
    if items == [] {
    } else {
      OfNameNone(items[..|items| - 1], key);
    }
  }

  // Of a new name all items are appended.
  lemma {:induction false} OfNameFresh(items: seq<Json>, index: map<NameKey, nat>, key: NameKey)
    requires AllIndexable(items) && key !in index
    ensures OfName(Fresh(items, index), key) == OfName(items, key)
    decreases |items|
  {
    if items == [] {
    } else {
      var first, rest := [items[0]], items[1..];
      OfNameFresh(rest, index, key);
      assert items == first + rest;
      OfNameConcat(first, rest, key);
      if KeyOf(items[0]) in index {
        OfNameNone(first, key);
      } else {
        OfNameConcat(first, Fresh(rest, index), key);
      }
    }
  }

  // So a name that was known is held where it was, and a new one under its last item in the patch.
  lemma HeldWhere(b: seq<Json>, items: seq<Json>, r: seq<Json>, j: nat)
    requires MergesByName(items) && AllIndexable(b) && AllIndexable(items) && j < |items| && RunOver(b, items, r)
    ensures AllIndexable(r) && Holds(r, items[j]) && Holds(items, items[j])
    ensures if Holds(b, items[j]) then Folded(Held(b, items[j]), items, KeyOf(items[j])) == Returned(Held(r, items[j]))
            else Held(r, items[j]) == Held(items, items[j])
  {
    var index, key := IndexByName(b), KeyOf(items[j]);
    NamesKept(b, items, r);
    if key in index {
      assert KeyOf(r[index[key]]) == key;
      var q := IndexByName(r)[key];
      assert q < |b| && KeyOf(b[q]) == key;
      assert q == index[key];
    } else {
      HeldNew(b, items, r, j);
    }
  }

  lemma HeldNew(b: seq<Json>, items: seq<Json>, r: seq<Json>, j: nat)
    requires MergesByName(items) && AllIndexable(b) && AllIndexable(items) && j < |items| && RunOver(b, items, r)
    requires KeyOf(items[j]) !in IndexByName(b)
    ensures AllIndexable(r) && Holds(r, items[j]) && Holds(items, items[j])
    ensures Held(r, items[j]) == Held(items, items[j])
  {
    var index, key := IndexByName(b), KeyOf(items[j]);
    NamesKept(b, items, r);
    FreshComplete(items, index, items[j]);
    assert items[j] in r[|b|..];
    var q :| |b| <= q < |r| && r[q] == items[j];
    OfNameFresh(items, index, key);
    NewBehind(b, r, key);
    HeldIsLast(r, items[j]);
    HeldIsLast(items, items[j]);
  }

  lemma NewBehind(b: seq<Json>, r: seq<Json>, key: NameKey)
    requires AllIndexable(b) && AllIndexable(r) && |b| <= |r| && key !in IndexByName(b)
    requires forall n :: 0 <= n < |b| ==> KeyOf(r[n]) == KeyOf(b[n])
    ensures OfName(r, key) == OfName(r[|b|..], key)
  {
    var old', new' := r[..|b|], r[|b|..];
    assert r == old' + new';
    OfNameConcat(old', new', key);
    OfNameNone(old', key);
  }

  // A name's folding changes nothing of what the list holds of it.
  ghost predicate FoldStays(r: seq<Json>, items: seq<Json>, item: Json)
    requires AllIndexable(r) && AllIndexable(items) && Indexable(item) && Holds(r, item)
  {
    Folded(Held(r, item), items, KeyOf(item)) == Returned(Held(r, item))
  }

  // A run over a list that holds every name changes nothing exactly when no name's folding does.
  lemma SecondFold(r: seq<Json>, items: seq<Json>)
    requires MergesByName(items) && AllIndexable(r) && AllIndexable(items)
    requires forall j :: 0 <= j < |items| ==> Holds(r, items[j])
    ensures MergeItems(r, IndexByName(r), items) == Returned(r)
      <==> forall j :: 0 <= j < |items| ==> FoldStays(r, items, items[j])
  {
    MergesFold(r, IndexByName(r), items);
    if forall j :: 0 <= j < |items| ==> FoldStays(r, items, items[j]) {
      EveryFoldReturns(r, items);
      NothingFolded(r, items);
    }
  }

  lemma EveryFoldReturns(r: seq<Json>, items: seq<Json>)
    requires AllIndexable(r) && AllIndexable(items) && forall j :: 0 <= j < |items| ==> Holds(r, items[j])
    requires forall j :: 0 <= j < |items| ==> FoldStays(r, items, items[j])
    ensures forall k :: k in IndexByName(r) ==> Folded(r[IndexByName(r)[k]], items, k).Returned?
  {
    var index := IndexByName(r);
    forall k | k in index ensures Folded(r[index[k]], items, k).Returned? {
      if j :| 0 <= j < |items| && KeyOf(items[j]) == k {
        assert FoldStays(r, items, items[j]);
      } else {
        FoldNone(r[index[k]], items, k);
      }
    }
  }

  lemma NothingFolded(r: seq<Json>, items: seq<Json>)
    requires MergesByName(items) && AllIndexable(r) && AllIndexable(items)
    requires forall j :: 0 <= j < |items| ==> Holds(r, items[j]) && FoldStays(r, items, items[j])
    requires MergeItems(r, IndexByName(r), items).Returned?
    ensures MergeItems(r, IndexByName(r), items) == Returned(r)
  {
    var index, again := IndexByName(r), MergeItems(r, IndexByName(r), items).value;
    RunIs(r, items);
    NoneFresh(items, index);
    assert |again| == |r|;
    forall n | 0 <= n < |r| ensures again[n] == r[n] {
      if n in Touched(index, items) {
        var j :| 0 <= j < |items| && Known(index, items, j) && index[KeyOf(items[j])] == n;
        assert FoldStays(r, items, items[j]);
      }
    }
    assert again == r;
  }

  lemma {:induction false} FoldNone(v: Json, items: seq<Json>, key: NameKey)
    requires AllIndexable(items) && forall j :: 0 <= j < |items| ==> KeyOf(items[j]) != key
    ensures Folded(v, items, key) == Returned(v)
    decreases |items|
  {
    if items == [] {
    } else {
      FoldNone(v, items[1..], key);
    }
  }

  // What can be told from the base list and the patch. Of a name the list knows, folding its items a
  // second time changes nothing; of a new one, its last item absorbs all its items.
  ghost predicate NameSettles(b: seq<Json>, items: seq<Json>, item: Json)
    requires AllIndexable(b) && AllIndexable(items) && Indexable(item) && item in items
  {
    var key := KeyOf(item);
    if Holds(b, item) then
      var once := Folded(Held(b, item), items, key);
      once.Returned? && Folded(once.value, items, key) == once
    else
      Holds(items, item) && Folded(Held(items, item), items, key) == Returned(Held(items, item))
  }

  // A list patch, names repeated or not, is idempotent exactly when each of its names settles.
  lemma RepeatsTwice(base: Json, items: seq<Json>)
    requires MergesByName(items) && AllIndexable(items) && Merge(base, Arr(items)).Returned?
    ensures AllIndexable(ItemsOf(base))
    ensures var once := Merge(base, Arr(items)).value;
      && (Merge(once, Arr(items)) == Returned(once)
          <==> forall j :: 0 <= j < |items| ==> NameSettles(ItemsOf(base), items, items[j]))
  {
    var b, r := ItemsOf(base), Merge(base, Arr(items)).value.items;
    RunIs(b, items);
    NamesKept(b, items, r);
    forall j | 0 <= j < |items|
      ensures Holds(r, items[j]) && (FoldStays(r, items, items[j]) <==> NameSettles(b, items, items[j]))
    {
      HeldWhere(b, items, r, j);
    }
    SecondFold(r, items);
  }

  // ---------------------------------------------------------------- an item said twice

  // Items of one name are one item.
  ghost predicate SameByName(items: seq<Json>)
    requires AllIndexable(items)
  {
    forall i, j :: 0 <= i < |items| && 0 <= j < |items| && KeyOf(items[i]) == KeyOf(items[j]) ==> items[i] == items[j]
  }

  // Folding such items is merging one of them, if merging it twice is merging it once.
  lemma {:induction false} FoldSame(v: Json, items: seq<Json>, x: Json)
    requires AllIndexable(items) && Indexable(x) && Merge(v, x) == Returned(v)
    requires forall j :: 0 <= j < |items| && KeyOf(items[j]) == KeyOf(x) ==> items[j] == x
    ensures Folded(v, items, KeyOf(x)) == Returned(v)
    decreases |items|
  {
    if items == [] {
    } else {
      FoldSame(v, items[1..], x);
    }
  }

  lemma {:induction false} FoldOnce(v: Json, items: seq<Json>, x: Json, merged: Json)
    requires AllIndexable(items) && Indexable(x) && x in items
    requires Merge(v, x) == Returned(merged) && Merge(merged, x) == Returned(merged)
    requires forall j :: 0 <= j < |items| && KeyOf(items[j]) == KeyOf(x) ==> items[j] == x
    ensures Folded(v, items, KeyOf(x)) == Returned(merged)
    decreases |items|
  {
    if items[0] == x {
      FoldSame(merged, items[1..], x);
    } else {
      assert x in items[1..];
      FoldOnce(v, items[1..], x, merged);
    }
  }

  lemma {:induction false} FoldStarts(v: Json, items: seq<Json>, x: Json)
    requires AllIndexable(items) && Indexable(x) && x in items && Folded(v, items, KeyOf(x)).Returned?
    requires forall j :: 0 <= j < |items| && KeyOf(items[j]) == KeyOf(x) ==> items[j] == x
    ensures Merge(v, x).Returned?
    decreases |items|
  {
    if items[0] == x {
    } else {
      assert x in items[1..];
      FoldStarts(v, items[1..], x);
    }
  }

  // To say a settled item twice in the same words is harmless, whether the list knows its name or not.
  lemma VerbatimRepeats(base: Json, items: seq<Json>)
    requires MergesByName(items) && AllIndexable(items) && Merge(base, Arr(items)).Returned?
    requires SameByName(items) && forall j :: 0 <= j < |items| ==> NamesOk(items[j])
    requires AllIndexable(ItemsOf(base)) && forall j :: 0 <= j < |items| ==> ItemSettled(ItemsOf(base), items[j])
    ensures var once := Merge(base, Arr(items)).value; Merge(once, Arr(items)) == Returned(once)
  {
    RepeatsTwice(base, items);
    var b := ItemsOf(base);
    RunIs(b, items);
    forall j | 0 <= j < |items| ensures NameSettles(b, items, items[j]) {
      HeldWhere(b, items, Merge(base, Arr(items)).value.items, j);
      SettledFold(b, items, items[j], Held(Merge(base, Arr(items)).value.items, items[j]));
    }
  }

  lemma {:induction false} SettledFold(b: seq<Json>, items: seq<Json>, x: Json, now: Json)
    requires AllIndexable(b) && AllIndexable(items) && Indexable(x) && x in items && NamesOk(x) && ItemSettled(b, x)
    requires forall j :: 0 <= j < |items| && KeyOf(items[j]) == KeyOf(x) ==> items[j] == x
    requires if Holds(b, x) then Folded(Held(b, x), items, KeyOf(x)) == Returned(now)
             else now in items && KeyOf(now) == KeyOf(x)
    ensures Folded(now, items, KeyOf(x)) == Returned(now)
  {
    if Holds(b, x) {
      FoldStarts(Held(b, x), items, x);
      MergeTwice(Held(b, x), x);
      FoldOnce(Held(b, x), items, x, Merge(Held(b, x), x).value);
    } else {
      Absorption(x);
    }
    FoldSame(now, items, x);
  }
}

// src/autobench/mlflow_report.py, transform_spans: the OTLP attribute list becomes a flat ordered
// dict, and the flat dict a tree of dicts in which a later key may clobber an earlier one.
module AttributeNesting {
  import opened Wrappers
  import opened DottedKeys

  datatype Tree<V> = Leaf(value: V) | Node(kids: map<string, Tree<V>>)

  // ---------------------------------------------------------------- the flat dict

  // A Python dict in insertion order; assigning to a key it has keeps the key's place.
  type Flat<V> = seq<(string, V)>

  function Keys<V>(flat: Flat<V>): seq<string> {
    if flat == [] then [] else [flat[0].0] + Keys(flat[1..])
  }

  function Get<V>(flat: Flat<V>, key: string): Option<V> {
    if flat == [] then None else if flat[0].0 == key then Some(flat[0].1) else Get(flat[1..], key)
  }

  predicate UniqueKeys<V>(flat: Flat<V>) {
    flat == [] || (flat[0].0 !in Keys(flat[1..]) && UniqueKeys(flat[1..]))
  }

  function Assign<V>(flat: Flat<V>, key: string, value: V): Flat<V> {
    if flat == [] then [(key, value)]
    else if flat[0].0 == key then [(key, value)] + flat[1..]
    else [flat[0]] + Assign(flat[1..], key, value)
  }

  // One attribute: its key, and the first of the four typed fields its value has, if any.
  datatype Item<V> = Item(key: string, typed: Option<V>)

  function Collected<V>(items: seq<Item<V>>): Flat<V> {
    if items == [] then []
    else
      var last := items[|items| - 1];
      var before := Collected(items[..|items| - 1]);
      if last.typed.Some? then Assign(before, last.key, last.typed.value) else before
  }

  method CollectAttributes<V>(items: seq<Item<V>>) returns (flat: Flat<V>)
    ensures flat == Collected(items) && UniqueKeys(flat)
  {
    flat := [];
    for n := 0 to |items|
      invariant flat == Collected(items[..n])
      invariant UniqueKeys(flat)
    {
      assert items[..n + 1][..n] == items[..n];
      if items[n].typed.Some? {
        AssignUnique(flat, items[n].key, items[n].typed.value);
        flat := Assign(flat, items[n].key, items[n].typed.value);
      }
    }
    assert items[..|items|] == items;
  }

  // Assigning gives the key its new value and only a new key a new place, the last one.
  lemma {:induction false} AssignUnique<V>(flat: Flat<V>, key: string, value: V)
    requires UniqueKeys(flat)
    ensures UniqueKeys(Assign(flat, key, value))
    ensures Keys(Assign(flat, key, value)) == if key in Keys(flat) then Keys(flat) else Keys(flat) + [key]
    ensures forall k :: Get(Assign(flat, key, value), k) == if k == key then Some(value) else Get(flat, k)
  {
    if flat == [] || flat[0].0 == key {
    } else {
      AssignUnique(flat[1..], key, value);
      assert Keys(flat) == [flat[0].0] + Keys(flat[1..]);
    }
  }

  lemma {:induction false} CollectedUnique<V>(items: seq<Item<V>>)
    ensures UniqueKeys(Collected(items))
  {
    if items == [] {
    } else {
      CollectedUnique(items[..|items| - 1]);
      var last := items[|items| - 1];
      if last.typed.Some? {
        AssignUnique(Collected(items[..|items| - 1]), last.key, last.typed.value);
      }
    }
  }

  // What one more item does.
  lemma CollectedNext<V>(items: seq<Item<V>>)
    requires items != []
    ensures var last, before, now := items[|items| - 1], Collected(items[..|items| - 1]), Collected(items);
      if last.typed.None? then now == before
      else && Keys(now) == (if last.key in Keys(before) then Keys(before) else Keys(before) + [last.key])
           && forall k :: Get(now, k) == if k == last.key then last.typed else Get(before, k)
  {
    CollectedUnique(items[..|items| - 1]);
    var last := items[|items| - 1];
    if last.typed.Some? {
      AssignUnique(Collected(items[..|items| - 1]), last.key, last.typed.value);
    }
  }

  // A key has the last typed value that is given for it.
  lemma {:induction false} LastTypedWins<V>(items: seq<Item<V>>, n: nat)
    requires n < |items| && items[n].typed.Some?
    requires forall m :: n < m < |items| && items[m].typed.Some? ==> items[m].key != items[n].key
    ensures Get(Collected(items), items[n].key) == items[n].typed
    decreases |items|
  {
    var last := |items| - 1;
    var before := items[..last];
    CollectedNext(items);
    if n == last {
    } else {
      LastTypedWins(before, n);
    }
  }

  // A key for which none is given is not there.
  lemma {:induction false} NeverTyped<V>(items: seq<Item<V>>, key: string)
    requires forall m :: 0 <= m < |items| && items[m].typed.Some? ==> items[m].key != key
    ensures Get(Collected(items), key) == None
  {
    if items == [] {
    } else {
      var last := |items| - 1;
      NeverTyped(items[..last], key);
      CollectedNext(items);
    }
  }

  // The item that gives its key its first value.
  predicate FirstTyped<V>(items: seq<Item<V>>, n: nat) {
    && n < |items| && items[n].typed.Some?
    && forall m :: 0 <= m < n && items[m].typed.Some? ==> items[m].key != items[n].key
  }

  predicate Precedes(keys: seq<string>, a: string, b: string) {
    exists p, q :: 0 <= p < q < |keys| && keys[p] == a && keys[q] == b
  }

  // The keys stand in the order of their first values.
  lemma {:induction false} KeysInOrder<V>(items: seq<Item<V>>, i: nat, j: nat)
    requires i < j && FirstTyped(items, i) && FirstTyped(items, j)
    ensures Precedes(Keys(Collected(items)), items[i].key, items[j].key)
    decreases |items|
  {
    var last := |items| - 1;
    var before := items[..last];
    CollectedNext(items);
    var keys := Keys(Collected(before));
    if j == last {
      KeyThere(before, i);
      KeyNotThere(before, items[j].key);
      var p :| 0 <= p < |keys| && keys[p] == items[i].key;
      assert (keys + [items[j].key])[p] == items[i].key && (keys + [items[j].key])[|keys|] == items[j].key;
    } else {
      KeysInOrder(before, i, j);
      var p, q :| 0 <= p < q < |keys| && keys[p] == items[i].key && keys[q] == items[j].key;
      var now := Keys(Collected(items));
      assert now[p] == keys[p] && now[q] == keys[q];
    }
  }

  lemma {:induction false} KeyThere<V>(items: seq<Item<V>>, n: nat)
    requires n < |items| && items[n].typed.Some?
    ensures items[n].key in Keys(Collected(items))
    decreases |items|
  {
    var last := |items| - 1;
    CollectedNext(items);
    if n == last {
    } else {
      KeyThere(items[..last], n);
    }
  }

  lemma {:induction false} KeyNotThere<V>(items: seq<Item<V>>, key: string)
    requires forall m :: 0 <= m < |items| && items[m].typed.Some? ==> items[m].key != key
    ensures key !in Keys(Collected(items))
  {
    if items == [] {
    } else {
      var last := |items| - 1;
      KeyNotThere(items[..last], key);
      CollectedNext(items);
    }
  }

  lemma {:induction false} UniqueAt<V>(flat: Flat<V>, i: nat, j: nat)
    requires UniqueKeys(flat) && i < j < |flat|
    ensures flat[i].0 != flat[j].0
  {
    if i == 0 {
      KeysAt(flat[1..], j - 1);
    } else {
      UniqueAt(flat[1..], i - 1, j - 1);
    }
  }

  lemma {:induction false} KeysAt<V>(flat: Flat<V>, i: nat)
    requires i < |flat|
    ensures flat[i].0 in Keys(flat)
  {
    if i == 0 {
    } else {
      KeysAt(flat[1..], i - 1);
    }
  }

  // ---------------------------------------------------------------- the tree

  type Dict<V> = map<string, Tree<V>>

  // `d = d[part]`, after a part that is missing or holds a value was replaced by an empty dict.
  function Child<V>(d: Dict<V>, part: string): Dict<V> {
    if part in d && d[part].Node? then d[part].kids else map[]
  }

  // One turn of the nesting loop.
  function Insert<V>(d: Dict<V>, path: seq<string>, value: V): Dict<V>
    requires |path| >= 1
    decreases path
  {
    if |path| == 1 then d[path[0] := Leaf(value)]
    else d[path[0] := Node(Insert(Child(d, path[0]), path[1..], value))]
  }

  predicate Internal(key: string) {
    "mlflow." <= key
  }

  function Nested<V>(flat: Flat<V>): Dict<V> {
    if flat == [] then map[]
    else
      var n := |flat| - 1;
      if Internal(flat[n].0) then Nested(flat[..n])
      else Insert(Nested(flat[..n]), Split(flat[n].0), flat[n].1)
  }

  method NestAttributes<V>(flat: Flat<V>) returns (nested: Dict<V>)
    ensures nested == Nested(flat)
  {
    nested := map[];
    for n := 0 to |flat|
      invariant nested == Nested(flat[..n])
    {
      assert flat[..n + 1][..n] == flat[..n];
      var (key, value) := flat[n];
      if Internal(key) {
        continue;
      }
      nested := Insert(nested, Split(key), value);
    }
    assert flat[..|flat|] == flat;
  }

  // Wherever it stands, a key of MLflow's own makes no difference.
  lemma {:induction false} InternalIgnored<V>(a: Flat<V>, key: string, value: V, b: Flat<V>)
    requires "mlflow." <= key
    ensures Nested(a + [(key, value)] + b) == Nested(a + b)
    decreases |b|
  {
    var whole, n := a + [(key, value)] + b, |b| - 1;
    if b == [] {
      assert whole[..|whole| - 1] == a && a + b == a;
    } else {
      assert whole[..|whole| - 1] == a + [(key, value)] + b[..n];
      assert (a + b)[..|a + b| - 1] == a + b[..n];
      InternalIgnored(a, key, value, b[..n]);
    }
  }

  // ---------------------------------------------------------------- reading the tree

  function Lookup<V>(d: Dict<V>, path: seq<string>): Option<Tree<V>>
    requires |path| >= 1
    decreases path
  {
    if path[0] !in d then None
    else if |path| == 1 then Some(d[path[0]])
    else Lookup(Child(d, path[0]), path[1..])
  }

  function LeafAt<V>(d: Dict<V>, path: seq<string>): Option<V>
    requires |path| >= 1
  {
    var t := Lookup(d, path);
    if t.Some? && t.value.Leaf? then Some(t.value.value) else None
  }

  // One of two different paths runs through the other.
  predicate Clash(p: seq<string>, q: seq<string>) {
    p < q || q < p
  }

  // Inserting at a path puts the value there, destroys the leaves above and below it, and touches no other.
  lemma {:induction false} InsertLeaves<V>(d: Dict<V>, path: seq<string>, value: V, q: seq<string>)
    requires |path| >= 1 && |q| >= 1
    ensures LeafAt(Insert(d, path, value), q)
         == if q == path then Some(value) else if Clash(path, q) then None else LeafAt(d, q)
    decreases path
  {
    if path[0] != q[0] {
    } else {
      if |path| > 1 && |q| > 1 {
        InsertLeaves(Child(d, path[0]), path[1..], value, q[1..]);
        assert path == [path[0]] + path[1..] && q == [q[0]] + q[1..];
        assert path < q <==> path[1..] < q[1..];
        assert q < path <==> q[1..] < path[1..];
        if path[0] !in d || d[path[0]].Leaf? {
          EmptyHasNoLeaf<V>(q[1..]);
        }
      } else if |path| == 1 && |q| > 1 {
        EmptyHasNoLeaf<V>(q[1..]);
      }
    }
  }

  lemma EmptyHasNoLeaf<V>(path: seq<string>)
    requires |path| >= 1
    ensures LeafAt<V>(map[], path) == None
  {
  }

  // Any other key has its value at its path when it comes last.
  lemma LastIsFound<V>(flat: Flat<V>, key: string, value: V)
    requires !("mlflow." <= key)
    ensures LeafAt(Nested(flat + [(key, value)]), Split(key)) == Some(value)
  {
    assert (flat + [(key, value)])[..|flat|] == flat;
    InsertLeaves(Nested(flat), Split(key), value, Split(key));
  }

  // ---------------------------------------------------------------- which values survive

  // No later key, other than an mlflow-internal one, is a dotted prefix or extension of key i.
  predicate Survives<V>(flat: Flat<V>, i: nat)
    requires i < |flat|
  {
    !Internal(flat[i].0) && forall j :: i < j < |flat| && !Internal(flat[j].0) ==> !DottedClash(flat[i].0, flat[j].0)
  }

  predicate DottedClash(a: string, b: string) {
    a + "." <= b || b + "." <= a
  }

  lemma ClashIsDotted(a: string, b: string)
    ensures Clash(Split(a), Split(b)) <==> DottedClash(a, b)
  {
    DottedPrefix(a, b);
    DottedPrefix(b, a);
  }

  // The value of key i stands at its path exactly when it survives; otherwise no value stands there.
  lemma {:induction false} ValueFound<V>(flat: Flat<V>, i: nat)
    requires UniqueKeys(flat) && i < |flat|
    ensures LeafAt(Nested(flat), Split(flat[i].0)) == if Survives(flat, i) then Some(flat[i].1) else None
    decreases |flat|
  {
    var n := |flat| - 1;
    var before := flat[..n];
    var path := Split(flat[i].0);
    UniqueFront(flat);
    if i == n {
      if Internal(flat[i].0) {
        if LeafAt(Nested(flat), path).Some? {
          OnlyOwnKeys(flat, path);
          var k :| 0 <= k < |flat| && !Internal(flat[k].0) && Split(flat[k].0) == path;
          SplitInjective(flat[k].0, flat[i].0);
        }
      } else {
        InsertLeaves(Nested(before), path, flat[n].1, path);
      }
    } else {
      ValueFound(before, i);
      assert forall j :: 0 <= j < n ==> before[j] == flat[j];
      assert Survives(flat, i) <==> Survives(before, i) && (Internal(flat[n].0) || !DottedClash(flat[i].0, flat[n].0));
      if !Internal(flat[n].0) {
        InsertLeaves(Nested(before), Split(flat[n].0), flat[n].1, path);
        ClashIsDotted(flat[i].0, flat[n].0);
        UniqueAt(flat, i, n);
        if path == Split(flat[n].0) {
          SplitInjective(flat[i].0, flat[n].0);
        }
      }
    }
  }

  lemma {:induction false} UniqueFront<V>(flat: Flat<V>)
    requires UniqueKeys(flat) && flat != []
    ensures UniqueKeys(flat[..|flat| - 1])
    ensures forall k :: k in Keys(flat[..|flat| - 1]) ==> k in Keys(flat)
  {
    if |flat| <= 1 {
    } else {
      UniqueFront(flat[1..]);
      assert flat[..|flat| - 1][1..] == flat[1..][..|flat[1..]| - 1];
    }
  }

  // Every value in the tree came from a key that is not internal.
  lemma {:induction false} OnlyOwnKeys<V>(flat: Flat<V>, path: seq<string>)
    requires |path| >= 1 && LeafAt(Nested(flat), path).Some?
    ensures exists i :: 0 <= i < |flat| && !Internal(flat[i].0) && Split(flat[i].0) == path
  {
    if flat == [] {
    } else {
      var n := |flat| - 1;
      if !Internal(flat[n].0) {
        InsertLeaves(Nested(flat[..n]), Split(flat[n].0), flat[n].1, path);
      }
      if Internal(flat[n].0) || Split(flat[n].0) != path {
        OnlyOwnKeys(flat[..n], path);
        var i :| 0 <= i < n && !Internal(flat[..n][i].0) && Split(flat[..n][i].0) == path;
        assert flat[i] == flat[..n][i];
      }
    }
  }

  // ---------------------------------------------------------------- flattening back

  function LeafPaths<V>(d: Dict<V>): (paths: set<seq<string>>)
    ensures forall p :: p in paths ==> |p| >= 1
  {
    set k, p | k in d && p in Below(d[k]) :: [k] + p
  }

  function Below<V>(t: Tree<V>): set<seq<string>> {
    match t
    case Leaf(_) => {[]}
    case Node(kids) => set k, p | k in kids && p in Below(kids[k]) :: [k] + p
  }

  lemma {:induction false} LeafPathsExact<V>(d: Dict<V>, path: seq<string>)
    requires |path| >= 1
    ensures path in LeafPaths(d) <==> LeafAt(d, path).Some?
    decreases path
  {
    assert path == [path[0]] + path[1..];
    if path[0] !in d {
    } else {
      match d[path[0]]
      case Leaf(_) =>
        assert path in LeafPaths(d) <==> path[1..] in Below(d[path[0]]);
        if |path| > 1 {
          EmptyHasNoLeaf<V>(path[1..]);
        }
      case Node(kids) =>
        assert path in LeafPaths(d) <==> path[1..] in Below(d[path[0]]);
        assert Below(d[path[0]]) == LeafPaths(kids);
        if |path| > 1 {
          LeafPathsExact(kids, path[1..]);
        } else {
          assert [] !in LeafPaths(kids);
        }
    }
  }

  // The tree written back as dotted paths and their values.
  function Flattened<V>(d: Dict<V>): map<seq<string>, V> {
    map p | p in LeafPaths(d) :: (LeafPathsExact(d, p); LeafAt(d, p).value)
  }

  // The attributes the tree is meant to hold.
  function Wanted<V>(flat: Flat<V>): map<seq<string>, V> {
    if flat == [] then map[]
    else
      var n := |flat| - 1;
      if Internal(flat[n].0) then Wanted(flat[..n]) else Wanted(flat[..n])[Split(flat[n].0) := flat[n].1]
  }

  predicate PrefixFree<V>(flat: Flat<V>) {
    forall i, j :: 0 <= i < j < |flat| && !Internal(flat[i].0) && !Internal(flat[j].0) ==>
      !DottedClash(flat[i].0, flat[j].0)
  }

  // Nothing is lost or invented exactly when no two attributes clash.
  lemma {:induction false} RoundTrip<V>(flat: Flat<V>)
    requires UniqueKeys(flat)
    ensures Flattened(Nested(flat)) == Wanted(flat) <==> PrefixFree(flat)
  {
    forall path ensures path in Wanted(flat) <==>
      exists i :: 0 <= i < |flat| && !Internal(flat[i].0) && Split(flat[i].0) == path
    {
      WantedPaths(flat, path);
    }
    forall i | 0 <= i < |flat| && !Internal(flat[i].0)
      ensures Wanted(flat)[Split(flat[i].0)] == flat[i].1
      ensures LeafAt(Nested(flat), Split(flat[i].0)) == if Survives(flat, i) then Some(flat[i].1) else None
      ensures Split(flat[i].0) in LeafPaths(Nested(flat)) <==> Survives(flat, i)
    {
      ValueFound(flat, i);
      WantedValue(flat, i);
      LeafPathsExact(Nested(flat), Split(flat[i].0));
    }
    if PrefixFree(flat) {
      forall path | path in LeafPaths(Nested(flat)) ensures path in Wanted(flat) {
        LeafPathsExact(Nested(flat), path);
        OnlyOwnKeys(flat, path);
      }
      assert Flattened(Nested(flat)).Keys == Wanted(flat).Keys;
    } else {
      var i, j :| 0 <= i < j < |flat| && !Internal(flat[i].0) && !Internal(flat[j].0)
        && DottedClash(flat[i].0, flat[j].0);
      assert !Survives(flat, i);
      assert Split(flat[i].0) in Wanted(flat) && Split(flat[i].0) !in Flattened(Nested(flat));
    }
  }

  lemma {:induction false} WantedPaths<V>(flat: Flat<V>, path: seq<string>)
    ensures path in Wanted(flat)
      <==> exists i :: 0 <= i < |flat| && !Internal(flat[i].0) && Split(flat[i].0) == path
  {
    if flat == [] {
    } else {
      var n := |flat| - 1;
      WantedPaths(flat[..n], path);
      assert forall i :: 0 <= i < n ==> flat[..n][i] == flat[i];
      if path in Wanted(flat[..n]) {
        var i :| 0 <= i < n && !Internal(flat[..n][i].0) && Split(flat[..n][i].0) == path;
        assert flat[i] == flat[..n][i];
      }
    }
  }

  lemma {:induction false} WantedValue<V>(flat: Flat<V>, i: nat)
    requires UniqueKeys(flat) && i < |flat| && !Internal(flat[i].0)
    ensures Split(flat[i].0) in Wanted(flat) && Wanted(flat)[Split(flat[i].0)] == flat[i].1
    decreases |flat|
  {
    var n := |flat| - 1;
    if i >= n {
    } else {
      UniqueFront(flat);
      WantedValue(flat[..n], i);
      UniqueAt(flat, i, n);
      if Split(flat[i].0) == Split(flat[n].0) {
        SplitInjective(flat[i].0, flat[n].0);
      }
    }
  }
}

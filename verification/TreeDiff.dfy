// reference/helm-parity-check.py, diff: the structural comparison behind the parity gate.
module TreeDiff {
  import opened JsonTrees
  import opened Sequences
  import opened Wrappers

  datatype Step = Key(k: string) | At(n: nat)

  type Path = seq<Step>

  datatype Delta =
    | TypeDiffers(path: Path)
    | OnlyInRendered(path: Path)
    | OnlyInManifest(path: Path)
    | LengthDiffers(path: Path)
    | ValueDiffers(path: Path)

  // The differences of two trees.
  function Deltas(m: Json, r: Json, path: Path): set<Delta>
    decreases m
  {
    if TagOf(m) != TagOf(r) then {TypeDiffers(path)}
    else if m.Obj? then
      (set k | k in r.fields.Keys - m.fields.Keys :: OnlyInRendered(path + [Key(k)]))
      + (set k | k in m.fields.Keys - r.fields.Keys :: OnlyInManifest(path + [Key(k)]))
      + (set k, d | k in m.fields.Keys * r.fields.Keys && d in Deltas(m.fields[k], r.fields[k], path + [Key(k)]) :: d)
    else if m.Arr? then
      (if |m.items| != |r.items| then {LengthDiffers(path)} else {})
      + (set n, d | 0 <= n < Min(|m.items|, |r.items|) && d in Deltas(m.items[n], r.items[n], path + [At(n)]) :: d)
    else if m != r then {ValueDiffers(path)}
    else {}
  }

  // Values of two types differ in that and in nothing else; of one type they never do.
  lemma TypesCompared(m: Json, r: Json, path: Path)
    ensures var alike :=
        || (m.Null? && r.Null?) || (m.Bool? && r.Bool?) || (m.Int? && r.Int?) || (m.Float? && r.Float?)
        || (m.Str? && r.Str?) || (m.Arr? && r.Arr?) || (m.Obj? && r.Obj?);
      if alike then TagOf(m) == TagOf(r) else Deltas(m, r, path) == {TypeDiffers(path)}
  {
  }

  function Min(a: int, b: int): int {
    if a < b then a else b
  }

  // ---------------------------------------------------------------- the lines in their order

  // Python's sorted, on a set of keys.
  type Sorter = set<string> -> seq<string>

  // The lines diff collects: the keys of both mappings in sorted order, the items of lists by place.
  function Lines(m: Json, r: Json, path: Path, sort: Sorter): seq<Delta>
    decreases m, 1, 0
  {
    if TagOf(m) != TagOf(r) then [TypeDiffers(path)]
    else if m.Obj? then KeyLines(m, r, path, sort(m.fields.Keys + r.fields.Keys), sort)
    else if m.Arr? then
      (if |m.items| != |r.items| then [LengthDiffers(path)] else [])
      + ItemLines(m, r, path, Min(|m.items|, |r.items|), sort)
    else if m != r then [ValueDiffers(path)]
    else []
  }

  function KeyLines(m: Json, r: Json, path: Path, keys: seq<string>, sort: Sorter): seq<Delta>
    requires m.Obj? && r.Obj?
    decreases m, 0, |keys|
  {
    if keys == [] then []
    else
      var k := keys[|keys| - 1];
      KeyLines(m, r, path, keys[..|keys| - 1], sort)
      + if k !in m.fields then [OnlyInRendered(path + [Key(k)])]
        else if k !in r.fields then [OnlyInManifest(path + [Key(k)])]
        else Lines(m.fields[k], r.fields[k], path + [Key(k)], sort)
  }

  function ItemLines(m: Json, r: Json, path: Path, n: nat, sort: Sorter): seq<Delta>
    requires m.Arr? && r.Arr? && n <= |m.items| && n <= |r.items|
    decreases m, 0, n
  {
    if n == 0 then []
    else ItemLines(m, r, path, n - 1, sort) + Lines(m.items[n - 1], r.items[n - 1], path + [At(n - 1)], sort)
  }

  method Diff(m: Json, r: Json, path: Path, sort: Sorter) returns (out: seq<Delta>)
    ensures out == Lines(m, r, path, sort)
    decreases m
  {
    if TagOf(m) != TagOf(r) {
      return [TypeDiffers(path)];
    }
    out := [];
    if m.Obj? {
      var keys := sort(m.fields.Keys + r.fields.Keys);
      for i := 0 to |keys|
        invariant out == KeyLines(m, r, path, keys[..i], sort)
      {
        assert keys[..i + 1][..i] == keys[..i];
        var k := keys[i];
        if k !in m.fields {
          out := out + [OnlyInRendered(path + [Key(k)])];
        } else if k !in r.fields {
          out := out + [OnlyInManifest(path + [Key(k)])];
        } else {
          var below := Diff(m.fields[k], r.fields[k], path + [Key(k)], sort);
          out := out + below;
        }
      }
      assert keys[..|keys|] == keys;
    } else if m.Arr? {
      if |m.items| != |r.items| {
        out := out + [LengthDiffers(path)];
      }
      ghost var before := out;
      for n := 0 to Min(|m.items|, |r.items|)
        invariant out == before + ItemLines(m, r, path, n, sort)
      {
        var below := Diff(m.items[n], r.items[n], path + [At(n)], sort);
        Regroup(before, ItemLines(m, r, path, n, sort), below);
        out := out + below;
      }
    } else if m != r {
      out := [ValueDiffers(path)];
    }
  }

  // What a path leads to.
  function Locate(j: Json, path: Path): Option<Json> {
    if path == [] then Some(j)
    else
      match path[0]
      case Key(k) => if j.Obj? && k in j.fields then Locate(j.fields[k], path[1..]) else None
      case At(n) => if j.Arr? && n < |j.items| then Locate(j.items[n], path[1..]) else None
  }

  // A line is justified when the two trees really differ, in that way, at that path.
  predicate Justified(m: Json, r: Json, d: Delta) {
    match d
    case TypeDiffers(p) =>
      var a, b := Locate(m, p), Locate(r, p);
      a.Some? && b.Some? && TagOf(a.value) != TagOf(b.value)
    case OnlyInRendered(p) => BothMappings(m, r, p) && Locate(m, p).None? && Locate(r, p).Some?
    case OnlyInManifest(p) => BothMappings(m, r, p) && Locate(m, p).Some? && Locate(r, p).None?
    case LengthDiffers(p) =>
      var a, b := Locate(m, p), Locate(r, p);
      a.Some? && b.Some? && a.value.Arr? && b.value.Arr? && |a.value.items| != |b.value.items|
    case ValueDiffers(p) =>
      var a, b := Locate(m, p), Locate(r, p);
      a.Some? && b.Some? && TagOf(a.value) == TagOf(b.value) && !a.value.Arr? && !a.value.Obj? && a.value != b.value
  }

  // The last step of p picks a key of a mapping that both trees have at the same place.
  predicate BothMappings(m: Json, r: Json, p: Path) {
    && p != []
    && p[|p| - 1].Key?
    && var a, b := Locate(m, p[..|p| - 1]), Locate(r, p[..|p| - 1]);
       a.Some? && b.Some? && a.value.Obj? && b.value.Obj?
  }

  function Below(d: Delta, n: nat): Delta
    requires n <= |d.path|
  {
    d.(path := d.path[n..])
  }

  // One step down the same branch of both trees changes nothing about a justification.
  lemma JustifiedBelow(m: Json, r: Json, d: Delta, a: Json, b: Json)
    requires d.path != []
    requires Locate(m, d.path[..1]) == Some(a) && Locate(r, d.path[..1]) == Some(b)
    ensures Justified(m, r, d) <==> Justified(a, b, Below(d, 1))
  {
    var p := d.path;
    assert d.path[..1][1..] == [];
    assert Locate(m, p) == Locate(a, p[1..]) && Locate(r, p) == Locate(b, p[1..]);
    if |p| > 1 {
      assert p[..|p| - 1][0] == p[0];
      assert p[..|p| - 1][1..] == p[1..][..|p| - 2];
      assert Locate(m, p[..|p| - 1]) == Locate(a, p[1..][..|p| - 2]);
      assert Locate(r, p[..|p| - 1]) == Locate(b, p[1..][..|p| - 2]);
      assert p[1..][|p| - 2] == p[|p| - 1];
    }
  }

  // diff reports exactly the real differences: every line is justified, and every difference is a line.
  lemma {:induction false} DeltasExact(m: Json, r: Json, path: Path, d: Delta)
    ensures d in Deltas(m, r, path) <==> path <= d.path && Justified(m, r, Below(d, |path|))
    decreases m, 1
  {
    if TagOf(m) == TagOf(r) && m.Obj? {
      MappingExact(m, r, path, d);
    } else if TagOf(m) == TagOf(r) && m.Arr? {
      ListExact(m, r, path, d);
    } else if path <= d.path && Justified(m, r, Below(d, |path|)) {
      AtThisNode(m, r, path, d);
    }
  }

  lemma {:induction false} MappingExact(m: Json, r: Json, path: Path, d: Delta)
    requires m.Obj? && r.Obj?
    ensures d in Deltas(m, r, path) <==> path <= d.path && Justified(m, r, Below(d, |path|))
    decreases m, 0
  {
    forall k | k in m.fields.Keys * r.fields.Keys
      ensures d in Deltas(m.fields[k], r.fields[k], path + [Key(k)])
        <==> path + [Key(k)] <= d.path && Justified(m, r, Below(d, |path|))
    {
      DeltasExact(m.fields[k], r.fields[k], path + [Key(k)], d);
      if path + [Key(k)] <= d.path {
        Descend(m, r, path, Key(k), d, m.fields[k], r.fields[k]);
      }
    }
    if d in Deltas(m, r, path) {
      if k :| k in r.fields.Keys - m.fields.Keys && d == OnlyInRendered(path + [Key(k)]) {
        MissingKey(m, r, path, k, d);
      } else if k :| k in m.fields.Keys - r.fields.Keys && d == OnlyInManifest(path + [Key(k)]) {
        MissingKey(m, r, path, k, d);
      }
    } else if path <= d.path && Justified(m, r, Below(d, |path|)) {
      AtThisNode(m, r, path, d);
    }
  }

  lemma {:induction false} ListExact(m: Json, r: Json, path: Path, d: Delta)
    requires m.Arr? && r.Arr?
    ensures d in Deltas(m, r, path) <==> path <= d.path && Justified(m, r, Below(d, |path|))
    decreases m, 0
  {
    forall n | 0 <= n < Min(|m.items|, |r.items|)
      ensures d in Deltas(m.items[n], r.items[n], path + [At(n)])
        <==> path + [At(n)] <= d.path && Justified(m, r, Below(d, |path|))
    {
      DeltasExact(m.items[n], r.items[n], path + [At(n)], d);
      if path + [At(n)] <= d.path {
        Descend(m, r, path, At(n), d, m.items[n], r.items[n]);
      }
    }
    if d == LengthDiffers(path) {
      assert d.path[|path|..] == [];
    }
    if path <= d.path && Justified(m, r, Below(d, |path|)) {
      AtThisNode(m, r, path, d);
    }
  }

  lemma MissingKey(m: Json, r: Json, path: Path, k: string, d: Delta)
    requires m.Obj? && r.Obj? && d.path == path + [Key(k)]
    requires || (d.OnlyInRendered? && k !in m.fields && k in r.fields)
             || (d.OnlyInManifest? && k in m.fields && k !in r.fields)
    ensures Justified(m, r, Below(d, |path|))
  {
    var p := d.path[|path|..];
    assert p == [Key(k)] && p[..0] == [] && p[1..] == [];
  }

  lemma Descend(m: Json, r: Json, path: Path, step: Step, d: Delta, a: Json, b: Json)
    requires path + [step] <= d.path
    requires Locate(m, [step]) == Some(a) && Locate(r, [step]) == Some(b)
    ensures Justified(m, r, Below(d, |path|)) <==> Justified(a, b, Below(d, |path| + 1))
  {
    var e := Below(d, |path|);
    FirstStep(d.path, path, step);
    JustifiedBelow(m, r, e, a, b);
    BelowTwice(d, |path|);
  }

  lemma FirstStep(whole: Path, path: Path, step: Step)
    requires path + [step] <= whole
    ensures whole[|path|..] != [] && whole[|path|..][..1] == [step]
  {
    assert whole[|path|] == (path + [step])[|path|] == step;
  }

  lemma BelowTwice(d: Delta, n: nat)
    requires n < |d.path|
    ensures Below(Below(d, n), 1) == Below(d, n + 1)
  {
    assert d.path[n..][1..] == d.path[n + 1..];
  }

  // The justified lines that do not lie below a branch common to both trees.
  lemma AtThisNode(m: Json, r: Json, path: Path, d: Delta)
    requires path <= d.path
    requires Justified(m, r, Below(d, |path|))
    ensures var e := Below(d, |path|);
      || (e.path == [] && d.path == path)
      || (TagOf(m) == TagOf(r) && d.path == path + [e.path[0]] && (e.OnlyInRendered? || e.OnlyInManifest?)
          && m.Obj? && e.path[0].Key? && (e.path[0].k in m.fields <==> e.path[0].k !in r.fields))
      || (m.Obj? && r.Obj? && e.path[0].Key? && e.path[0].k in m.fields.Keys * r.fields.Keys
          && path + [Key(e.path[0].k)] <= d.path)
      || (m.Arr? && r.Arr? && e.path[0].At? && e.path[0].n < Min(|m.items|, |r.items|)
          && path + [At(e.path[0].n)] <= d.path)
  {
    var e := Below(d, |path|);
    var p := e.path;
    assert d.path == path + p;
    if p == [] {
    } else {
      assert d.path[..|path| + 1] == path + [p[0]];
      if (e.OnlyInRendered? || e.OnlyInManifest?) && |p| == 1 {
        assert p[..0] == [] && p[1..] == [];
      } else if e.OnlyInRendered? || e.OnlyInManifest? {
        assert p[..|p| - 1][0] == p[0];
      }
    }
  }

  // The gate passes exactly on equal trees.
  lemma DiffEmptyIffEqual(m: Json, r: Json, path: Path)
    ensures Deltas(m, r, path) == {} <==> m == r
  {
    if m == r {
      forall d | d in Deltas(m, r, path) ensures false {
        DeltasExact(m, r, path, d);
      }
    } else {
      UnequalReported(m, r, path);
    }
  }

  lemma {:induction false} UnequalReported(m: Json, r: Json, path: Path)
    requires m != r
    ensures Deltas(m, r, path) != {}
    decreases m
  {
    if TagOf(m) != TagOf(r) {
    } else if m.Obj? {
      if r.fields.Keys - m.fields.Keys != {} {
        var k :| k in r.fields.Keys - m.fields.Keys;
        assert OnlyInRendered(path + [Key(k)]) in Deltas(m, r, path);
      } else if m.fields.Keys - r.fields.Keys != {} {
        var k :| k in m.fields.Keys - r.fields.Keys;
        assert OnlyInManifest(path + [Key(k)]) in Deltas(m, r, path);
      } else {
        assert forall k :: k in m.fields.Keys <==> k in r.fields.Keys;
        assert m.fields.Keys == r.fields.Keys;
        var k :| k in m.fields && m.fields[k] != r.fields[k];
        UnequalReported(m.fields[k], r.fields[k], path + [Key(k)]);
        var d :| d in Deltas(m.fields[k], r.fields[k], path + [Key(k)]);
        assert d in Deltas(m, r, path);
      }
    } else if m.Arr? && |m.items| == |r.items| {
      var n :| 0 <= n < |m.items| && m.items[n] != r.items[n];
      UnequalReported(m.items[n], r.items[n], path + [At(n)]);
      var d :| d in Deltas(m.items[n], r.items[n], path + [At(n)]);
      assert d in Deltas(m, r, path);
    }
  }

  // ---------------------------------------------------------------- the lines are the differences, once each

  predicate NoneTwice<T(==)>(s: seq<T>) {
    forall i, j :: 0 <= i < j < |s| ==> s[i] != s[j]
  }

  // What is needed of sorting: it lists the keys, each once.
  ghost predicate ListsKeys(sort: Sorter) {
    forall s: set<string> :: (forall k :: k in sort(s) <==> k in s) && NoneTwice(sort(s))
  }

  // Some lines are these differences, once each.
  ghost predicate Enumerates(lines: seq<Delta>, deltas: set<Delta>) {
    (forall d :: d in lines <==> d in deltas) && NoneTwice(lines)
  }

  lemma Apart(a: seq<Delta>, b: seq<Delta>, x: set<Delta>, y: set<Delta>)
    requires Enumerates(a, x) && Enumerates(b, y) && x !! y
    ensures Enumerates(a + b, x + y)
  {
    forall i, j | 0 <= i < j < |a + b| ensures (a + b)[i] != (a + b)[j] {
      if i < |a| <= j {
        assert a[i] in x && b[j - |a|] in y;
      }
    }
  }

  // The differences at or below one key, and those of some keys.
  ghost function KeyDeltas(m: Json, r: Json, path: Path, k: string): set<Delta>
    requires m.Obj? && r.Obj?
  {
    if k !in m.fields then {OnlyInRendered(path + [Key(k)])}
    else if k !in r.fields then {OnlyInManifest(path + [Key(k)])}
    else Deltas(m.fields[k], r.fields[k], path + [Key(k)])
  }

  ghost function KeysDeltas(m: Json, r: Json, path: Path, keys: seq<string>): set<Delta>
    requires m.Obj? && r.Obj?
  {
    set k, d | k in keys && d in KeyDeltas(m, r, path, k) :: d
  }

  ghost function ItemsDeltas(m: Json, r: Json, path: Path, n: nat): set<Delta>
    requires m.Arr? && r.Arr? && n <= |m.items| && n <= |r.items|
  {
    set i, d | 0 <= i < n && d in Deltas(m.items[i], r.items[i], path + [At(i)]) :: d
  }

  lemma KeyDeltasBelow(m: Json, r: Json, path: Path, k: string)
    requires m.Obj? && r.Obj?
    ensures forall d :: d in KeyDeltas(m, r, path, k) ==> path + [Key(k)] <= d.path
  {
    forall d | d in KeyDeltas(m, r, path, k) ensures path + [Key(k)] <= d.path {
      if k in m.fields && k in r.fields {
        DeltasExact(m.fields[k], r.fields[k], path + [Key(k)], d);
      }
    }
  }

  lemma OneStep(path: Path, a: Step, b: Step, whole: Path)
    requires path + [a] <= whole && path + [b] <= whole
    ensures a == b
  {
    assert (path + [a])[|path|] == whole[|path|] == (path + [b])[|path|];
  }

  lemma KeysApart(m: Json, r: Json, path: Path, keys: seq<string>, k: string)
    requires m.Obj? && r.Obj? && k !in keys
    ensures KeysDeltas(m, r, path, keys) !! KeyDeltas(m, r, path, k)
    ensures KeysDeltas(m, r, path, keys + [k]) == KeysDeltas(m, r, path, keys) + KeyDeltas(m, r, path, k)
  {
    forall d | d in KeysDeltas(m, r, path, keys) ensures d !in KeyDeltas(m, r, path, k) {
      var other :| other in keys && d in KeyDeltas(m, r, path, other);
      KeyDeltasBelow(m, r, path, other);
      KeyDeltasBelow(m, r, path, k);
      if d in KeyDeltas(m, r, path, k) {
        OneStep(path, Key(other), Key(k), d.path);
      }
    }
    assert forall j :: j in keys + [k] <==> j in keys || j == k;
  }

  lemma ItemsApart(m: Json, r: Json, path: Path, n: nat)
    requires m.Arr? && r.Arr? && n < |m.items| && n < |r.items|
    ensures ItemsDeltas(m, r, path, n) !! Deltas(m.items[n], r.items[n], path + [At(n)])
    ensures ItemsDeltas(m, r, path, n + 1)
         == ItemsDeltas(m, r, path, n) + Deltas(m.items[n], r.items[n], path + [At(n)])
  {
    forall d | d in ItemsDeltas(m, r, path, n) ensures d !in Deltas(m.items[n], r.items[n], path + [At(n)]) {
      var i :| 0 <= i < n && d in Deltas(m.items[i], r.items[i], path + [At(i)]);
      DeltasExact(m.items[i], r.items[i], path + [At(i)], d);
      DeltasExact(m.items[n], r.items[n], path + [At(n)], d);
      if path + [At(n)] <= d.path {
        OneStep(path, At(i), At(n), d.path);
      }
    }
  }

  // diff writes every difference, and each of them once.
  lemma {:induction false} LinesAreDeltas(m: Json, r: Json, path: Path, sort: Sorter)
    requires ListsKeys(sort)
    ensures Enumerates(Lines(m, r, path, sort), Deltas(m, r, path))
    decreases m, 1, 0
  {
    if TagOf(m) == TagOf(r) && m.Obj? {
      KeyLinesAreDeltas(m, r, path, sort(m.fields.Keys + r.fields.Keys), sort);
      MappingSplit(m, r, path, sort(m.fields.Keys + r.fields.Keys));
    } else if TagOf(m) == TagOf(r) && m.Arr? {
      var n := Min(|m.items|, |r.items|);
      ItemLinesAreDeltas(m, r, path, n, sort);
      ListLines(m, r, path, ItemLines(m, r, path, n, sort));
    }
  }

  lemma MappingSplit(m: Json, r: Json, path: Path, keys: seq<string>)
    requires m.Obj? && r.Obj? && forall k :: k in keys <==> k in m.fields.Keys + r.fields.Keys
    ensures KeysDeltas(m, r, path, keys) == Deltas(m, r, path)
  {
    forall d ensures d in KeysDeltas(m, r, path, keys) <==> d in Deltas(m, r, path) {
      if d in KeysDeltas(m, r, path, keys) {
        var k :| k in keys && d in KeyDeltas(m, r, path, k);
      }
      if d in Deltas(m, r, path) {
        if k :| k in r.fields.Keys - m.fields.Keys && d == OnlyInRendered(path + [Key(k)]) {
          assert k in keys && d in KeyDeltas(m, r, path, k);
        } else if k :| k in m.fields.Keys - r.fields.Keys && d == OnlyInManifest(path + [Key(k)]) {
          assert k in keys && d in KeyDeltas(m, r, path, k);
        } else {
          var k :| k in m.fields.Keys * r.fields.Keys && d in Deltas(m.fields[k], r.fields[k], path + [Key(k)]);
          assert k in keys && d in KeyDeltas(m, r, path, k);
        }
      }
    }
  }

  lemma ListLines(m: Json, r: Json, path: Path, below: seq<Delta>)
    requires m.Arr? && r.Arr? && Enumerates(below, ItemsDeltas(m, r, path, Min(|m.items|, |r.items|)))
    ensures Enumerates((if |m.items| != |r.items| then [LengthDiffers(path)] else []) + below, Deltas(m, r, path))
  {
    ListSplit(m, r, path);
    var deltas := ItemsDeltas(m, r, path, Min(|m.items|, |r.items|));
    if |m.items| != |r.items| {
      Apart([LengthDiffers(path)], below, {LengthDiffers(path)}, deltas);
    } else {
      assert [] + below == below && {} + deltas == deltas;
    }
  }

  lemma ListSplit(m: Json, r: Json, path: Path)
    requires m.Arr? && r.Arr?
    ensures var n := Min(|m.items|, |r.items|);
      && LengthDiffers(path) !in ItemsDeltas(m, r, path, n)
      && Deltas(m, r, path)
           == (if |m.items| != |r.items| then {LengthDiffers(path)} else {}) + ItemsDeltas(m, r, path, n)
  {
    forall d | d in ItemsDeltas(m, r, path, Min(|m.items|, |r.items|)) ensures d != LengthDiffers(path) {
      var i :| 0 <= i < Min(|m.items|, |r.items|) && d in Deltas(m.items[i], r.items[i], path + [At(i)]);
      DeltasExact(m.items[i], r.items[i], path + [At(i)], d);
    }
  }

  lemma {:induction false} KeyLinesAreDeltas(m: Json, r: Json, path: Path, keys: seq<string>, sort: Sorter)
    requires m.Obj? && r.Obj? && ListsKeys(sort) && NoneTwice(keys)
    ensures Enumerates(KeyLines(m, r, path, keys, sort), KeysDeltas(m, r, path, keys))
    decreases m, 0, |keys|
  {
    if keys == [] {
    } else {
      var front, k := keys[..|keys| - 1], keys[|keys| - 1];
      KeyLinesAreDeltas(m, r, path, front, sort);
      if k in m.fields && k in r.fields {
        LinesAreDeltas(m.fields[k], r.fields[k], path + [Key(k)], sort);
      }
      var more := KeyLines(m, r, path, keys, sort)[|KeyLines(m, r, path, front, sort)|..];
      assert Enumerates(more, KeyDeltas(m, r, path, k));
      KeysApart(m, r, path, front, k);
      assert keys == front + [k];
      Apart(KeyLines(m, r, path, front, sort), more, KeysDeltas(m, r, path, front), KeyDeltas(m, r, path, k));
    }
  }

  lemma {:induction false} ItemLinesAreDeltas(m: Json, r: Json, path: Path, n: nat, sort: Sorter)
    requires m.Arr? && r.Arr? && n <= |m.items| && n <= |r.items| && ListsKeys(sort)
    ensures Enumerates(ItemLines(m, r, path, n, sort), ItemsDeltas(m, r, path, n))
    decreases m, 0, n
  {
    if n == 0 {
    } else {
      ItemLinesAreDeltas(m, r, path, n - 1, sort);
      LinesAreDeltas(m.items[n - 1], r.items[n - 1], path + [At(n - 1)], sort);
      ItemsApart(m, r, path, n - 1);
      Apart(ItemLines(m, r, path, n - 1, sort), Lines(m.items[n - 1], r.items[n - 1], path + [At(n - 1)], sort),
            ItemsDeltas(m, r, path, n - 1), Deltas(m.items[n - 1], r.items[n - 1], path + [At(n - 1)]));
    }
  }
}

// reference/helm-parity-check.py, strategic_merge: patch a tree the way `kubectl patch` would.
module StrategicMerge {
  import opened JsonTrees
  import opened Wrappers

  type Fields = map<string, Json>

  // ---------------------------------------------------------------- names of list items

  // Equality of Python dict keys: 1, 1.0 and True are one key.
  datatype NameKey = NoName | NumName(x: real) | StrName(s: string)

  predicate Hashable(j: Json) {
    !j.Arr? && !j.Obj?
  }

  function HashKey(j: Json): NameKey
    requires Hashable(j)
  {
    match j
    case Null => NoName
    case Bool(b) => NumName(if b then 1.0 else 0.0)
    case Int(i) => NumName(i as real)
    case Float(x) => NumName(x)
    case Str(s) => StrName(s)
  }

  // A missing name reads as null.
  function NameOf(item: Json): Json
    requires item.Obj?
  {
    if "name" in item.fields then item.fields["name"] else Null
  }

  // An item whose name can key the index.
  predicate Indexable(item: Json) {
    item.Obj? && Hashable(NameOf(item))
  }

  function KeyOf(item: Json): NameKey
    requires Indexable(item)
  {
    HashKey(NameOf(item))
  }

  // The guard of the merge-by-name branch; it also accepts the empty list.
  predicate MergesByName(items: seq<Json>) {
    forall i :: 0 <= i < |items| ==> items[i].Obj? && "name" in items[i].fields
  }

  predicate AllIndexable(items: seq<Json>) {
    forall i :: 0 <= i < |items| ==> Indexable(items[i])
  }

  // by_name: the last item of a name wins.
  function IndexByName(items: seq<Json>): (index: map<NameKey, nat>)
    requires AllIndexable(items)
    ensures forall k :: k in index ==> index[k] < |items| && KeyOf(items[index[k]]) == k
    ensures forall i :: 0 <= i < |items| ==> KeyOf(items[i]) in index && i <= index[KeyOf(items[i])]
  {
    if items == [] then map[]
    else
      var last := |items| - 1;
      var before := IndexByName(items[..last]);
      assert forall i :: 0 <= i < last ==> items[..last][i] == items[i];
      before[KeyOf(items[last]) := last]
  }

  // ---------------------------------------------------------------- the merge as a function

  function FieldsOf(base: Json): Fields {
    if base.Obj? then base.fields else map[]
  }

  function ItemsOf(base: Json): seq<Json> {
    if base.Arr? then base.items else []
  }

  function Merge(base: Json, patch: Json): Outcome<Json>
    decreases patch, 1
  {
    match patch
    case Obj(p) =>
      var b := FieldsOf(base);
      if exists k :: k in p && k in b && !p[k].Null? && Merge(b[k], p[k]).Raised? then Raised
      else Returned(Obj(map k | k in b.Keys + p.Keys && !(k in p && p[k].Null?) ::
                          if k !in p then b[k] else if k !in b then p[k] else Merge(b[k], p[k]).value))
    case Arr(items) =>
      if !MergesByName(items) then Returned(patch)
      else if !AllIndexable(ItemsOf(base)) then Raised
      else
        var out := MergeItems(ItemsOf(base), IndexByName(ItemsOf(base)), items);
        if out.Raised? then Raised else Returned(Arr(out.value))
    case _ => Returned(patch)
  }

  // The loop over the patch items; index is not extended by the items it appends.
  function MergeItems(out: seq<Json>, index: map<NameKey, nat>, items: seq<Json>): Outcome<seq<Json>>
    requires MergesByName(items)
    requires forall k :: k in index ==> index[k] < |out|
    decreases items, 0
  {
    if items == [] then Returned(out)
    else if !Indexable(items[0]) then Raised
    else
      var key := KeyOf(items[0]);
      if key in index then
        var merged := Merge(out[index[key]], items[0]);
        if merged.Raised? then Raised
        else MergeItems(out[index[key] := merged.value], index, items[1..])
      else
        MergeItems(out + [items[0]], index, items[1..])
  }

  // The key-by-key reading of a merged mapping.
  lemma MappingMerged(base: Json, patch: Json, out: Fields)
    requires patch.Obj?
    requires var b, p := FieldsOf(base), patch.fields;
      && (forall k :: k in p && k in b && !p[k].Null? ==> Merge(b[k], p[k]).Returned?)
      && (forall k :: k in out <==> k in b.Keys + p.Keys && !(k in p && p[k].Null?))
      && (forall k :: k in out ==>
            out[k] == if k !in p then b[k] else if k !in b then p[k] else Merge(b[k], p[k]).value)
    ensures Merge(base, patch) == Returned(Obj(out))
  {
    var r := Merge(base, patch);
    assert r.Returned?;
    assert r.value.fields.Keys == out.Keys;
    assert r.value.fields == out;
  }

  // ---------------------------------------------------------------- the merge as the script runs it

  method StrategicMerge(base: Json, patch: Json) returns (r: Outcome<Json>)
    ensures r == Merge(base, patch)
    decreases patch
  {
    if patch.Obj? {
      var p, b := patch.fields, FieldsOf(base);
      var out := b;
      var todo := p.Keys;
      while todo != {}
        invariant todo <= p.Keys
        invariant forall k :: k in p && k !in todo && k in b && !p[k].Null? ==> Merge(b[k], p[k]).Returned?
        invariant forall k :: k in out <==> k in b.Keys + (p.Keys - todo) && !(k in p.Keys - todo && p[k].Null?)
        invariant forall k :: k in out ==>
          out[k] == if k !in p.Keys - todo then b[k] else if k !in b then p[k] else Merge(b[k], p[k]).value
      {
        var key :| key in todo;
        var value := p[key];
        todo := todo - {key};
        if value.Null? {
          out := out - {key};
        } else if key in out {
          var merged := StrategicMerge(out[key], value);
          if merged.Raised? {
            return Raised;
          }
          out := out[key := merged.value];
        } else {
          out := out[key := value];
        }
      }
      assert p.Keys - todo == p.Keys;
      MappingMerged(base, patch, out);
      r := Returned(Obj(out));
    } else if patch.Arr? && MergesByName(patch.items) {
      var old_items := ItemsOf(base);
      if !AllIndexable(old_items) {
        return Raised;
      }
      var out, byName := old_items, IndexByName(old_items);
      for n := 0 to |patch.items|
        invariant |out| >= |old_items|
        invariant MergeItems(out, byName, patch.items[n..]) == MergeItems(old_items, byName, patch.items)
      {
        var item := patch.items[n];
        assert patch.items[n..][0] == item && patch.items[n..][1..] == patch.items[n + 1..];
        if !Indexable(item) {
          return Raised;
        }
        var key := KeyOf(item);
        if key in byName {
          var merged := StrategicMerge(out[byName[key]], item);
          if merged.Raised? {
            return Raised;
          }
          out := out[byName[key] := merged.value];
        } else {
          out := out + [item];
        }
      }
      assert patch.items[|patch.items|..] == [];
      r := Returned(Arr(out));
    } else {
      r := Returned(patch);
    }
  }
}

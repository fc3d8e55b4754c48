// reference/gen_pdf.py, walk inside outline_titles: listing a PDF outline (section 12.3.3 of
// ISO 32000-1), whose First and Next references need not form a tree.
module PdfOutline {
  import opened Wrappers

  // What of an object the walk reads: its references, where they are present, and its title.
  datatype Obj = Obj(first: Option<int>, next: Option<int>, title: string)

  type Objs = map<int, Obj>

  datatype Entry = Entry(depth: nat, id: int)

  // The entries a walk appends and the objects it has then seen.
  function Walked(objs: Objs, n: Option<int>, depth: nat, seen: set<int>): (r: (seq<Entry>, set<int>))
    ensures seen <= r.1
    decreases objs.Keys - seen
  {
    if n.None? || n.value !in objs || n.value in seen then ([], seen)
    else
      var o := objs[n.value];
      var below := Walked(objs, o.first, depth + 1, seen + {n.value});
      var behind := Walked(objs, o.next, depth, below.1);
      ([Entry(depth, n.value)] + below.0 + behind.0, behind.1)
  }

  class Walker {
    const objs: Objs
    var found: seq<Entry>
    var seen: set<int>

    constructor (objs: Objs)
      ensures this.objs == objs && found == [] && seen == {}
    {
      this.objs := objs;
      found, seen := [], {};
    }

    method Walk(start: Option<int>, depth: nat)
      modifies this
      ensures found == old(found) + Walked(objs, start, depth, old(seen)).0
      ensures seen == Walked(objs, start, depth, old(seen)).1
      decreases objs.Keys - seen
    {
      var n := start;
      while n.Some? && n.value in objs && n.value !in seen
        invariant old(seen) <= seen
        invariant found + Walked(objs, n, depth, seen).0 == old(found) + Walked(objs, start, depth, old(seen)).0
        invariant Walked(objs, n, depth, seen).1 == Walked(objs, start, depth, old(seen)).1
        decreases objs.Keys - seen
      {
        seen := seen + {n.value};
        found := found + [Entry(depth, n.value)];
        Walk(objs[n.value].first, depth + 1);
        n := objs[n.value].next;
      }
    }
  }

  // ---------------------------------------------------------------- any graph

  ghost function Ids(found: seq<Entry>): set<int> {
    set e | e in found :: e.id
  }

  ghost predicate NoIdTwice(found: seq<Entry>) {
    forall i, j :: 0 <= i < j < |found| ==> found[i].id != found[j].id
  }

  // Each object is listed at most once, and exactly the newly seen ones are.
  lemma {:induction false} ListedOnce(objs: Objs, n: Option<int>, depth: nat, seen: set<int>)
    ensures var r := Walked(objs, n, depth, seen);
      NoIdTwice(r.0) && Ids(r.0) == r.1 - seen && Ids(r.0) <= objs.Keys
    decreases objs.Keys - seen
  {
    if n.None? || n.value !in objs || n.value in seen {
    } else {
      var id := n.value;
      var below := Walked(objs, objs[id].first, depth + 1, seen + {id});
      var behind := Walked(objs, objs[id].next, depth, below.1);
      ListedOnce(objs, objs[id].first, depth + 1, seen + {id});
      ListedOnce(objs, objs[id].next, depth, below.1);
      ThreeParts(Entry(depth, id), below.0, behind.0);
      assert Ids(below.0) == below.1 - (seen + {id}) && Ids(behind.0) == behind.1 - below.1;
      assert {id} + Ids(below.0) + Ids(behind.0) == behind.1 - seen;
    }
  }

  lemma ThreeParts(e: Entry, b: seq<Entry>, c: seq<Entry>)
    requires NoIdTwice(b) && NoIdTwice(c) && Ids(b) !! Ids(c) && e.id !in Ids(b) + Ids(c)
    ensures NoIdTwice([e] + b + c) && Ids([e] + b + c) == {e.id} + Ids(b) + Ids(c)
  {
    IdsOfParts([e], b, c);
    assert Ids([e]) == {e.id};
    Apart([e], b);
    Apart([e] + b, c);
  }

  lemma IdsOfParts(a: seq<Entry>, b: seq<Entry>, c: seq<Entry>)
    ensures Ids(a + b) == Ids(a) + Ids(b)
    ensures Ids(a + b + c) == Ids(a) + Ids(b) + Ids(c)
  {
  }

  lemma Apart(a: seq<Entry>, b: seq<Entry>)
    requires NoIdTwice(a) && NoIdTwice(b) && Ids(a) !! Ids(b)
    ensures NoIdTwice(a + b)
  {
    forall i, j | 0 <= i < |a| && 0 <= j < |b| ensures a[i].id != b[j].id {
      assert a[i].id in Ids(a) && b[j].id in Ids(b);
    }
  }

  // The references of an object of the set stay in the set, or lead out of the document.
  ghost predicate Closed(objs: Objs, s: set<int>, frontier: set<int>) {
    forall id :: id in s - frontier && id in objs ==>
      && (objs[id].first.Some? && objs[id].first.value in objs ==> objs[id].first.value in s)
      && (objs[id].next.Some? && objs[id].next.value in objs ==> objs[id].next.value in s)
  }

  // What a walk from fresh lists contains where it starts and is closed under First and Next ...
  lemma {:induction false} ListsReachable(objs: Objs, n: Option<int>, depth: nat, seen: set<int>)
    ensures var r := Walked(objs, n, depth, seen);
      && (n.Some? && n.value in objs ==> n.value in r.1)
      && Closed(objs, r.1, seen)
    decreases objs.Keys - seen
  {
    if n.None? || n.value !in objs || n.value in seen {
    } else {
      var id := n.value;
      var below := Walked(objs, objs[id].first, depth + 1, seen + {id});
      ListsReachable(objs, objs[id].first, depth + 1, seen + {id});
      ListsReachable(objs, objs[id].next, depth, below.1);
    }
  }

  // ... and is contained in every set that does: it is exactly what can be reached.
  lemma {:induction false} ListsOnlyReachable(objs: Objs, n: Option<int>, depth: nat, seen: set<int>, s: set<int>)
    requires Closed(objs, s, {}) && (n.Some? && n.value in objs ==> n.value in s)
    ensures Walked(objs, n, depth, seen).1 <= s + seen
    decreases objs.Keys - seen
  {
    if n.None? || n.value !in objs || n.value in seen {
    } else {
      var id := n.value;
      var below := Walked(objs, objs[id].first, depth + 1, seen + {id});
      ListsOnlyReachable(objs, objs[id].first, depth + 1, seen + {id}, s);
      ListsOnlyReachable(objs, objs[id].next, depth, below.1, s);
    }
  }

  // ---------------------------------------------------------------- a real outline

  // A list of outline items: the first one, the items below it, the items behind it.
  datatype Outline = End | Item(id: int, kids: Outline, rest: Outline)

  ghost function Members(o: Outline): set<int> {
    match o
    case End => {}
    case Item(id, kids, rest) => {id} + Members(kids) + Members(rest)
  }

  // Every object is one item.
  ghost predicate Proper(o: Outline) {
    match o
    case End => true
    case Item(id, kids, rest) =>
      id !in Members(kids) + Members(rest) && Members(kids) !! Members(rest) && Proper(kids) && Proper(rest)
  }

  // The objects from n on spell this outline.
  ghost predicate Spells(objs: Objs, n: Option<int>, o: Outline)
    decreases o
  {
    match o
    case End => n.None? || n.value !in objs
    case Item(id, kids, rest) =>
      n == Some(id) && id in objs && Spells(objs, objs[id].first, kids) && Spells(objs, objs[id].next, rest)
  }

  function Preorder(o: Outline, depth: nat): seq<Entry> {
    match o
    case End => []
    case Item(id, kids, rest) => [Entry(depth, id)] + Preorder(kids, depth + 1) + Preorder(rest, depth)
  }

  // On a real outline the walk yields its items in reading order, each at its depth.
  lemma {:induction false} OutlineInOrder(objs: Objs, n: Option<int>, o: Outline, depth: nat, seen: set<int>)
    requires Spells(objs, n, o) && Proper(o) && Members(o) !! seen
    ensures Walked(objs, n, depth, seen) == (Preorder(o, depth), seen + Members(o))
    decreases o
  {
    match o
    case End =>
      assert seen + Members(o) == seen;
    case Item(id, kids, rest) =>
      OutlineInOrder(objs, objs[id].first, kids, depth + 1, seen + {id});
      OutlineInOrder(objs, objs[id].next, rest, depth, seen + {id} + Members(kids));
      assert seen + {id} + Members(kids) + Members(rest) == seen + Members(o);
  }
}

// src/autobench/mlflow_report.py, _depth inside span_rows: hops from a span up to the root, over a
// parent relation that may be cyclic or lead nowhere.
module SpanDepth {
  import opened Wrappers

  // by_id, seen through the parentId of each span it holds.
  type Parents = map<string, Option<string>>

  const LIMIT: nat := 32

  // A parent link that can be followed: set, not the empty string, and known.
  predicate Resolves(par: Parents, p: Option<string>) {
    p.Some? && p.value != "" && p.value in par
  }

  // The link after n hops.
  function Hop(par: Parents, start: Option<string>, n: nat): Option<string> {
    if n == 0 then start
    else
      var before := Hop(par, start, n - 1);
      if Resolves(par, before) then par[before.value] else None
  }

  ghost predicate IsAncestor(par: Parents, start: Option<string>, id: string) {
    exists n: nat :: Hop(par, start, n) == Some(id) && Resolves(par, Hop(par, start, n))
  }

  // The known spans that following parent links ever reaches.
  ghost function Ancestors(par: Parents, start: Option<string>): set<string> {
    set id | id in par.Keys && IsAncestor(par, start, id)
  }

  ghost function Capped(n: nat): nat {
    if n < LIMIT then n else LIMIT
  }

  // The ids on the first n links.
  ghost function Walked(par: Parents, start: Option<string>, n: nat): set<string> {
    if n == 0 then {}
    else
      Walked(par, start, n - 1) + match Hop(par, start, n - 1) case Some(id) => {id} case None => {}
  }

  // The first n links can all be followed.
  ghost predicate Climbs(par: Parents, start: Option<string>, n: nat) {
    forall i: nat :: i < n ==> Resolves(par, Hop(par, start, i))
  }

  method Depth(par: Parents, start: Option<string>) returns (depth: nat)
    ensures depth == Capped(|Ancestors(par, start)|)
    ensures depth <= LIMIT && depth <= |par|
  {
    depth := 0;
    var seen: set<string> := {};
    var cur := start;
    while depth < LIMIT
      invariant depth <= LIMIT && |seen| == depth
      invariant cur == Hop(par, start, depth)
      invariant Climbs(par, start, depth) && seen == Walked(par, start, depth)
      decreases LIMIT - depth
    {
      if !Resolves(par, cur) || cur.value in seen {
        break;
      }
      ClimbOn(par, start, depth);
      seen := seen + {cur.value};
      cur := par[cur.value];
      depth := depth + 1;
    }
    DepthIs(par, start, depth);
  }

  // No link, the empty one and one to an unknown span lead nowhere.
  lemma NoAncestors(par: Parents, start: Option<string>)
    requires start.None? || start == Some("") || start.value !in par
    ensures Ancestors(par, start) == {}
  {
    forall n: nat ensures !Resolves(par, Hop(par, start, n)) {
      HopsEnd(par, start, n);
    }
  }

  lemma {:induction false} HopsEnd(par: Parents, start: Option<string>, n: nat)
    requires start.None? || start == Some("") || start.value !in par
    ensures Hop(par, start, n) == if n == 0 then start else None
  {
    if n == 0 {
    } else {
      HopsEnd(par, start, n - 1);
    }
  }

  // One more link that can be followed.
  lemma ClimbOn(par: Parents, start: Option<string>, n: nat)
    requires Climbs(par, start, n) && Resolves(par, Hop(par, start, n))
    ensures Climbs(par, start, n + 1)
    ensures Walked(par, start, n + 1) == Walked(par, start, n) + {Hop(par, start, n).value}
    ensures Hop(par, start, n + 1) == par[Hop(par, start, n).value]
  {
  }

  // Where the walk stops, at its limit or with nothing left to follow, it has gone the depth.
  lemma DepthIs(par: Parents, start: Option<string>, depth: nat)
    requires Climbs(par, start, depth) && |Walked(par, start, depth)| == depth
    requires depth == LIMIT || (depth < LIMIT && Exhausted(par, start, depth))
    ensures depth == Capped(|Ancestors(par, start)|) && depth <= |par|
  {
    WalkedAreAncestors(par, start, depth);
    Subset(Walked(par, start, depth), Ancestors(par, start));
    Subset(Ancestors(par, start), par.Keys);
    if depth < LIMIT {
      ChainClosed(par, start, depth);
    }
  }

  lemma {:induction false} WalkedFrom(par: Parents, start: Option<string>, n: nat, id: string) returns (i: nat)
    requires id in Walked(par, start, n)
    ensures i < n && Hop(par, start, i) == Some(id)
  {
    i := n - 1;
    if Hop(par, start, i) == Some(id) {
    } else {
      i := WalkedFrom(par, start, n - 1, id);
    }
  }

  lemma {:induction false} WalkedHas(par: Parents, start: Option<string>, n: nat, i: nat)
    requires i < n && Hop(par, start, i).Some?
    ensures Hop(par, start, i).value in Walked(par, start, n)
  {
    if i >= n - 1 {
    } else {
      WalkedHas(par, start, n - 1, i);
    }
  }

  lemma WalkedAreAncestors(par: Parents, start: Option<string>, n: nat)
    requires Climbs(par, start, n)
    ensures Walked(par, start, n) <= Ancestors(par, start)
  {
    forall id | id in Walked(par, start, n) ensures id in Ancestors(par, start) {
      var i := WalkedFrom(par, start, n, id);
      assert Resolves(par, Hop(par, start, i));
    }
  }

  lemma {:induction false} Subset<T>(a: set<T>, b: set<T>)
    requires a <= b
    ensures |a| <= |b|
    decreases |a|
  {
    if a == {} {
    } else {
      var x :| x in a;
      Subset(a - {x}, b - {x});
    }
  }

  // The next link leads nowhere, or back to a span already passed.
  ghost predicate Exhausted(par: Parents, start: Option<string>, n: nat) {
    var next := Hop(par, start, n);
    !Resolves(par, next) || next.value in Walked(par, start, n)
  }

  // Then every ancestor has been passed.
  lemma ChainClosed(par: Parents, start: Option<string>, n: nat)
    requires Climbs(par, start, n) && Exhausted(par, start, n)
    ensures Ancestors(par, start) == Walked(par, start, n)
  {
    WalkedAreAncestors(par, start, n);
    forall id | id in Ancestors(par, start) ensures id in Walked(par, start, n) {
      var i: nat :| Hop(par, start, i) == Some(id) && Resolves(par, Hop(par, start, i));
      NeverLeaves(par, start, n, i);
    }
  }

  lemma {:induction false} NeverLeaves(par: Parents, start: Option<string>, n: nat, i: nat)
    requires Climbs(par, start, n) && Exhausted(par, start, n)
    requires Resolves(par, Hop(par, start, i))
    ensures Hop(par, start, i).value in Walked(par, start, n)
  {
    if i < n {
      WalkedHas(par, start, n, i);
    } else if i > n {
      NeverLeaves(par, start, n, i - 1);
      var before := Hop(par, start, i - 1);
      var m := WalkedFrom(par, start, n, before.value);
      assert Hop(par, start, i) == Hop(par, start, m + 1);
      if m + 1 < n {
        WalkedHas(par, start, n, m + 1);
      }
    }
  }

  // On a chain that ends, the depth is the number of hops until it does.
  lemma AcyclicDepth(par: Parents, start: Option<string>, hops: nat)
    requires Climbs(par, start, hops) && !Resolves(par, Hop(par, start, hops))
    ensures |Ancestors(par, start)| == hops
  {
    ChainClosed(par, start, hops);
    NoRepeats(par, start, hops, hops);
  }

  lemma {:induction false} NoRepeats(par: Parents, start: Option<string>, hops: nat, n: nat)
    requires Climbs(par, start, hops) && !Resolves(par, Hop(par, start, hops)) && n <= hops
    ensures |Walked(par, start, n)| == n
  {
    if n == 0 {
    } else {
      NoRepeats(par, start, hops, n - 1);
      var id := Hop(par, start, n - 1).value;
      if id in Walked(par, start, n - 1) {
        var m := WalkedFrom(par, start, n - 1, id);
        SameTail(par, start, m, n - 1, hops - (n - 1));
        assert false;
      }
    }
  }

  lemma {:induction false} SameTail(par: Parents, start: Option<string>, i: nat, j: nat, k: nat)
    requires Hop(par, start, i) == Hop(par, start, j)
    ensures Hop(par, start, i + k) == Hop(par, start, j + k)
  {
    if k == 0 {
    } else {
      SameTail(par, start, i, j, k - 1);
    }
  }

  // A child has its parent and its parent's ancestors: one more than the parent, unless the parent
  // is on a cycle and so already its own ancestor.
  lemma ChildDepth(par: Parents, parent: string)
    requires Resolves(par, Some(parent))
    ensures Ancestors(par, Some(parent)) == Ancestors(par, par[parent]) + {parent}
    ensures |Ancestors(par, Some(parent))|
         == |Ancestors(par, par[parent])| + if parent in Ancestors(par, par[parent]) then 0 else 1
  {
    var child, up := Ancestors(par, Some(parent)), Ancestors(par, par[parent]);
    forall id | id in child ensures id in up + {parent} {
      var n: nat :| Hop(par, Some(parent), n) == Some(id) && Resolves(par, Hop(par, Some(parent), n));
      if n > 0 {
        Shifted(par, parent, n - 1);
      }
    }
    forall id | id in up ensures id in child {
      var n: nat :| Hop(par, par[parent], n) == Some(id) && Resolves(par, Hop(par, par[parent], n));
      Shifted(par, parent, n);
    }
    assert Hop(par, Some(parent), 0) == Some(parent);
  }

  lemma {:induction false} Shifted(par: Parents, parent: string, n: nat)
    requires Resolves(par, Some(parent))
    ensures Hop(par, Some(parent), n + 1) == Hop(par, par[parent], n)
  {
    if n == 0 {
      assert Hop(par, Some(parent), 0) == Some(parent);
    } else {
      Shifted(par, parent, n - 1);
    }
  }
}

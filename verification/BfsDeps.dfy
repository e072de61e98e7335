/** The breadth-first dependency list as a function of the graph (libc/ldso/dynlink.c:1240-1289). */
module BfsDeps {
  import opened DepGraph

  ghost predicate StartsWith<N>(s: seq<N>, prefix: seq<N>) {
    |prefix| <= |s| && forall k :: 0 <= k < |prefix| ==> s[k] == prefix[k]
  }

  /** ds appended to the list, leaving out what is already on it. */
  function Appended<N(==)>(deps: seq<N>, ds: seq<N>): (r: seq<N>)
    ensures StartsWith(r, deps)
    ensures forall x :: x in r ==> x in deps || x in ds
    ensures forall x :: x in ds ==> x in r
    ensures forall x :: x in deps ==> x in r
    decreases |ds|
  {
    if ds == [] then deps
    else if ds[0] in deps then Appended(deps, ds[1..])
    else Appended(deps + [ds[0]], ds[1..])
  }

  /** Entries from position k on differ from all entries before them. */
  ghost predicate FreshFrom<N>(deps: seq<N>, k: nat) {
    forall i, j :: 0 <= i < j < |deps| && k <= j ==> deps[i] != deps[j]
  }

  lemma {:induction false} AppendedFresh<N>(deps: seq<N>, ds: seq<N>, k: nat)
    requires FreshFrom(deps, k) && k <= |deps|
    ensures FreshFrom(Appended(deps, ds), k)
    decreases |ds|
  {
    if ds != [] {
      AppendedFresh(if ds[0] in deps then deps else deps + [ds[0]], ds[1..], k);
    }
  }

  ghost predicate Within<N>(deps: seq<N>, g: map<N, seq<N>>) {
    forall i :: 0 <= i < |deps| ==> deps[i] in g
  }

  ghost function Members<N>(deps: seq<N>): set<N> {
    set x | x in deps
  }

  lemma {:induction false} AppendedGrows<N>(deps: seq<N>, ds: seq<N>)
    ensures Appended(deps, ds) == deps || exists x :: x in Appended(deps, ds) && x !in deps
    decreases |ds|
  {
    if ds != [] {
      if ds[0] in deps {
        AppendedGrows(deps, ds[1..]);
      } else {
        assert ds[0] in Appended(deps, ds);
      }
    }
  }

  lemma AppendedMeasure<N>(g: map<N, seq<N>>, deps: seq<N>, ds: seq<N>)
    requires Within(deps, g) && Within(ds, g)
    ensures Within(Appended(deps, ds), g)
    ensures Appended(deps, ds) == deps ||
      |g.Keys - Members(Appended(deps, ds))| < |g.Keys - Members(deps)|
  {
    var r := Appended(deps, ds);
    assert forall i :: 0 <= i < |r| ==> r[i] in r;
    AppendedGrows(deps, ds);
    if r != deps {
      var x :| x in r && x !in deps;
      assert x in g.Keys;
      Shrinks(g.Keys - Members(r), g.Keys - Members(deps), x);
    }
  }

  lemma Shrinks<N>(a: set<N>, b: set<N>, x: N)
    requires a <= b && x in b && x !in a
    ensures |a| < |b|
  {
    assert a <= b - {x};
    SubsetSize(a, b - {x});
  }

  lemma {:induction false} SubsetSize<N>(a: set<N>, b: set<N>)
    requires a <= b
    ensures |a| <= |b|
  {
    if a != {} {
      var x :| x in a;
      SubsetSize(a - {x}, b - {x});
    }
  }

  /** The list that grows while it is read: entry i contributes its direct dependencies. */
  ghost function Bfs<N>(g: map<N, seq<N>>, deps: seq<N>, i: nat): (r: seq<N>)
    requires Closed(g) && Within(deps, g) && i <= |deps|
    decreases |g.Keys - Members(deps)|, |deps| - i
  {
    if i == |deps| then deps
    else
      AppendedMeasure(g, deps, g[deps[i]]);
      Bfs(g, Appended(deps, g[deps[i]]), i + 1)
  }

  // ---- Distances ----

  /** The shortest way from u to v that uses at least one edge has n edges. */
  ghost predicate IsDist<N>(g: map<N, seq<N>>, u: N, v: N, n: nat) {
    n >= 1 && Walk(g, u, v, n) && forall m: nat :: 1 <= m < n ==> !Walk(g, u, v, m)
  }

  /** u depends on v, directly or through others. */
  ghost predicate ReachesBy<N>(g: map<N, seq<N>>, u: N, v: N) {
    exists n: nat :: n >= 1 && Walk(g, u, v, n)
  }

  /** v is listed with a level of at most n. */
  ghost predicate Listed<N>(deps: seq<N>, lv: seq<nat>, v: N, n: nat)
    requires |lv| == |deps|
  {
    exists k :: 0 <= k < |deps| && deps[k] == v && lv[k] <= n
  }

  ghost predicate Walked<N>(g: map<N, seq<N>>, p: N, deps: seq<N>, lv: seq<nat>) {
    && |lv| == |deps|
    && forall k :: 0 <= k < |deps| ==> lv[k] >= 1 && Walk(g, p, deps[k], lv[k])
  }

  /** Every entry is as many edges away as its level says; p's own list comes first, at level 1. */
  ghost predicate Sound<N>(g: map<N, seq<N>>, p: N, deps: seq<N>, lv: seq<nat>) {
    && p in g && Closed(g) && Within(deps, g) && Walked(g, p, deps, lv)
    && StartsWith(deps, g[p]) && (forall k :: 0 <= k < |g[p]| ==> lv[k] == 1)
  }

  /** Levels rise, and entries not yet expanded span at most two levels. */
  ghost predicate Layered(lv: seq<nat>, i: nat) {
    && i <= |lv|
    && (forall a, b :: 0 <= a <= b < |lv| ==> lv[a] <= lv[b])
    && (i < |lv| ==> forall k :: 0 <= k < |lv| ==> lv[k] <= lv[i] + 1)
  }

  /** Dependencies of the entries below i are listed at most one level further. */
  ghost predicate Expanded<N>(g: map<N, seq<N>>, deps: seq<N>, lv: seq<nat>, i: nat)
    requires Within(deps, g) && |lv| == |deps| && i <= |deps|
  {
    forall k, v :: 0 <= k < i && v in g[deps[k]] ==> Listed(deps, lv, v, lv[k] + 1)
  }

  ghost predicate Leveled<N>(g: map<N, seq<N>>, p: N, deps: seq<N>, lv: seq<nat>, i: nat) {
    Sound(g, p, deps, lv) && Layered(lv, i) && Expanded(g, deps, lv, i)
  }

  /** Appending at one more than entry i's level. */
  ghost function Raised(lv: seq<nat>, n: nat, l: nat): (r: seq<nat>)
    requires n >= |lv|
    ensures |r| == n && StartsWith(r, lv) && forall k :: |lv| <= k < n ==> r[k] == l
  {
    lv + seq(n - |lv|, k => l)
  }

  lemma AppendedLeveled<N>(g: map<N, seq<N>>, p: N, deps: seq<N>, lv: seq<nat>, i: nat)
    requires Leveled(g, p, deps, lv, i) && i < |deps|
    ensures var r := Appended(deps, g[deps[i]]);
      Leveled(g, p, r, Raised(lv, |r|, lv[i] + 1), i + 1)
  {
    var r := Appended(deps, g[deps[i]]);
    AppendedMeasure(g, deps, g[deps[i]]);
    AppendedWalked(g, p, deps, lv, i);
    AppendedExpanded(g, deps, lv, i);
  }

  lemma AppendedWalked<N>(g: map<N, seq<N>>, p: N, deps: seq<N>, lv: seq<nat>, i: nat)
    requires Walked(g, p, deps, lv) && i < |deps| && deps[i] in g
    ensures var r := Appended(deps, g[deps[i]]);
      Walked(g, p, r, Raised(lv, |r|, lv[i] + 1))
  {
    var r := Appended(deps, g[deps[i]]);
    var lr := Raised(lv, |r|, lv[i] + 1);
    forall k | |deps| <= k < |r| ensures Walk(g, p, r[k], lr[k]) {
      AppendedTail(deps, g[deps[i]], k);
      WalkStep(g, p, deps[i], r[k], lv[i]);
    }
  }

  lemma AppendedExpanded<N>(g: map<N, seq<N>>, deps: seq<N>, lv: seq<nat>, i: nat)
    requires Within(deps, g) && |lv| == |deps| && i < |deps| && Layered(lv, i) && Expanded(g, deps, lv, i)
    requires Within(Appended(deps, g[deps[i]]), g)
    ensures var r := Appended(deps, g[deps[i]]);
      Expanded(g, r, Raised(lv, |r|, lv[i] + 1), i + 1)
  {
    var r := Appended(deps, g[deps[i]]);
    var lr := Raised(lv, |r|, lv[i] + 1);
    forall k, v | 0 <= k < i + 1 && v in g[r[k]] ensures Listed(r, lr, v, lr[k] + 1) {
      if k < i {
        assert Listed(deps, lv, v, lv[k] + 1);
        var m :| 0 <= m < |deps| && deps[m] == v && lv[m] <= lv[k] + 1;
        assert r[m] == v && lr[m] <= lr[k] + 1;
      } else {
        var m :| 0 <= m < |r| && r[m] == v;
      }
    }
  }

  lemma {:induction false} AppendedTail<N>(deps: seq<N>, ds: seq<N>, k: nat)
    requires |deps| <= k < |Appended(deps, ds)|
    ensures Appended(deps, ds)[k] in ds
    decreases |ds|
  {
    var next := if ds[0] in deps then deps else deps + [ds[0]];
    if k >= |next| {
      AppendedTail(next, ds[1..], k);
    }
  }

  lemma {:induction false} BfsLeveled<N>(g: map<N, seq<N>>, p: N, deps: seq<N>, lv: seq<nat>, i: nat) returns (lr: seq<nat>)
    requires Leveled(g, p, deps, lv, i) && FreshFrom(deps, |g[p]|)
    ensures Leveled(g, p, Bfs(g, deps, i), lr, |Bfs(g, deps, i)|)
    ensures FreshFrom(Bfs(g, deps, i), |g[p]|)
    decreases |g.Keys - Members(deps)|, |deps| - i
  {
    if i == |deps| {
      lr := lv;
    } else {
      var r := Appended(deps, g[deps[i]]);
      AppendedMeasure(g, deps, g[deps[i]]);
      AppendedLeveled(g, p, deps, lv, i);
      AppendedFresh(deps, g[deps[i]], |g[p]|);
      lr := BfsLeveled(g, p, r, Raised(lv, |r|, lv[i] + 1), i + 1);
    }
  }

  /** Once every entry is expanded, each walk's end is listed no later than its length. */
  lemma {:induction false} AllListed<N>(g: map<N, seq<N>>, p: N, deps: seq<N>, lv: seq<nat>, v: N, n: nat)
    requires Leveled(g, p, deps, lv, |deps|) && n >= 1 && Walk(g, p, v, n)
    ensures Listed(deps, lv, v, n)
    decreases n
  {
    var w :| w in g && Walk(g, p, w, n - 1) && v in g[w];
    if n == 1 {
      var k :| 0 <= k < |g[p]| && g[p][k] == v;
    } else {
      AllListed(g, p, deps, lv, w, n - 1);
      var k :| 0 <= k < |deps| && deps[k] == w && lv[k] <= n - 1;
      assert Listed(deps, lv, v, lv[k] + 1);
    }
  }

  lemma LevelIsDist<N>(g: map<N, seq<N>>, p: N, deps: seq<N>, lv: seq<nat>, i: nat, n: nat)
    requires Leveled(g, p, deps, lv, |deps|) && FreshFrom(deps, |g[p]|)
    requires i < |deps| && IsDist(g, p, deps[i], n)
    ensures n == lv[i]
  {
    AllListed(g, p, deps, lv, deps[i], n);
    var k :| 0 <= k < |deps| && deps[k] == deps[i] && lv[k] <= n;
  }

  /** Exactly what p reaches over one or more edges, nearest first, after p's own list. */
  ghost predicate BfsClosure<N>(g: map<N, seq<N>>, p: N, deps: seq<N>) {
    && p in g && Within(deps, g)
    && StartsWith(deps, g[p]) && FreshFrom(deps, |g[p]|)
    && (forall v :: v in g ==> (v in deps <==> ReachesBy(g, p, v)))
    && (forall i, j, m, n :: 0 <= i <= j < |deps| && IsDist(g, p, deps[i], m) && IsDist(g, p, deps[j], n) ==> m <= n)
  }

  lemma BfsIsClosure<N>(g: map<N, seq<N>>, p: N)
    requires Closed(g) && p in g
    ensures Within(g[p], g) && BfsClosure(g, p, Bfs(g, g[p], 0))
  {
    var deps := Bfs(g, g[p], 0);
    var lv := seq(|g[p]|, k => 1);
    assert Leveled(g, p, g[p], lv, 0) by {
      forall k | 0 <= k < |g[p]| ensures Walk(g, p, g[p][k], lv[k]) { WalkEdge(g, p, g[p][k]); }
    }
    lv := BfsLeveled(g, p, g[p], lv, 0);
    LeveledMembers(g, p, deps, lv);
    LeveledOrder(g, p, deps, lv);
  }

  lemma LeveledMembers<N>(g: map<N, seq<N>>, p: N, deps: seq<N>, lv: seq<nat>)
    requires Leveled(g, p, deps, lv, |deps|)
    ensures forall v :: v in g ==> (v in deps <==> ReachesBy(g, p, v))
  {
    forall v | v in g ensures v in deps <==> ReachesBy(g, p, v) {
      if v in deps {
        var k :| 0 <= k < |deps| && deps[k] == v;
        assert Walk(g, p, v, lv[k]);
      }
      if ReachesBy(g, p, v) {
        var n: nat :| n >= 1 && Walk(g, p, v, n);
        AllListed(g, p, deps, lv, v, n);
      }
    }
  }

  lemma LeveledOrder<N>(g: map<N, seq<N>>, p: N, deps: seq<N>, lv: seq<nat>)
    requires Leveled(g, p, deps, lv, |deps|) && FreshFrom(deps, |g[p]|)
    ensures forall i, j, m, n ::
      0 <= i <= j < |deps| && IsDist(g, p, deps[i], m) && IsDist(g, p, deps[j], n) ==> m <= n
  {
    forall i, j, m, n | 0 <= i <= j < |deps| && IsDist(g, p, deps[i], m) && IsDist(g, p, deps[j], n)
      ensures m <= n
    {
      LevelIsDist(g, p, deps, lv, i, m);
      LevelIsDist(g, p, deps, lv, j, n);
    }
  }

  // ---- Who comes first at one distance ----

  /** Where x first stands in ds, or its length. */
  ghost function First<N>(ds: seq<N>, x: N): (i: nat)
    ensures i <= |ds|
  {
    if ds == [] || ds[0] == x then 0 else 1 + First(ds[1..], x)
  }

  lemma {:induction false} FirstIs<N>(ds: seq<N>, x: N)
    ensures x in ds <==> First(ds, x) < |ds|
    ensures First(ds, x) < |ds| ==> ds[First(ds, x)] == x
    ensures forall j :: 0 <= j < First(ds, x) ==> ds[j] != x
  {
    if ds != [] && ds[0] != x {
      FirstIs(ds[1..], x);
      assert forall j :: 1 <= j < |ds| ==> ds[j] == ds[1..][j - 1];
    }
  }

  /** Appended entries are new, and stand in the order of ds. */
  lemma {:induction false} AppendedOrder<N>(deps: seq<N>, ds: seq<N>, a: nat, b: nat)
    requires |deps| <= a < b < |Appended(deps, ds)|
    ensures First(ds, Appended(deps, ds)[a]) < First(ds, Appended(deps, ds)[b])
    decreases |ds|
  {
    var r, next := Appended(deps, ds), if ds[0] in deps then deps else deps + [ds[0]];
    AppendedNew(next, ds[1..], b);
    assert r[b] != ds[0];
    if a >= |next| {
      AppendedNew(next, ds[1..], a);
      assert r[a] != ds[0];
      AppendedOrder(next, ds[1..], a, b);
    }
  }

  lemma {:induction false} AppendedNew<N>(deps: seq<N>, ds: seq<N>, k: nat)
    requires |deps| <= k < |Appended(deps, ds)|
    ensures Appended(deps, ds)[k] !in deps
    decreases |ds|
  {
    var next := if ds[0] in deps then deps else deps + [ds[0]];
    if k >= |next| { AppendedNew(next, ds[1..], k); }
  }

  /** Entry i is the first on the list that depends on entry k. */
  ghost predicate ParentAt<N>(g: map<N, seq<N>>, deps: seq<N>, k: nat, i: nat)
    requires Within(deps, g)
  {
    k < |deps| && i < |deps| && deps[k] in g[deps[i]] && forall m :: 0 <= m < i ==> deps[k] !in g[deps[m]]
  }

  ghost predicate HasParent<N>(g: map<N, seq<N>>, deps: seq<N>, k: nat)
    requires Within(deps, g)
  {
    exists i :: 0 <= i < k && ParentAt(g, deps, k, i)
  }

  /** An entry with parent i stands before one with parent j. */
  ghost predicate Before<N>(g: map<N, seq<N>>, deps: seq<N>, a: nat, i: nat, b: nat, j: nat)
    requires Within(deps, g) && a < |deps| && b < |deps| && i < |deps| && j < |deps|
  {
    i < j || (i == j && First(g[deps[i]], deps[a]) < First(g[deps[i]], deps[b]))
  }

  /** With i entries expanded, src holds the parents of the entries from d on. */
  ghost predicate Sourced<N>(g: map<N, seq<N>>, deps: seq<N>, d: nat, i: nat, src: seq<nat>) {
    && Within(deps, g) && i <= |deps| && |src| == |deps| && d <= |deps|
    && (forall k :: d <= k < |deps| ==> src[k] < i && src[k] < k && ParentAt(g, deps, k, src[k]))
    && (forall a, b :: d <= a < b < |deps| ==> Before(g, deps, a, src[a], b, src[b]))
    && (forall m, v :: 0 <= m < i && v in g[deps[m]] ==> v in deps)
  }

  lemma SourcedStep<N>(g: map<N, seq<N>>, deps: seq<N>, d: nat, i: nat, src: seq<nat>, r: seq<N>)
    requires Sourced(g, deps, d, i, src) && i < |deps| && r == Appended(deps, g[deps[i]]) && Within(r, g)
    ensures Sourced(g, r, d, i + 1, Raised(src, |r|, i))
  {
    var src' := Raised(src, |r|, i);
    forall k | d <= k < |r| ensures src'[k] < i + 1 && src'[k] < k && ParentAt(g, r, k, src'[k]) {
      if k < |deps| { assert ParentAt(g, deps, k, src[k]); } else { NewParent(g, deps, i, r, k); }
    }
    forall a, b | d <= a < b < |r| ensures Before(g, r, a, src'[a], b, src'[b]) {
      if b < |deps| {
        assert Before(g, deps, a, src[a], b, src[b]);
      } else if a >= |deps| {
        AppendedOrder(deps, g[deps[i]], a, b);
      }
    }
  }

  lemma NewParent<N>(g: map<N, seq<N>>, deps: seq<N>, i: nat, r: seq<N>, k: nat)
    requires Within(deps, g) && i < |deps| <= k < |r| && r == Appended(deps, g[deps[i]]) && Within(r, g)
    requires forall m, v :: 0 <= m < i && v in g[deps[m]] ==> v in deps
    ensures ParentAt(g, r, k, i)
  {
    AppendedTail(deps, g[deps[i]], k);
    AppendedNew(deps, g[deps[i]], k);
  }

  lemma {:induction false} BfsSourced<N>(g: map<N, seq<N>>, deps: seq<N>, d: nat, i: nat, src: seq<nat>) returns (src': seq<nat>)
    requires Closed(g) && Sourced(g, deps, d, i, src)
    ensures Sourced(g, Bfs(g, deps, i), d, |Bfs(g, deps, i)|, src')
    decreases |g.Keys - Members(deps)|, |deps| - i
  {
    if i == |deps| {
      src' := src;
    } else {
      var r := Appended(deps, g[deps[i]]);
      AppendedMeasure(g, deps, g[deps[i]]);
      SourcedStep(g, deps, d, i, src, r);
      src' := BfsSourced(g, r, d, i + 1, Raised(src, |r|, i));
    }
  }

  /** Behind p's own list, entries follow the order of their parents on the list, and in the parent's list. */
  ghost predicate InTurn<N>(g: map<N, seq<N>>, p: N, deps: seq<N>) {
    && p in g && Within(deps, g)
    && (forall k :: |g[p]| <= k < |deps| ==> HasParent(g, deps, k))
    && (forall a, b, i, j :: |g[p]| <= a < b < |deps| && ParentAt(g, deps, a, i) && ParentAt(g, deps, b, j) ==> Before(g, deps, a, i, b, j))
  }

  lemma OneParent<N>(g: map<N, seq<N>>, deps: seq<N>, k: nat, i: nat, j: nat)
    requires Within(deps, g) && ParentAt(g, deps, k, i) && ParentAt(g, deps, k, j)
    ensures i == j
  {
  }

  lemma BfsInTurn<N>(g: map<N, seq<N>>, p: N)
    requires Closed(g) && p in g
    ensures Within(g[p], g) && InTurn(g, p, Bfs(g, g[p], 0))
  {
    var deps := Bfs(g, g[p], 0);
    var src := BfsSourced(g, g[p], |g[p]|, 0, seq(|g[p]|, k => 0));
    forall k | |g[p]| <= k < |deps| ensures HasParent(g, deps, k) {
      assert ParentAt(g, deps, k, src[k]);
    }
    forall a, b, i, j | |g[p]| <= a < b < |deps| && ParentAt(g, deps, a, i) && ParentAt(g, deps, b, j)
      ensures Before(g, deps, a, i, b, j)
    {
      OneParent(g, deps, a, i, src[a]);
      OneParent(g, deps, b, j, src[b]);
    }
  }
}

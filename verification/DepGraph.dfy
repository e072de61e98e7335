/** Dependency graphs of shared objects: g[u] lists the direct dependencies of u in order. */
module DepGraph {
  import opened Basics

  ghost predicate Closed<N>(g: map<N, seq<N>>) {
    forall u, i :: u in g && 0 <= i < |g[u]| ==> g[u][i] in g
  }

  /** v is n dependency edges away from u along some path. */
  ghost predicate Walk<N>(g: map<N, seq<N>>, u: N, v: N, n: nat)
    decreases n
  {
    if n == 0 then u == v
    else exists w :: w in g && Walk(g, u, w, n - 1) && v in g[w]
  }

  ghost predicate Reach<N>(g: map<N, seq<N>>, u: N, v: N) {
    exists n: nat :: Walk(g, u, v, n)
  }

  lemma {:induction false} WalkTrans<N>(g: map<N, seq<N>>, u: N, v: N, w: N, m: nat, n: nat)
    requires Walk(g, u, v, m) && Walk(g, v, w, n)
    ensures Walk(g, u, w, m + n)
    decreases n
  {
    if n > 0 {
      var x :| x in g && Walk(g, v, x, n - 1) && w in g[x];
      WalkTrans(g, u, v, x, m, n - 1);
    }
  }

  lemma WalkStep<N>(g: map<N, seq<N>>, u: N, w: N, v: N, n: nat)
    requires w in g && Walk(g, u, w, n) && v in g[w]
    ensures Walk(g, u, v, n + 1)
  {
  }

  lemma WalkEdge<N>(g: map<N, seq<N>>, u: N, v: N)
    requires u in g && v in g[u]
    ensures Walk(g, u, v, 1)
  {
    assert Walk(g, u, u, 0);
  }

  lemma ReachTrans<N>(g: map<N, seq<N>>, u: N, v: N, w: N)
    requires Reach(g, u, v) && Reach(g, v, w)
    ensures Reach(g, u, w)
  {
    var m: nat :| Walk(g, u, v, m);
    var n: nat :| Walk(g, v, w, n);
    WalkTrans(g, u, v, w, m, n);
  }

  lemma ReachSelf<N>(g: map<N, seq<N>>, u: N)
    ensures Reach(g, u, u)
  {
    assert Walk(g, u, u, 0);
  }

  lemma ReachEdge<N>(g: map<N, seq<N>>, u: N, v: N)
    requires u in g && v in g[u]
    ensures Reach(g, u, v)
  {
    WalkEdge(g, u, v);
  }

  /** A set that holds u and is closed under dependencies holds everything u reaches. */
  lemma {:induction false} ClosedUnderReach<N>(g: map<N, seq<N>>, u: N, v: N, n: nat, s: set<N>)
    requires u in s && Walk(g, u, v, n)
    requires forall x, y :: x in s && x in g && y in g[x] ==> y in s
    ensures v in s
    decreases n
  {
    if n > 0 {
      var w :| w in g && Walk(g, u, w, n - 1) && v in g[w];
      ClosedUnderReach(g, u, w, n - 1, s);
    }
  }

  /** Distinct elements of a finite set are no more than the set has. */
  lemma {:induction false} NoDupBound<N>(s: seq<N>, u: set<N>)
    requires NoDup(s) && forall x :: x in s ==> x in u
    ensures |s| <= |u|
    decreases |s|
  {
    if s != [] {
      var n := |s| - 1;
      assert s[n] in u;
      assert forall x :: x in s[..n] ==> x in u && x != s[n];
      NoDupBound(s[..n], u - {s[n]});
    }
  }

  lemma {:induction false} SetOfSeqBound<N>(s: seq<N>)
    ensures |set x | x in s| <= |s|
  {
    if s != [] {
      var n := |s| - 1;
      SetOfSeqBound(s[..n]);
      assert (set x | x in s) == (set x | x in s[..n]) + {s[n]};
    }
  }
}

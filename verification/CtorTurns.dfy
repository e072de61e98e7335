/** When one constructor comes before another, pair by pair (libc/ldso/dynlink.c:1482-1496). */
module CtorTurns {
  import opened Basics
  import opened DepGraph
  import opened CtorOrder

  /** v is n dependency edges away from u along nodes that, after u, keep clear of a. */
  ghost predicate WalkAround<N>(g: map<N, seq<N>>, u: N, v: N, a: set<N>, n: nat)
    decreases n
  {
    if n == 0 then u == v
    else v !in a && exists w :: w in g && WalkAround(g, u, w, a, n - 1) && v in g[w]
  }

  ghost predicate ReachAround<N>(g: map<N, seq<N>>, u: N, v: N, a: set<N>) {
    exists n: nat :: WalkAround(g, u, v, a, n)
  }

  ghost function OnPath<N>(st: Dfs<N>): (s: set<N>) {
    set x | x in st.path
  }

  /** v is out, or the top of the path reaches it by dependencies that keep clear of the path. */
  ghost predicate OutOrAround<N>(g: map<N, seq<N>>, st: Dfs<N>, v: N)
    requires st.path != []
  {
    v in st.queue || ReachAround(g, Top(st), v, OnPath(st))
  }

  /** The top of the path has just come on it. */
  ghost predicate JustOn<N>(st: Dfs<N>, u: N) {
    st.path != [] && Top(st) == u && u in st.next && st.next[u] == 0
  }

  lemma AroundStep<N>(g: map<N, seq<N>>, u: N, w: N, v: N, a: set<N>)
    requires w in g && v in g[w] && v !in a && (w == u || ReachAround(g, u, w, a))
    ensures ReachAround(g, u, v, a)
  {
    var n: nat := 0;
    if w != u { n :| WalkAround(g, u, w, a, n); }
    assert WalkAround(g, u, w, a, n);
    assert WalkAround(g, u, v, a, n + 1);
  }

  /** The search of st has gone on from st0 below the top of its path: what it has reached since is reachable
      from that top around the path. */
  ghost predicate Under<N>(g: map<N, seq<N>>, st0: Dfs<N>, st: Dfs<N>) {
    && st0.path != [] && |st0.path| <= |st.path| && st.path[..|st0.path|] == st0.path
    && |st0.queue| <= |st.queue| && st.queue[..|st0.queue|] == st0.queue
    && (forall i :: |st0.path| <= i < |st.path| ==> ReachAround(g, Top(st0), st.path[i], OnPath(st0)))
    && (forall i :: |st0.queue| <= i < |st.queue| ==> ReachAround(g, Top(st0), st.queue[i], OnPath(st0)))
  }

  /** The top of st0's path is about to be put out. */
  ghost predicate Returned<N>(g: map<N, seq<N>>, st0: Dfs<N>, st: Dfs<N>) {
    && st0.path != [] && st.path == st0.path
    && Top(st) in g && Top(st) in st.next && st.next[Top(st)] >= |g[Top(st)]|
  }

  lemma UnderPush<N>(g: map<N, seq<N>>, st0: Dfs<N>, st: Dfs<N>, c: N)
    requires Under(g, st0, st) && Top(st) in g && c in g[Top(st)] && c !in st.path
    ensures Under(g, st0, Push(st, c))
  {
    var n := |st0.path|;
    assert forall x :: x in OnPath(st0) ==> x in st.path;
    if |st.path| == n { assert Top(st) == Top(st0); }
    AroundStep(g, Top(st0), Top(st), c, OnPath(st0));
  }

  lemma UnderEmit<N>(g: map<N, seq<N>>, st0: Dfs<N>, st: Dfs<N>)
    requires Under(g, st0, st) && |st.path| > |st0.path|
    ensures Under(g, st0, Emit(st))
  {
  }

  lemma UnderStep<N>(g: map<N, seq<N>>, root: N, st0: Dfs<N>, st: Dfs<N>)
    requires Inv(g, root, st) && Under(g, st0, st) && !Returned(g, st0, st)
    ensures Under(g, st0, Step(g, st))
  {
    assert Top(st) in st.path;
    if st.next[Top(st)] >= |g[Top(st)]| {
      UnderEmit(g, st0, st);
    } else if !Marked(st, g[Top(st)][st.next[Top(st)]]) {
      UnderPush(g, st0, st, g[Top(st)][st.next[Top(st)]]);
    }
  }

  /** Step j of the run is below the top of the path of step k. */
  ghost predicate Below<N>(g: map<N, seq<N>>, root: N, k: nat, j: nat) {
    Under(g, State(g, root, k), State(g, root, j))
  }

  /** Step j of the run is about to put out the top of the path of step k. */
  ghost predicate BackAt<N>(g: map<N, seq<N>>, root: N, k: nat, j: nat) {
    Returned(g, State(g, root, k), State(g, root, j))
  }

  lemma BelowNext<N>(g: map<N, seq<N>>, root: N, k: nat, j: nat)
    requires Closed(g) && root in g && Below(g, root, k, j) && !BackAt(g, root, k, j)
    ensures Below(g, root, k, j + 1)
  {
    StateInv(g, root, j);
    UnderStep(g, root, State(g, root, k), State(g, root, j));
  }

  /** The run comes back to the top of every path. */
  lemma {:induction false} ComesBack<N>(g: map<N, seq<N>>, root: N, k: nat, j: nat, end: nat) returns (m: nat)
    requires Closed(g) && root in g && k <= j <= end && State(g, root, end).path == []
    requires Below(g, root, k, j) == true
    ensures j <= m < end && Below(g, root, k, m) == true && BackAt(g, root, k, m) == true
    decreases end - j
  {
    if j == end {
      assert false;
    } else if BackAt(g, root, k, j) == true {
      m := j;
    } else {
      BelowNext(g, root, k, j);
      m := ComesBack(g, root, k, j + 1, end);
    }
  }

  /** What is reachable around the path is out when its top is about to be. */
  lemma {:induction false} AllOut<N>(g: map<N, seq<N>>, root: N, st: Dfs<N>, v: N, n: nat)
    requires Inv(g, root, st) && st.path != [] && st.next[Top(st)] >= |g[Top(st)]|
    requires WalkAround(g, Top(st), v, OnPath(st), n)
    ensures v == Top(st) || v in st.queue
    decreases n
  {
    if n > 0 {
      var w :| w in g && WalkAround(g, Top(st), w, OnPath(st), n - 1) && v in g[w];
      AllOut(g, root, st, w, n - 1);
      assert Top(st) in st.path;
      assert Marked(st, v);
    }
  }

  /** What is out when u returns: what was out when it came on the path, and what u reaches around the path. */
  lemma OutWhenBack<N>(g: map<N, seq<N>>, root: N, st0: Dfs<N>, st: Dfs<N>, v: N)
    requires Inv(g, root, st) && Under(g, st0, st) && Returned(g, st0, st) && v != Top(st0)
    ensures v in st.queue <==> v in st0.queue || ReachAround(g, Top(st0), v, OnPath(st0))
  {
    if v in st.queue {
      var i :| 0 <= i < |st.queue| && st.queue[i] == v;
      assert i < |st0.queue| ==> st.queue[..|st0.queue|][i] == v;
    }
    if v in st0.queue {
      var i :| 0 <= i < |st0.queue| && st0.queue[i] == v;
      assert st.queue[..|st0.queue|][i] == v;
    }
    if ReachAround(g, Top(st0), v, OnPath(st0)) {
      var n: nat :| WalkAround(g, Top(st0), v, OnPath(st0), n);
      AllOut(g, root, st, v, n);
    }
  }

  /** Every node that is marked came on the path at some step. */
  lemma {:induction false} CameOn<N>(g: map<N, seq<N>>, root: N, j: nat, u: N) returns (k: nat)
    requires Marked(State(g, root, j), u)
    ensures k <= j && JustOn(State(g, root, k), u)
  {
    if j == 0 {
      return 0;
    }
    if Marked(State(g, root, j - 1), u) {
      k := CameOn(g, root, j - 1, u);
    } else {
      NewlyMarked(g, State(g, root, j - 1), u);
      k := j;
    }
  }

  lemma NewlyMarked<N>(g: map<N, seq<N>>, st: Dfs<N>, u: N)
    requires !Marked(st, u) && Marked(Step(g, st), u)
    ensures JustOn(Step(g, st), u)
  {
    if st.path != [] { assert Top(st) in st.path; }
  }

  /** The output only grows at its end. */
  lemma {:induction false} QueueGrows<N>(g: map<N, seq<N>>, root: N, m: nat, end: nat)
    requires m <= end
    ensures |State(g, root, m).queue| <= |State(g, root, end).queue|
    ensures State(g, root, end).queue[..|State(g, root, m).queue|] == State(g, root, m).queue
    decreases end
  {
    if m < end {
      QueueGrows(g, root, m, end - 1);
    }
  }

  lemma FoundAt<N>(q: seq<N>, queue: seq<N>, u: N, i: nat)
    requires NoDup(queue) && |q| < |queue| && queue[..|q| + 1] == q + [u] && i < |queue| && queue[i] == u
    ensures queue[..i] == q
  {
    assert queue[|q|] == queue[..|q| + 1][|q|] == u;
    assert queue[..|q|] == queue[..|q| + 1][..|q|];
  }

  /** A node is put out after what is out when the run is back at it. */
  lemma OutAt<N>(g: map<N, seq<N>>, root: N, k: nat, m: nat, end: nat, queue: seq<N>, i: nat)
    requires Closed(g) && root in g && Ends(g, root, end, queue) && m < end && BackAt(g, root, k, m)
    requires i < |queue| && NoDup(queue) && queue[i] == Top(State(g, root, k))
    ensures queue[..i] == State(g, root, m).queue
  {
    QueueGrows(g, root, m + 1, end);
    assert State(g, root, m + 1) == Emit(State(g, root, m));
    FoundAt(State(g, root, m).queue, queue, queue[i], i);
  }

  lemma EndsOnce<N>(g: map<N, seq<N>>, root: N, end: nat, queue: seq<N>)
    requires Closed(g) && root in g && Ends(g, root, end, queue)
    ensures NoDup(queue)
  {
    EndsInCtorQueue(g, root, end, queue);
  }

  lemma BelowSelf<N>(g: map<N, seq<N>>, root: N, k: nat)
    requires State(g, root, k).path != []
    ensures Below(g, root, k, k)
  {
  }

  /** What is out at step m, back at the node that came on the path at step k. */
  lemma OutBy<N>(g: map<N, seq<N>>, root: N, k: nat, m: nat, v: N)
    requires Closed(g) && root in g && Below(g, root, k, m) && BackAt(g, root, k, m) && v != Top(State(g, root, k))
    ensures v in State(g, root, m).queue <==> OutOrAround(g, State(g, root, k), v)
  {
    StateInv(g, root, m);
    OutWhenBack(g, root, State(g, root, k), State(g, root, m), v);
  }

  /** Exactly which objects come before object queue[i]: at the step k that puts it on the path, those already
      out, and those it reaches by dependencies that keep clear of the path. */
  lemma PrecedesExactly<N>(g: map<N, seq<N>>, root: N, end: nat, queue: seq<N>, i: nat) returns (k: nat)
    requires Closed(g) && root in g && Ends(g, root, end, queue) && i < |queue|
    ensures k <= end && JustOn(State(g, root, k), queue[i])
    ensures forall v :: v in g && v != queue[i] ==> (v in queue[..i] <==> OutOrAround(g, State(g, root, k), v))
  {
    EndsOnce(g, root, end, queue);
    k := CameOn(g, root, end, queue[i]);
    BelowSelf(g, root, k);
    var m := ComesBack(g, root, k, k, end);
    OutAt(g, root, k, m, end, queue, i);
    forall v | v in g && v != queue[i]
      ensures v in queue[..i] <==> OutOrAround(g, State(g, root, k), v)
    {
      OutBy(g, root, k, m, v);
    }
  }

  // ---- The dependencies of one object ----

  /** One of the first n dependencies of u reaches x around a. */
  ghost predicate Via<N>(g: map<N, seq<N>>, u: N, n: nat, x: N, a: set<N>)
    requires u in g
  {
    exists m :: 0 <= m < n && m < |g[u]| && g[u][m] !in a && ReachAround(g, g[u][m], x, a)
  }

  lemma ViaSelf<N>(g: map<N, seq<N>>, u: N, m: nat, a: set<N>)
    requires u in g && m < |g[u]| && g[u][m] !in a
    ensures Via(g, u, m + 1, g[u][m], a)
  {
    assert WalkAround(g, g[u][m], g[u][m], a, 0);
  }

  lemma ViaStep<N>(g: map<N, seq<N>>, u: N, n: nat, w: N, v: N, a: set<N>)
    requires u in g && Via(g, u, n, w, a) && w in g && v in g[w] && v !in a
    ensures Via(g, u, n, v, a)
  {
    var m :| 0 <= m < n && m < |g[u]| && g[u][m] !in a && ReachAround(g, g[u][m], w, a);
    AroundStep(g, g[u][m], w, v, a);
  }

  /** The search goes on from st0 and has looked at no dependency of the top behind number i; what it has reached
      since is reached by those up to the pending one. */
  ghost predicate Along<N>(g: map<N, seq<N>>, st0: Dfs<N>, st: Dfs<N>, i: nat) {
    && st0.path != [] && Top(st0) in g && |st0.path| <= |st.path| && st.path[..|st0.path|] == st0.path
    && |st0.queue| <= |st.queue| && st.queue[..|st0.queue|] == st0.queue
    && Top(st0) in st.next && st.next[Top(st0)] <= i < |g[Top(st0)]|
    && (forall k :: |st0.path| <= k < |st.path| ==> Via(g, Top(st0), st.next[Top(st0)] + 1, st.path[k], OnPath(st0)))
    && (forall k :: |st0.queue| <= k < |st.queue| ==> Via(g, Top(st0), st.next[Top(st0)] + 1, st.queue[k], OnPath(st0)))
  }

  /** Dependency i of the top of st0 is about to be passed over: it is marked. */
  ghost predicate Passes<N>(g: map<N, seq<N>>, st0: Dfs<N>, st: Dfs<N>, i: nat) {
    && st0.path != [] && st.path == st0.path && Top(st0) in g && Top(st0) in st.next
    && st.next[Top(st0)] == i < |g[Top(st0)]| && Marked(st, g[Top(st0)][i])
  }

  lemma AlongPush<N>(g: map<N, seq<N>>, st0: Dfs<N>, st: Dfs<N>, i: nat, c: N)
    requires Along(g, st0, st, i) && Top(st) in g && Top(st) in st.next && st.next[Top(st)] < |g[Top(st)]|
    requires c == g[Top(st)][st.next[Top(st)]] && c !in st.path
    ensures Along(g, st0, Push(st, c), i)
  {
    var u, a := Top(st0), OnPath(st0);
    assert forall x :: x in a ==> x in st.path;
    assert u == st.path[|st0.path| - 1] && u in st.path;
    if |st.path| == |st0.path| {
      ViaSelf(g, u, st.next[u], a);
    } else {
      ViaStep(g, u, st.next[u] + 1, Top(st), c, a);
    }
  }

  lemma ViaMore<N>(g: map<N, seq<N>>, u: N, n: nat, x: N, a: set<N>)
    requires u in g && Via(g, u, n, x, a)
    ensures Via(g, u, n + 1, x, a)
  {
  }

  lemma AlongSkip<N>(g: map<N, seq<N>>, st0: Dfs<N>, st: Dfs<N>, i: nat)
    requires Along(g, st0, st, i) && NoDup(st.path) && Top(st) in st.next
    requires |st.path| == |st0.path| ==> st.next[Top(st0)] < i
    ensures Along(g, st0, Skip(st), i)
  {
    var u, n, r := Top(st0), st.next[Top(st0)], Skip(st);
    assert u == st.path[|st0.path| - 1];
    if |st.path| == |st0.path| {
      forall k | |st0.queue| <= k < |st.queue| ensures Via(g, u, n + 2, st.queue[k], OnPath(st0)) {
        ViaMore(g, u, n + 1, st.queue[k], OnPath(st0));
      }
    }
  }

  lemma AlongStep<N>(g: map<N, seq<N>>, root: N, st0: Dfs<N>, st: Dfs<N>, i: nat)
    requires Inv(g, root, st) && Along(g, st0, st, i) && !Passes(g, st0, st, i)
    ensures Along(g, st0, Step(g, st), i)
  {
    assert Top(st) in st.path && Top(st0) == st.path[|st0.path| - 1];
    if |st.path| == |st0.path| { assert st.path == st0.path; }
    if st.next[Top(st)] >= |g[Top(st)]| {
      assert |st.path| > |st0.path|;
    } else if Marked(st, g[Top(st)][st.next[Top(st)]]) {
      AlongSkip(g, st0, st, i);
    } else {
      AlongPush(g, st0, st, i, g[Top(st)][st.next[Top(st)]]);
    }
  }

  ghost predicate AlongAt<N>(g: map<N, seq<N>>, root: N, k: nat, j: nat, i: nat) {
    Along(g, State(g, root, k), State(g, root, j), i)
  }

  ghost predicate PassesAt<N>(g: map<N, seq<N>>, root: N, k: nat, j: nat, i: nat) {
    Passes(g, State(g, root, k), State(g, root, j), i)
  }

  lemma AlongNext<N>(g: map<N, seq<N>>, root: N, k: nat, j: nat, i: nat)
    requires Closed(g) && root in g && AlongAt(g, root, k, j, i) && !PassesAt(g, root, k, j, i)
    ensures AlongAt(g, root, k, j + 1, i) == true
  {
    StateInv(g, root, j);
    AlongStep(g, root, State(g, root, k), State(g, root, j), i);
  }

  /** The search passes every dependency of an object it has stacked. */
  lemma {:induction false} PassesEach<N>(g: map<N, seq<N>>, root: N, k: nat, j: nat, end: nat, i: nat) returns (m: nat)
    requires Closed(g) && root in g && k <= j <= end && State(g, root, end).path == [] && AlongAt(g, root, k, j, i) == true
    ensures j <= m < end && AlongAt(g, root, k, m, i) == true && PassesAt(g, root, k, m, i) == true
    decreases end - j
  {
    if j == end {
      assert false;
    } else if PassesAt(g, root, k, j, i) == true {
      m := j;
    } else {
      AlongNext(g, root, k, j, i);
      m := PassesEach(g, root, k, j + 1, end, i);
    }
  }

  lemma AlongStart<N>(g: map<N, seq<N>>, root: N, k: nat, i: nat)
    requires var st := State(g, root, k); st.path != [] && JustOn(st, Top(st)) && Top(st) in g && i < |g[Top(st)]|
    ensures AlongAt(g, root, k, k, i) == true
  {
  }

  /** With dependency i passed, it is out, and so is nothing that was not unless one of the first i + 1 reaches it. */
  lemma OutWhenPassed<N>(g: map<N, seq<N>>, st0: Dfs<N>, st: Dfs<N>, i: nat, w: N)
    requires Along(g, st0, st, i) && Passes(g, st0, st, i) && g[Top(st0)][i] !in st0.path
    requires w !in st0.queue && !Via(g, Top(st0), i + 1, w, OnPath(st0))
    ensures g[Top(st0)][i] in st.queue && w !in st.queue
  {
    forall j | 0 <= j < |st.queue| ensures st.queue[j] != w {
      if j < |st0.queue| { assert st.queue[j] == st.queue[..|st0.queue|][j] && st.queue[j] in st0.queue; }
    }
  }

  /** Which of two objects comes first: of an object that is stacked at step k, dependency i comes before every object
      that is not out by then and that none of its first i + 1 dependencies reaches around the stack. */
  lemma DependenciesInTurn<N>(g: map<N, seq<N>>, root: N, end: nat, queue: seq<N>, k: nat, i: nat, b: nat)
    requires Closed(g) && root in g && Ends(g, root, end, queue) && k <= end && b < |queue|
    requires var st := State(g, root, k);
      && st.path != [] && JustOn(st, Top(st)) && Top(st) in g && i < |g[Top(st)]| && g[Top(st)][i] !in st.path
      && queue[b] !in st.queue && !Via(g, Top(st), i + 1, queue[b], OnPath(st))
    ensures g[Top(State(g, root, k))][i] in queue[..b]
  {
    AlongStart(g, root, k, i);
    var m := PassesEach(g, root, k, k, end, i);
    OutWhenPassed(g, State(g, root, k), State(g, root, m), i, queue[b]);
    QueueGrows(g, root, m, end);
    BehindPrefix(queue, State(g, root, m).queue, g[Top(State(g, root, k))][i], b);
  }

  lemma BehindPrefix<N>(queue: seq<N>, q: seq<N>, v: N, b: nat)
    requires |q| <= |queue| && queue[..|q|] == q && v in q && b < |queue| && queue[b] !in q
    ensures v in queue[..b]
  {
    assert forall j :: 0 <= j < |q| ==> queue[j] == q[j] && queue[j] in q;
    var j :| 0 <= j < |q| && q[j] == v;
    assert queue[..b][j] == v;
  }
}

/** The constructor order as a state machine over the graph (libc/ldso/dynlink.c:1469-1497). */
module CtorOrder {
  import opened Basics
  import opened DepGraph

  /** The depth-first search: its current path, each node's next dependency, the output. */
  datatype Dfs<N> = Dfs(path: seq<N>, next: map<N, nat>, queue: seq<N>)

  ghost predicate Marked<N>(st: Dfs<N>, x: N) {
    x in st.path || x in st.queue
  }

  /** Path and queue hold distinct nodes, root among them, all reachable from root. */
  ghost predicate Placed<N>(g: map<N, seq<N>>, root: N, st: Dfs<N>) {
    && NoDup(st.path) && NoDup(st.queue) && (forall x :: x in st.path ==> x !in st.queue)
    && Marked(st, root)
    && (forall x :: x in st.path ==> x in g && Reach(g, root, x))
    && (forall x :: x in st.queue ==> x in g && Reach(g, root, x))
  }

  /** Each path node is the pending dependency of the one before it. */
  ghost predicate Chained<N>(g: map<N, seq<N>>, st: Dfs<N>) {
    && (forall x :: x in st.path ==> x in g && x in st.next && st.next[x] <= |g[x]|)
    && (forall i :: 0 <= i < |st.path| - 1 ==>
          && st.next[st.path[i]] < |g[st.path[i]]|
          && st.path[i + 1] == g[st.path[i]][st.next[st.path[i]]])
  }

  /** Dependencies already looked at are marked; all of them for nodes in the queue. */
  ghost predicate Scanned<N>(g: map<N, seq<N>>, st: Dfs<N>)
    requires Chained(g, st) && forall x :: x in st.queue ==> x in g
  {
    && (forall x, j :: x in st.path && 0 <= j < st.next[x] ==> Marked(st, g[x][j]))
    && (forall x, v :: x in st.queue && v in g[x] ==> Marked(st, v))
  }

  /** When queue[i] was put out, every dependency of it and of its predecessors was out or leads back to it. */
  ghost predicate OutBefore<N>(g: map<N, seq<N>>, queue: seq<N>, i: nat)
    requires i < |queue|
  {
    forall j, v :: 0 <= j <= i && queue[j] in g && v in g[queue[j]] ==> v in queue[..i] || Reach(g, v, queue[i])
  }

  ghost predicate Ordered<N>(g: map<N, seq<N>>, queue: seq<N>) {
    forall i :: 0 <= i < |queue| ==> OutBefore(g, queue, i)
  }

  ghost predicate Inv<N>(g: map<N, seq<N>>, root: N, st: Dfs<N>) {
    Placed(g, root, st) && Chained(g, st) && Scanned(g, st) && Ordered(g, st.queue)
  }

  function Start<N>(root: N): (st: Dfs<N>) {
    Dfs([root], map[root := 0], [])
  }

  function Top<N>(st: Dfs<N>): (u: N)
    requires st.path != []
  {
    st.path[|st.path| - 1]
  }

  /** The pending dependency of the top is marked already: go on to the next. */
  ghost function Skip<N>(st: Dfs<N>): (r: Dfs<N>)
    requires st.path != [] && Top(st) in st.next
  {
    st.(next := st.next[Top(st) := st.next[Top(st)] + 1])
  }

  /** It is not: descend into it. */
  ghost function Push<N>(st: Dfs<N>, c: N): (r: Dfs<N>) {
    st.(path := st.path + [c], next := st.next[c := 0])
  }

  /** All dependencies of the top are done: put it out. */
  ghost function Emit<N>(st: Dfs<N>): (r: Dfs<N>)
    requires st.path != []
  {
    st.(path := st.path[..|st.path| - 1], queue := st.queue + [Top(st)])
  }

  lemma StartInv<N>(g: map<N, seq<N>>, root: N)
    requires root in g
    ensures Inv(g, root, Start(root))
  {
    ReachSelf(g, root);
  }

  lemma TopOnce<N>(st: Dfs<N>)
    requires NoDup(st.path) && st.path != []
    ensures forall i :: 0 <= i < |st.path| - 1 ==> st.path[i] != Top(st)
    ensures Top(st) in st.path
    ensures forall x :: x in st.path ==> x == Top(st) || x in st.path[..|st.path| - 1]
    ensures forall x :: x in st.path[..|st.path| - 1] ==> x in st.path && x != Top(st)
  {
    assert st.path == st.path[..|st.path| - 1] + [Top(st)];
  }

  lemma SkipInv<N>(g: map<N, seq<N>>, root: N, st: Dfs<N>)
    requires Inv(g, root, st) && st.path != [] && st.next[Top(st)] < |g[Top(st)]|
    requires Marked(st, g[Top(st)][st.next[Top(st)]])
    ensures Inv(g, root, Skip(st))
  {
    TopOnce(st);
    SkipScanned(g, st);
  }

  lemma SkipScanned<N>(g: map<N, seq<N>>, st: Dfs<N>)
    requires st.path != [] && NoDup(st.path) && Chained(g, st) && (forall x :: x in st.queue ==> x in g) && Scanned(g, st)
    requires st.next[Top(st)] < |g[Top(st)]| && Marked(st, g[Top(st)][st.next[Top(st)]])
    requires Chained(g, Skip(st))
    ensures Scanned(g, Skip(st))
  {
    var r := Skip(st);
    assert forall x :: Marked(st, x) ==> Marked(r, x);
    forall x, j | x in r.path && 0 <= j < r.next[x] ensures Marked(r, g[x][j]) {
      if x != Top(st) || j < st.next[x] {
        assert Marked(st, g[x][j]);
      }
    }
  }

  lemma PushInv<N>(g: map<N, seq<N>>, root: N, st: Dfs<N>)
    requires Closed(g) && Inv(g, root, st) && st.path != [] && st.next[Top(st)] < |g[Top(st)]|
    requires !Marked(st, g[Top(st)][st.next[Top(st)]])
    ensures Inv(g, root, Push(st, g[Top(st)][st.next[Top(st)]]))
  {
    var u := Top(st);
    var c := g[u][st.next[u]];
    assert u in st.path;
    PushPlaced(g, root, st, c);
    PushChained(g, st);
    PushScanned(g, st, c);
  }

  lemma PushPlaced<N>(g: map<N, seq<N>>, root: N, st: Dfs<N>, c: N)
    requires Placed(g, root, st) && st.path != [] && c in g && !Marked(st, c)
    requires Top(st) in g && c in g[Top(st)]
    ensures Placed(g, root, Push(st, c))
  {
    assert Top(st) in st.path;
    ReachEdge(g, Top(st), c);
    ReachTrans(g, root, Top(st), c);
  }

  lemma PushChained<N>(g: map<N, seq<N>>, st: Dfs<N>)
    requires Closed(g) && Chained(g, st) && st.path != [] && st.next[Top(st)] < |g[Top(st)]|
    requires g[Top(st)][st.next[Top(st)]] !in st.path
    ensures Chained(g, Push(st, g[Top(st)][st.next[Top(st)]]))
  {
    var c := g[Top(st)][st.next[Top(st)]];
    var r := Push(st, c);
    forall i | 0 <= i < |r.path| - 1
      ensures r.next[r.path[i]] < |g[r.path[i]]| && r.path[i + 1] == g[r.path[i]][r.next[r.path[i]]]
    {
      assert r.path[i] == st.path[i] && r.path[i] in st.path && r.next[r.path[i]] == st.next[st.path[i]];
    }
  }

  lemma PushScanned<N>(g: map<N, seq<N>>, st: Dfs<N>, c: N)
    requires Chained(g, st) && (forall x :: x in st.queue ==> x in g) && Scanned(g, st)
    requires !Marked(st, c) && Chained(g, Push(st, c))
    ensures Scanned(g, Push(st, c))
  {
    var r := Push(st, c);
    assert forall x :: Marked(st, x) ==> Marked(r, x);
    forall x, j | x in r.path && 0 <= j < r.next[x] ensures Marked(r, g[x][j]) {
      assert x != c && Marked(st, g[x][j]);
    }
  }

  lemma {:induction false} PathReaches<N>(g: map<N, seq<N>>, st: Dfs<N>, i: nat)
    requires Chained(g, st) && i < |st.path|
    ensures Reach(g, st.path[i], Top(st))
    decreases |st.path| - i
  {
    if i == |st.path| - 1 {
      ReachSelf(g, st.path[i]);
    } else {
      PathReaches(g, st, i + 1);
      ReachEdge(g, st.path[i], st.path[i + 1]);
      ReachTrans(g, st.path[i], st.path[i + 1], Top(st));
    }
  }

  lemma EmitOrdered<N>(g: map<N, seq<N>>, root: N, st: Dfs<N>)
    requires Inv(g, root, st) && st.path != [] && st.next[Top(st)] == |g[Top(st)]|
    ensures Ordered(g, Emit(st).queue)
  {
    var q, u := st.queue, Top(st);
    var r := q + [u];
    forall i | 0 <= i < |r| ensures OutBefore(g, r, i) {
      if i < |q| {
        assert OutBefore(g, q, i);
        assert r[..i] == q[..i];
      } else {
        assert r[..i] == q;
        forall j, v | 0 <= j <= i && r[j] in g && v in g[r[j]] ensures v in r[..i] || Reach(g, v, r[i]) {
          assert Marked(st, v);
          if v in st.path {
            var k :| 0 <= k < |st.path| && st.path[k] == v;
            PathReaches(g, st, k);
          }
        }
      }
    }
  }

  lemma EmitInv<N>(g: map<N, seq<N>>, root: N, st: Dfs<N>)
    requires Inv(g, root, st) && st.path != [] && st.next[Top(st)] == |g[Top(st)]|
    ensures Inv(g, root, Emit(st))
  {
    EmitOrdered(g, root, st);
    TopOnce(st);
    EmitPlaced(g, root, st);
    EmitScanned(g, st);
  }

  lemma EmitPlaced<N>(g: map<N, seq<N>>, root: N, st: Dfs<N>)
    requires Placed(g, root, st) && st.path != []
    ensures Placed(g, root, Emit(st))
  {
    TopOnce(st);
    var r := Emit(st);
    assert forall i :: 0 <= i < |st.queue| ==> st.queue[i] in st.queue;
  }

  lemma EmitScanned<N>(g: map<N, seq<N>>, st: Dfs<N>)
    requires st.path != [] && NoDup(st.path) && Chained(g, st) && (forall x :: x in st.queue ==> x in g) && Scanned(g, st)
    requires st.next[Top(st)] == |g[Top(st)]|
    requires Chained(g, Emit(st))
    ensures Scanned(g, Emit(st))
  {
    TopOnce(st);
    var r := Emit(st);
    assert forall x :: Marked(st, x) ==> Marked(r, x);
    forall x, j | x in r.path && 0 <= j < r.next[x] ensures Marked(r, g[x][j]) {
      assert Marked(st, g[x][j]);
    }
    forall x, v | x in r.queue && v in g[x] ensures Marked(r, v) {
      if x in st.queue {
        assert Marked(st, v);
      } else {
        var j :| 0 <= j < |g[x]| && g[x][j] == v;
        assert Marked(st, g[x][j]);
      }
    }
  }

  /** Every node root reaches, exactly once, each after those of its dependencies that do not lead back to it. */
  ghost predicate CtorQueue<N>(g: map<N, seq<N>>, root: N, queue: seq<N>) {
    && NoDup(queue) && (forall v :: v in queue ==> v in g)
    && (forall v :: v in g ==> (v in queue <==> Reach(g, root, v)))
    && Ordered(g, queue)
  }

  lemma DoneQueue<N>(g: map<N, seq<N>>, root: N, st: Dfs<N>)
    requires Inv(g, root, st) && st.path == []
    ensures CtorQueue(g, root, st.queue)
  {
    forall v | v in g && Reach(g, root, v) ensures v in st.queue {
      var n: nat :| Walk(g, root, v, n);
      var s := set x | x in st.queue;
      forall x, y | x in s && x in g && y in g[x] ensures y in s {
        assert Marked(st, y);
      }
      ClosedUnderReach(g, root, v, n, s);
    }
  }

  // ---- The run of the machine ----

  ghost function Nodes<N>(st: Dfs<N>): set<N> {
    (set x | x in st.path) + (set x | x in st.queue)
  }

  /** What the search does next; nothing once the path is empty. */
  ghost function Step<N>(g: map<N, seq<N>>, st: Dfs<N>): (r: Dfs<N>) {
    if st.path == [] || Top(st) !in g || Top(st) !in st.next then st
    else if st.next[Top(st)] >= |g[Top(st)]| then Emit(st)
    else if Marked(st, g[Top(st)][st.next[Top(st)]]) then Skip(st)
    else Push(st, g[Top(st)][st.next[Top(st)]])
  }

  /** The search after k steps. */
  ghost function State<N>(g: map<N, seq<N>>, root: N, k: nat): (st: Dfs<N>) {
    if k == 0 then Start(root) else Step(g, State(g, root, k - 1))
  }

  lemma StepInv<N>(g: map<N, seq<N>>, root: N, st: Dfs<N>)
    requires Closed(g) && Inv(g, root, st)
    ensures Inv(g, root, Step(g, st))
  {
    if st.path != [] {
      assert Top(st) in st.path;
      if st.next[Top(st)] == |g[Top(st)]| {
        EmitInv(g, root, st);
      } else if Marked(st, g[Top(st)][st.next[Top(st)]]) {
        SkipInv(g, root, st);
      } else {
        PushInv(g, root, st);
      }
    }
  }

  /** The invariant holds in every state of the run. */
  lemma {:induction false} StateInv<N>(g: map<N, seq<N>>, root: N, k: nat)
    requires Closed(g) && root in g
    ensures Inv(g, root, State(g, root, k))
  {
    if k == 0 {
      StartInv(g, root);
    } else {
      StateInv(g, root, k - 1);
      StepInv(g, root, State(g, root, k - 1));
    }
  }

  /** The run ends after k steps with this queue. */
  ghost predicate Ends<N>(g: map<N, seq<N>>, root: N, k: nat, queue: seq<N>) {
    State(g, root, k).path == [] && State(g, root, k).queue == queue
  }

  lemma EndsInCtorQueue<N>(g: map<N, seq<N>>, root: N, k: nat, queue: seq<N>)
    requires Closed(g) && root in g && Ends(g, root, k, queue)
    ensures CtorQueue(g, root, queue)
  {
    StateInv(g, root, k);
    DoneQueue(g, root, State(g, root, k));
  }

  lemma PushShrinks<N>(g: map<N, seq<N>>, st: Dfs<N>, c: N)
    requires c in g && !Marked(st, c)
    ensures |g.Keys - Nodes(Push(st, c))| < |g.Keys - Nodes(st)|
  {
    assert g.Keys - Nodes(Push(st, c)) == (g.Keys - Nodes(st)) - {c};
  }

  lemma EmitKeeps<N>(st: Dfs<N>)
    requires st.path != []
    ensures Nodes(Emit(st)) == Nodes(st)
  {
    assert st.path == Emit(st).path + [Top(st)];
  }

  // ---- What the order means ----

  /** A direct dependency comes first unless it depends, in turn, on its dependent. */
  lemma DependencyFirst<N>(g: map<N, seq<N>>, root: N, queue: seq<N>, i: nat, v: N)
    requires CtorQueue(g, root, queue) && i < |queue| && queue[i] in g && v in g[queue[i]]
    requires !Reach(g, v, queue[i])
    ensures v in queue[..i]
  {
    assert OutBefore(g, queue, i);
  }

  ghost predicate IsPath<N>(g: map<N, seq<N>>, w: seq<N>) {
    forall k :: 0 <= k < |w| - 1 ==> w[k] in g && w[k + 1] in g[w[k]]
  }

  /** The same along a chain of dependencies none of which leads back to its start. */
  lemma {:induction false} ChainFirst<N>(g: map<N, seq<N>>, root: N, queue: seq<N>, i: nat, w: seq<N>)
    requires CtorQueue(g, root, queue) && i < |queue| && |w| >= 2 && w[0] == queue[i] && IsPath(g, w)
    requires forall k :: 1 <= k < |w| ==> !Reach(g, w[k], queue[i])
    ensures w[|w| - 1] in queue[..i]
    decreases |w|
  {
    var n := |w| - 1;
    assert OutBefore(g, queue, i);
    assert w[n] in g[w[n - 1]];
    if n >= 2 {
      ChainFirst(g, root, queue, i, w[..n]);
      var j :| 0 <= j < i && queue[j] == w[n - 1];
    }
  }

  // ---- When it is a full order ----

  /** Everything a node depends on, directly or not, comes before it. */
  ghost predicate Topological<N>(g: map<N, seq<N>>, queue: seq<N>) {
    forall i, v :: 0 <= i < |queue| && v in g && v != queue[i] && Reach(g, queue[i], v) ==> v in queue[..i]
  }

  /** No two nodes that root reaches depend on each other. */
  ghost predicate Acyclic<N>(g: map<N, seq<N>>, root: N) {
    forall u, v :: u in g && v in g && u != v && Reach(g, root, u) && Reach(g, u, v) ==> !Reach(g, v, u)
  }

  lemma {:induction false} WalkFirst<N>(g: map<N, seq<N>>, root: N, queue: seq<N>, i: nat, v: N, n: nat)
    requires Closed(g) && CtorQueue(g, root, queue) && Acyclic(g, root)
    requires i < |queue| && v in g && v != queue[i] && Walk(g, queue[i], v, n)
    ensures v in queue[..i]
    decreases n
  {
    var w :| w in g && Walk(g, queue[i], w, n - 1) && v in g[w];
    assert queue[i] in queue && Reach(g, root, queue[i]);
    ReachEdge(g, w, v);
    if w == queue[i] {
      DependencyFirst(g, root, queue, i, v);
    } else if v != w {
      WalkFirst(g, root, queue, i, w, n - 1);
      var j :| 0 <= j < i && queue[j] == w;
      assert queue[j] in queue && Reach(g, root, w);
      DependencyFirst(g, root, queue, j, v);
    } else {
      WalkFirst(g, root, queue, i, w, n - 1);
    }
  }

  lemma AcyclicFirst<N>(g: map<N, seq<N>>, root: N, queue: seq<N>)
    requires Closed(g) && CtorQueue(g, root, queue) && Acyclic(g, root)
    ensures Topological(g, queue)
  {
    forall i, v | 0 <= i < |queue| && v in g && v != queue[i] && Reach(g, queue[i], v) ensures v in queue[..i] {
      var n: nat :| Walk(g, queue[i], v, n);
      WalkFirst(g, root, queue, i, v, n);
    }
  }

  lemma CycleBlocks<N>(g: map<N, seq<N>>, root: N, queue: seq<N>, u: N, v: N)
    requires CtorQueue(g, root, queue) && Topological(g, queue)
    requires u in g && v in g && u != v && Reach(g, root, u) && Reach(g, u, v)
    ensures !Reach(g, v, u)
  {
    ReachTrans(g, root, u, v);
    var i :| 0 <= i < |queue| && queue[i] == u;
    var j :| 0 <= j < |queue| && queue[j] == v;
    var before := queue[..j];
    assert v in queue[..i] && u !in before;
    assert Reach(g, v, u) ==> u in before;
  }

  /** The order is complete exactly when no two of the objects depend on each other. */
  lemma TopologicalExactly<N>(g: map<N, seq<N>>, root: N, queue: seq<N>)
    requires Closed(g) && CtorQueue(g, root, queue)
    ensures Topological(g, queue) <==> Acyclic(g, root)
  {
    if Acyclic(g, root) {
      AcyclicFirst(g, root, queue);
    }
    if Topological(g, queue) {
      forall u, v | u in g && v in g && u != v && Reach(g, root, u) && Reach(g, u, v) ensures !Reach(g, v, u) {
        CycleBlocks(g, root, queue, u, v);
      }
    }
  }

  // ---- Where cycles weaken it ----

  /** 0 needs 1 and 2, and 1 needs 0 back. */
  function Loop(): (g: map<int, seq<int>>) {
    map[0 := [1, 2], 1 := [0], 2 := []]
  }

  /** An indirect dependency that does not lead back can still come late: 1 depends on 2
      through 0, 2 does not depend on 1, and yet 1 is put out first. */
  lemma IndirectLate()
    ensures Ends(Loop(), 0, 8, [1, 2, 0])
    ensures Reach(Loop(), 1, 2) && !Reach(Loop(), 2, 1)
  {
    LoopA(0);
    LoopB(2);
    LoopC(4);
    LoopD(6);
    LoopReach();
  }

  lemma LoopA(k: nat)
    requires State(Loop(), 0, k) == Dfs([0], map[0 := 0], [])
    ensures State(Loop(), 0, k + 2) == Dfs([0, 1], map[0 := 0, 1 := 1], [])
  {
    assert State(Loop(), 0, k + 1) == Dfs([0, 1], map[0 := 0, 1 := 0], []);
  }

  lemma LoopB(k: nat)
    requires State(Loop(), 0, k) == Dfs([0, 1], map[0 := 0, 1 := 1], [])
    ensures State(Loop(), 0, k + 2) == Dfs([0], map[0 := 1, 1 := 1], [1])
  {
    LoopEmit(k);
    LoopSkip(k + 1);
  }

  lemma LoopEmit(k: nat)
    requires State(Loop(), 0, k) == Dfs([0, 1], map[0 := 0, 1 := 1], [])
    ensures State(Loop(), 0, k + 1) == Dfs([0], map[0 := 0, 1 := 1], [1])
  {
  }

  lemma LoopSkip(k: nat)
    requires State(Loop(), 0, k) == Dfs([0], map[0 := 0, 1 := 1], [1])
    ensures State(Loop(), 0, k + 1) == Dfs([0], map[0 := 1, 1 := 1], [1])
  {
  }

  lemma LoopC(k: nat)
    requires State(Loop(), 0, k) == Dfs([0], map[0 := 1, 1 := 1], [1])
    ensures State(Loop(), 0, k + 2) == Dfs([0], map[0 := 1, 1 := 1, 2 := 0], [1, 2])
  {
    assert State(Loop(), 0, k + 1) == Dfs([0, 2], map[0 := 1, 1 := 1, 2 := 0], [1]);
  }

  lemma LoopD(k: nat)
    requires State(Loop(), 0, k) == Dfs([0], map[0 := 1, 1 := 1, 2 := 0], [1, 2])
    ensures Ends(Loop(), 0, k + 2, [1, 2, 0])
  {
    assert State(Loop(), 0, k + 1) == Dfs([0], map[0 := 2, 1 := 1, 2 := 0], [1, 2]);
  }

  lemma LoopReach()
    ensures Reach(Loop(), 1, 2) && !Reach(Loop(), 2, 1)
  {
    var g := Loop();
    ReachEdge(g, 1, 0);
    ReachEdge(g, 0, 2);
    ReachTrans(g, 1, 0, 2);
    forall n: nat ensures !Walk(g, 2, 1, n) {
      if Walk(g, 2, 1, n) { ClosedUnderReach(g, 2, 1, n, {2}); }
    }
  }
}

/** Dependency lists and constructor queues of loaded objects (libc/ldso/dynlink.c). */
module DsoLinker {
  import opened Basics
  import opened DepGraph
  import opened BfsDeps
  import opened CtorOrder

  class Dso {
    var deps: seq<Dso>
    var ndepsDirect: nat
    var mark: bool
    var bfsBuilt: bool
    var nextDep: nat

    constructor ()
      ensures deps == [] && ndepsDirect == 0 && !mark && !bfsBuilt
    {
      deps, ndepsDirect, mark, bfsBuilt, nextDep := [], 0, false, false, 0;
    }
  }

  /** g is the graph of direct dependencies of the objects on the list. */
  ghost predicate Represents(all: seq<Dso>, g: map<Dso, seq<Dso>>)
    reads all
  {
    && Closed(g)
    && (forall d :: d in g ==> d in all)
    && (forall d :: d in all ==> d in g && d.ndepsDirect == |g[d]| && StartsWith(d.deps, g[d]))
  }

  ghost predicate MarksAre(all: seq<Dso>, s: set<Dso>)
    reads all
  {
    forall d :: d in all ==> (d.mark <==> d in s)
  }

  // ---- extend_bfs_deps ----

  /** How many entries of ds are not on the list. */
  ghost function Missing<N>(deps: seq<N>, ds: seq<N>): (n: nat) {
    if ds == [] then 0 else (if ds[0] in deps then 0 else 1) + Missing(deps, ds[1..])
  }

  lemma {:induction false} MissingMono<N>(deps: seq<N>, x: N, ds: seq<N>)
    ensures Missing(deps + [x], ds) <= Missing(deps, ds)
  {
    if ds != [] { MissingMono(deps, x, ds[1..]); }
  }

  /** The space reserved before copying suffices. */
  lemma {:induction false} AppendedFits<N>(deps: seq<N>, ds: seq<N>)
    ensures |Appended(deps, ds)| <= |deps| + Missing(deps, ds)
    decreases |ds|
  {
    if ds != [] {
      if ds[0] in deps {
        AppendedFits(deps, ds[1..]);
      } else {
        AppendedFits(deps + [ds[0]], ds[1..]);
        MissingMono(deps, ds[0], ds[1..]);
      }
    }
  }

  /** Counts the direct dependencies of dep that are not on p's list. */
  method CountRoom(all: seq<Dso>, p: Dso, dep: Dso, ghost g: map<Dso, seq<Dso>>) returns (room: nat)
    requires Represents(all, g) && p in all && dep in all && MarksAre(all, Members(p.deps))
    ensures room == Missing(p.deps, g[dep])
  {
    ghost var ds := g[dep];
    var j := 0;
    room := 0;
    while j < dep.ndepsDirect
      invariant j <= |ds|
      invariant room + Missing(p.deps, ds[j..]) == Missing(p.deps, ds)
    {
      assert ds[j] == dep.deps[j] && ds[j..][1..] == ds[j + 1..];
      if !dep.deps[j].mark { room := room + 1; }
      j := j + 1;
    }
  }

  /** Copies the unlisted direct dependencies of dep to the end of p's list. */
  method CopyDeps(all: seq<Dso>, p: Dso, dep: Dso, ghost g: map<Dso, seq<Dso>>)
    requires Represents(all, g) && p in all && dep in all && MarksAre(all, Members(p.deps))
    modifies p`deps, all`mark
    ensures Represents(all, g) && MarksAre(all, Members(p.deps))
    ensures p.deps == Appended(old(p.deps), g[dep])
  {
    ghost var ds := g[dep];
    var j := 0;
    while j < dep.ndepsDirect
      invariant j <= |ds|
      invariant Represents(all, g) && MarksAre(all, Members(p.deps))
      invariant Appended(p.deps, ds[j..]) == Appended(old(p.deps), ds)
    {
      var q := dep.deps[j];
      assert q == ds[j] && q in g;
      AppendedNext(p.deps, ds, j);
      AppendUnmarked(all, p, q, g);
      j := j + 1;
    }
  }

  lemma AppendedNext<N>(deps: seq<N>, ds: seq<N>, j: nat)
    requires j < |ds|
    ensures Appended(deps, ds[j..]) == Appended(if ds[j] in deps then deps else deps + [ds[j]], ds[j + 1..])
  {
    assert ds[j..][1..] == ds[j + 1..];
  }

  method AppendUnmarked(all: seq<Dso>, p: Dso, q: Dso, ghost g: map<Dso, seq<Dso>>)
    requires Represents(all, g) && p in all && q in all && MarksAre(all, Members(p.deps))
    modifies p`deps, all`mark
    ensures Represents(all, g) && MarksAre(all, Members(p.deps))
    ensures p.deps == if q in old(p.deps) then old(p.deps) else old(p.deps) + [q]
  {
    if !q.mark {
      q.mark := true;
      p.deps := p.deps + [q];
    }
  }

  /** Marks the entries of p's list. */
  method MarkDeps(all: seq<Dso>, p: Dso, ghost g: map<Dso, seq<Dso>>)
    requires Represents(all, g) && Within(p.deps, g) && MarksAre(all, {})
    modifies all`mark
    ensures MarksAre(all, Members(p.deps))
  {
    var i := 0;
    while i < |p.deps|
      invariant i <= |p.deps| && MarksAre(all, Members(p.deps[..i]))
    {
      assert p.deps[..i + 1] == p.deps[..i] + [p.deps[i]];
      p.deps[i].mark := true;
      i := i + 1;
    }
    assert p.deps[..i] == p.deps;
  }

  method ClearMarks(all: seq<Dso>)
    modifies all`mark
    ensures MarksAre(all, {})
  {
    var i := 0;
    while i < |all|
      invariant i <= |all| && forall k :: 0 <= k < i ==> !all[k].mark
    {
      all[i].mark := false;
      i := i + 1;
    }
  }

  /** One entry contributes its direct dependencies, for which room was counted first. */
  method GrowOnce(all: seq<Dso>, p: Dso, dep: Dso, ghost g: map<Dso, seq<Dso>>)
    requires Represents(all, g) && p in all && dep in all && MarksAre(all, Members(p.deps))
    modifies p`deps, all`mark
    ensures Represents(all, g) && MarksAre(all, Members(p.deps))
    ensures p.deps == Appended(old(p.deps), g[dep])
  {
    AppendedFits(p.deps, g[dep]);
    ghost var n := |p.deps|;
    var room := CountRoom(all, p, dep, g);
    CopyDeps(all, p, dep, g);
    assert |p.deps| <= n + room;
  }

  lemma BfsStep(g: map<Dso, seq<Dso>>, deps: seq<Dso>, i: nat, next: seq<Dso>)
    requires Closed(g) && Within(deps, g) && i < |deps| && next == Appended(deps, g[deps[i]])
    ensures Within(next, g) && i + 1 <= |next| && Bfs(g, next, i + 1) == Bfs(g, deps, i)
    ensures next == deps || |g.Keys - Members(next)| < |g.Keys - Members(deps)|
  {
    AppendedMeasure(g, deps, g[deps[i]]);
    AppendedGrows(deps, g[deps[i]]);
  }

  /** With i entries expanded, what is left of the loop leads to goal. */
  ghost predicate Growing(all: seq<Dso>, p: Dso, g: map<Dso, seq<Dso>>, i: nat, goal: seq<Dso>)
    reads all, p
  {
    && i <= |p.deps| && Represents(all, g) && Within(p.deps, g) && MarksAre(all, Members(p.deps))
    && Bfs(g, p.deps, i) == goal
  }

  method GrowNext(all: seq<Dso>, p: Dso, i: nat, ghost g: map<Dso, seq<Dso>>, ghost goal: seq<Dso>)
    requires Growing(all, p, g, i, goal) == true && p in all && i < |p.deps|
    modifies p`deps, all`mark
    ensures Growing(all, p, g, i + 1, goal) == true
    ensures p.deps == old(p.deps) || |g.Keys - Members(p.deps)| < |g.Keys - Members(old(p.deps))|
  {
    ghost var base := p.deps;
    var dep := p.deps[i];
    GrowOnce(all, p, dep, g);
    BfsStep(g, base, i, p.deps);
  }

  /** The growing loop: every entry contributes its direct dependencies. */
  method GrowDeps(all: seq<Dso>, p: Dso, ghost g: map<Dso, seq<Dso>>)
    requires Represents(all, g) && p in all && Within(p.deps, g) && MarksAre(all, Members(p.deps))
    modifies p`deps, all`mark
    ensures Represents(all, g)
    ensures p.deps == Bfs(g, old(p.deps), 0)
  {
    var i := 0;
    ghost var goal := Bfs(g, p.deps, 0);
    while i < |p.deps|
      invariant i <= |p.deps| && Growing(all, p, g, i, goal) == true
      decreases |g.Keys - Members(p.deps)|, |p.deps| - i
    {
      GrowNext(all, p, i, g, goal);
      i := i + 1;
    }
  }

  /** p's list becomes the breadth-first closure of its direct dependencies. */
  method ExtendBfsDeps(all: seq<Dso>, p: Dso, ghost g: map<Dso, seq<Dso>>)
    requires Represents(all, g) && p in all && MarksAre(all, {})
    requires if p.bfsBuilt then BfsClosure(g, p, p.deps) else p.deps == g[p]
    modifies p`deps, p`bfsBuilt, all`mark
    ensures Represents(all, g) && MarksAre(all, {})
    ensures p.bfsBuilt && BfsClosure(g, p, p.deps) && (!old(p.bfsBuilt) ==> InTurn(g, p, p.deps))
  {
    if p.bfsBuilt { return; }
    ghost var direct := g[p];
    assert Within(direct, g);
    MarkDeps(all, p, g);
    GrowDeps(all, p, g);
    p.bfsBuilt := true;
    ClearMarks(all);
    assert p.deps == Bfs(g, direct, 0);
    BfsIsClosure(g, p);
    BfsInTurn(g, p);
  }

  // ---- queue_ctors ----

  /** u bounds the search: it is closed under dependencies and fits the buffer. */
  ghost predicate Universe(g: map<Dso, seq<Dso>>, u: set<Dso>, root: Dso, cnt: nat) {
    && root in u && u <= g.Keys && |u| < cnt
    && forall x, v :: x in u && x in g && v in g[x] ==> v in u
  }

  /** The fields next_dep and mark follow the search. */
  ghost predicate FieldsFollow(u: set<Dso>, st: Dfs<Dso>)
    reads u
  {
    && (forall d :: d in st.path ==> d in u && d in st.next && d.nextDep == st.next[d])
    && (forall d :: d in st.queue ==> d in u)
    && (forall d :: d in u ==> (d.mark <==> Marked(st, d)))
  }

  /** The low end of the buffer is the queue, the high end holds the first h nodes of the path. */
  ghost predicate BufferHolds(buf: array<Dso?>, st: Dfs<Dso>, h: nat)
    requires h <= |st.path|
    reads buf
  {
    && |st.queue| + h <= buf.Length
    && (forall i :: 0 <= i < |st.queue| ==> buf[i] == st.queue[i])
    && (forall i :: 0 <= i < h ==> buf[buf.Length - 1 - i] == st.path[i])
  }

  /** In every state of the search, stack and queue together stay below the buffer's length. */
  lemma Separate(g: map<Dso, seq<Dso>>, root: Dso, k: nat, u: set<Dso>, cnt: nat)
    requires Closed(g) && root in g && |u| < cnt
    requires forall d :: d in State(g, root, k).path ==> d in u
    requires forall d :: d in State(g, root, k).queue ==> d in u
    ensures |State(g, root, k).path| + |State(g, root, k).queue| < cnt
  {
    StateInv(g, root, k);
    var st := State(g, root, k);
    var s := st.path + st.queue;
    forall i, j | 0 <= i < j < |s| ensures s[i] != s[j] {
      if i < |st.path| <= j {
        assert s[i] in st.path && s[j] in st.queue;
      }
    }
    NoDupBound(s, u);
  }

  /** What the node in hand looks like in every state of the search. */
  lemma InHand(g: map<Dso, seq<Dso>>, root: Dso, k: nat)
    requires Closed(g) && root in g && State(g, root, k).path != []
    ensures var st := State(g, root, k);
      NoDup(st.path) && Top(st) in st.path && Top(st) in g && Top(st) in st.next && st.next[Top(st)] <= |g[Top(st)]|
  {
    StateInv(g, root, k);
    assert Top(State(g, root, k)) in State(g, root, k).path;
  }

  /** The direct lists of the nodes of u. */
  ghost predicate ListsAre(u: set<Dso>, g: map<Dso, seq<Dso>>)
    reads u
  {
    forall d :: d in u ==> d in g && d.ndepsDirect == |g[d]| && StartsWith(d.deps, g[d])
  }

  method SkipDep(p: Dso, ghost g: map<Dso, seq<Dso>>, ghost u: set<Dso>, ghost st: Dfs<Dso>)
    requires ListsAre(u, g) && FieldsFollow(u, st) && st.path != [] && Top(st) == p && NoDup(st.path)
    modifies p`nextDep
    ensures FieldsFollow(u, Skip(st))
    ensures ListsAre(u, g)
  {
    assert p in st.path;
    p.nextDep := p.nextDep + 1;
  }

  method PushDep(buf: array<Dso?>, p: Dso, q: Dso, spos0: nat, ghost g: map<Dso, seq<Dso>>, ghost u: set<Dso>, ghost st: Dfs<Dso>)
    returns (spos: nat)
    requires ListsAre(u, g) && FieldsFollow(u, st) && st.path != [] && Top(st) == p && q in u && !Marked(st, q)
    requires BufferHolds(buf, st, |st.path| - 1) && spos0 == buf.Length - (|st.path| - 1)
    requires |st.path| + |st.queue| < buf.Length
    modifies buf, q`nextDep, q`mark
    ensures ListsAre(u, g) && FieldsFollow(u, Push(st, q))
    ensures BufferHolds(buf, Push(st, q), |st.path|) && spos == buf.Length - |st.path|
  {
    spos := spos0 - 1;
    buf[spos] := p;
    q.nextDep := 0;
    q.mark := true;
  }

  /** The buffer and fields show state k of the search, with the top of the path in hand. */
  ghost predicate Holding(buf: array<Dso?>, p: Dso, spos: nat, g: map<Dso, seq<Dso>>, u: set<Dso>, st: Dfs<Dso>)
    reads buf, u
  {
    && ListsAre(u, g) && FieldsFollow(u, st)
    && st.path != [] && Top(st) == p && p in u
    && BufferHolds(buf, st, |st.path| - 1) && spos == buf.Length - (|st.path| - 1)
  }

  /** The search has marked a new node, or its path is as long as before. */
  ghost predicate Shrunk(g: map<Dso, seq<Dso>>, st: Dfs<Dso>, st0: Dfs<Dso>) {
    || |g.Keys - Nodes(st)| < |g.Keys - Nodes(st0)|
    || (Nodes(st) == Nodes(st0) && |st.path| == |st0.path|)
  }

  /** A round of the inner loop passes over a marked dependency, */
  method LookSkip(buf: array<Dso?>, p: Dso, spos: nat, ghost g: map<Dso, seq<Dso>>,
                  ghost root: Dso, ghost u: set<Dso>, ghost k: nat)
    requires Closed(g) && root in g && Holding(buf, p, spos, g, u, State(g, root, k)) && p.nextDep < |g[p]|
    requires Marked(State(g, root, k), g[p][p.nextDep])
    modifies p`nextDep
    ensures Holding(buf, p, spos, g, u, State(g, root, k + 1)) == true && p.nextDep == old(p.nextDep) + 1
    ensures State(g, root, k + 1) == Skip(State(g, root, k))
  {
    InHand(g, root, k);
    assert State(g, root, k + 1) == Skip(State(g, root, k));
    SkipDep(p, g, u, State(g, root, k));
  }

  /** or descends into one that is not. */
  method LookPush(buf: array<Dso?>, p: Dso, q: Dso, spos: nat, ghost g: map<Dso, seq<Dso>>,
                  ghost root: Dso, ghost u: set<Dso>, ghost k: nat) returns (spos': nat)
    requires Closed(g) && Universe(g, u, root, buf.Length) && Holding(buf, p, spos, g, u, State(g, root, k))
    requires p.nextDep < |g[p]| && q == g[p][p.nextDep] && !Marked(State(g, root, k), q)
    modifies buf, q`mark, q`nextDep
    ensures Holding(buf, q, spos', g, u, State(g, root, k + 1)) == true
    ensures State(g, root, k + 1) == Push(State(g, root, k), q)
  {
    InHand(g, root, k);
    assert State(g, root, k + 1) == Push(State(g, root, k), q);
    Separate(g, root, k, u, buf.Length);
    spos' := PushDep(buf, p, q, spos, g, u, State(g, root, k));
  }

  /** One round of the inner loop. */
  method LookOnce(buf: array<Dso?>, p: Dso, spos: nat, ghost g: map<Dso, seq<Dso>>,
                  ghost root: Dso, ghost u: set<Dso>, ghost k: nat)
    returns (p': Dso, spos': nat)
    requires Closed(g) && Universe(g, u, root, buf.Length) && Holding(buf, p, spos, g, u, State(g, root, k))
    requires p.nextDep < p.ndepsDirect
    modifies buf, u`mark, u`nextDep
    ensures Holding(buf, p', spos', g, u, State(g, root, k + 1)) == true
    ensures State(g, root, k + 1).queue == State(g, root, k).queue
    ensures Shrunk(g, State(g, root, k + 1), State(g, root, k))
    ensures || |g.Keys - Nodes(State(g, root, k + 1))| < |g.Keys - Nodes(State(g, root, k))|
            || (p' == p && p.nextDep == old(p.nextDep) + 1)
  {
    var q := p.deps[p.nextDep];
    assert q == g[p][p.nextDep] && q in u;
    if q.mark {
      p', spos' := p, spos;
      LookSkip(buf, p, spos, g, root, u, k);
    } else {
      PushShrinks(g, State(g, root, k), q);
      spos' := LookPush(buf, p, q, spos, g, root, u, k);
      p' := q;
    }
  }

  /** The inner loop: from the node in hand down to one whose dependencies are all marked. */
  method Descend(buf: array<Dso?>, top: Dso, spos0: nat, ghost g: map<Dso, seq<Dso>>,
                 ghost root: Dso, ghost u: set<Dso>, ghost k0: nat)
    returns (p: Dso, spos: nat, ghost k: nat)
    requires Closed(g) && Universe(g, u, root, buf.Length) && Holding(buf, top, spos0, g, u, State(g, root, k0))
    modifies buf, u`mark, u`nextDep
    ensures Holding(buf, p, spos, g, u, State(g, root, k)) && p.nextDep >= p.ndepsDirect
    ensures State(g, root, k).queue == State(g, root, k0).queue
    ensures Shrunk(g, State(g, root, k), State(g, root, k0))
  {
    p, spos, k := top, spos0, k0;
    while p.nextDep < p.ndepsDirect
      invariant Holding(buf, p, spos, g, u, State(g, root, k))
      invariant State(g, root, k).queue == State(g, root, k0).queue
      invariant Shrunk(g, State(g, root, k), State(g, root, k0))
      decreases |g.Keys - Nodes(State(g, root, k))|, p.ndepsDirect - p.nextDep
    {
      p, spos := LookOnce(buf, p, spos, g, root, u, k);
      k := k + 1;
    }
  }

  /** The node in hand goes from the path to the queue. */
  method EmitTop(buf: array<Dso?>, p: Dso, qpos: nat, ghost g: map<Dso, seq<Dso>>, ghost u: set<Dso>, ghost st: Dfs<Dso>)
    requires ListsAre(u, g) && FieldsFollow(u, st) && st.path != [] && Top(st) == p && NoDup(st.path) && qpos == |st.queue|
    requires BufferHolds(buf, st, |st.path| - 1) && |st.path| + |st.queue| < buf.Length
    modifies buf
    ensures ListsAre(u, g) && FieldsFollow(u, Emit(st))
    ensures BufferHolds(buf, Emit(st), |Emit(st).path|)
  {
    TopOnce(st);
    buf[qpos] := p;
  }

  /** The buffer and fields show the search with its whole path on the stack. */
  ghost predicate Stacked(buf: array<Dso?>, spos: nat, qpos: nat, g: map<Dso, seq<Dso>>, u: set<Dso>, st: Dfs<Dso>)
    reads buf, u
  {
    && ListsAre(u, g) && FieldsFollow(u, st)
    && BufferHolds(buf, st, |st.path|) && spos == buf.Length - |st.path| && qpos == |st.queue|
  }

  /** The node taken from the stack is the top of the path. */
  lemma TakeTop(buf: array<Dso?>, spos: nat, qpos: nat, g: map<Dso, seq<Dso>>, root: Dso, u: set<Dso>, k: nat)
    requires Closed(g) && root in g && Stacked(buf, spos, qpos, g, u, State(g, root, k)) && spos < buf.Length
    ensures buf[spos] != null && Holding(buf, buf[spos], spos + 1, g, u, State(g, root, k))
  {
    InHand(g, root, k);
  }

  /** With no dependency left to look at, the node in hand is put out. */
  method EmitRound(buf: array<Dso?>, p: Dso, spos: nat, qpos: nat, ghost g: map<Dso, seq<Dso>>,
                   ghost root: Dso, ghost u: set<Dso>, ghost k: nat)
    requires Closed(g) && Universe(g, u, root, buf.Length) && Holding(buf, p, spos, g, u, State(g, root, k))
    requires p.nextDep >= p.ndepsDirect && qpos == |State(g, root, k).queue|
    modifies buf
    ensures Stacked(buf, spos, qpos + 1, g, u, State(g, root, k + 1))
    ensures State(g, root, k + 1) == Emit(State(g, root, k))
  {
    InHand(g, root, k);
    Separate(g, root, k, u, buf.Length);
    EmitTop(buf, p, qpos, g, u, State(g, root, k));
  }

  /** One round of the outer loop: take a node from the stack, descend, put one node out. */
  method Visit(buf: array<Dso?>, spos: nat, qpos: nat, ghost g: map<Dso, seq<Dso>>,
               ghost root: Dso, ghost u: set<Dso>, ghost k: nat)
    returns (spos': nat, qpos': nat, ghost k': nat)
    requires Closed(g) && Universe(g, u, root, buf.Length)
    requires Stacked(buf, spos, qpos, g, u, State(g, root, k)) && spos < buf.Length
    modifies buf, u`mark, u`nextDep
    ensures Stacked(buf, spos', qpos', g, u, State(g, root, k'))
    ensures var st, st' := State(g, root, k), State(g, root, k');
      |g.Keys - Nodes(st')| < |g.Keys - Nodes(st)| || (Nodes(st') == Nodes(st) && |st'.path| < |st.path|)
  {
    TakeTop(buf, spos, qpos, g, root, u, k);
    var p := buf[spos];
    p, spos', k' := Descend(buf, p, spos + 1, g, root, u, k);
    EmitKeeps(State(g, root, k'));
    EmitRound(buf, p, spos', qpos, g, root, u, k');
    k' := k' + 1;
    qpos' := qpos + 1;
  }

  /** The outer loop: queue and stack grow from opposite ends of one buffer. */
  method Search(buf: array<Dso?>, root: Dso, ghost g: map<Dso, seq<Dso>>, ghost u: set<Dso>)
    returns (qpos: nat, ghost k: nat)
    requires Closed(g) && Universe(g, u, root, buf.Length)
    requires Stacked(buf, buf.Length - 1, 0, g, u, Start(root))
    modifies buf, u`mark, u`nextDep
    ensures State(g, root, k).path == [] && Stacked(buf, buf.Length, qpos, g, u, State(g, root, k)) && qpos < buf.Length
  {
    var spos: nat := buf.Length - 1;
    qpos, k := 0, 0;
    while spos < buf.Length
      invariant Stacked(buf, spos, qpos, g, u, State(g, root, k))
      decreases |g.Keys - Nodes(State(g, root, k))|, |State(g, root, k).path|
    {
      spos, qpos, k := Visit(buf, spos, qpos, g, root, u, k);
    }
    Separate(g, root, k, u, buf.Length);
  }

  /** The nodes the search can touch: everything, or the object with its closure if that was built. */
  ghost function Touchable(g: map<Dso, seq<Dso>>, dso: Dso): (u: set<Dso>)
    reads dso
  {
    if dso.bfsBuilt then {dso} + Members(dso.deps) else g.Keys
  }

  /** The buffer that queue_ctors sizes from the dependency list suffices because the list is a closure. */
  lemma ClosureBounds(g: map<Dso, seq<Dso>>, dso: Dso, deps: seq<Dso>)
    requires Closed(g) && BfsClosure(g, dso, deps)
    ensures Universe(g, {dso} + Members(deps), dso, |deps| + 2)
  {
    var u := {dso} + Members(deps);
    SetOfSeqBound(deps);
    forall x, v | x in u && x in g && v in g[x] ensures v in u {
      if x == dso {
        WalkEdge(g, dso, v);
      } else {
        assert ReachesBy(g, dso, x);
        var n: nat :| n >= 1 && Walk(g, dso, x, n);
        WalkStep(g, dso, x, v, n);
      }
      assert ReachesBy(g, dso, v);
      var i :| 0 <= i < |g[x]| && g[x][i] == v;
      assert v in g;
    }
  }

  lemma ListBounds(g: map<Dso, seq<Dso>>, dso: Dso, all: seq<Dso>)
    requires Closed(g) && dso in g && forall d :: d in g ==> d in all
    ensures Universe(g, g.Keys, dso, |all| + 1)
  {
    SetOfSeqBound(all);
    SubsetSize(g.Keys, set d | d in all);
    forall x, v | x in g && v in g[x] ensures v in g {
      var i :| 0 <= i < |g[x]| && g[x][i] == v;
    }
  }

  /** The slots of the buffer: one for each object of the closure, the object itself and the null, or one for each
      object there is and the null. */
  function Room(all: seq<Dso>, dso: Dso): (n: nat)
    reads dso
  {
    if dso.bfsBuilt then |dso.deps| + 2 else |all| + 1
  }

  method ClearSome(ds: seq<Dso>)
    modifies ds`mark
    ensures forall d :: d in ds ==> !d.mark
  {
    var i := 0;
    while i < |ds|
      invariant i <= |ds| && forall k :: 0 <= k < i ==> !ds[k].mark
    {
      ds[i].mark := false;
      i := i + 1;
    }
  }

  /** Clears the marks the search may read and sizes the buffer. */
  method SizeQueue(all: seq<Dso>, dso: Dso, ghost g: map<Dso, seq<Dso>>) returns (cnt: nat, ghost u: set<Dso>)
    requires Represents(all, g) && dso in all && (dso.bfsBuilt ==> BfsClosure(g, dso, dso.deps))
    modifies all`mark
    ensures Universe(g, u, dso, cnt) && (forall d :: d in u ==> d in all) && ListsAre(u, g)
    ensures forall d :: d in u && d != dso ==> !d.mark
    ensures forall d :: d in all && d.mark ==> old(d.mark)
    ensures cnt == Room(all, dso)
  {
    u := Touchable(g, dso);
    if dso.bfsBuilt {
      ClosureBounds(g, dso, dso.deps);
      ClearSome(dso.deps);
      cnt := |dso.deps| + 2;
    } else {
      ListBounds(g, dso, all);
      ClearSome(all);
      cnt := |all| + 1;
    }
  }

  /** Allocates the buffer and puts dso on its stack end. */
  method Prepare(dso: Dso, cnt: nat, ghost g: map<Dso, seq<Dso>>, ghost u: set<Dso>) returns (queue: array<Dso?>)
    requires Universe(g, u, dso, cnt) && ListsAre(u, g)
    requires forall d :: d in u && d != dso ==> !d.mark
    modifies dso`mark, dso`nextDep
    ensures fresh(queue) && queue.Length == cnt
    ensures Stacked(queue, cnt - 1, 0, g, u, Start(dso))
  {
    queue := new Dso?[cnt](_ => null);
    queue[cnt - 1] := dso;
    dso.nextDep := 0;
    dso.mark := true;
  }

  /** The search, with the buffer it needs. */
  method FillQueue(all: seq<Dso>, dso: Dso, ghost g: map<Dso, seq<Dso>>)
    returns (queue: array<Dso?>, n: nat, ghost order: seq<Dso>, ghost k: nat)
    requires Represents(all, g) && dso in all && (dso.bfsBuilt ==> BfsClosure(g, dso, dso.deps))
    modifies all`mark, all`nextDep
    ensures fresh(queue) && n == |order| < queue.Length == Room(all, dso) && forall i :: 0 <= i < n ==> queue[i] == order[i]
    ensures Ends(g, dso, k, order) == true
    ensures forall i :: 0 <= i < |order| ==> order[i] in all
    ensures forall d :: d in all && d.mark ==> d in order || old(d.mark)
  {
    ghost var u;
    var cnt;
    cnt, u := SizeQueue(all, dso, g);
    queue := Prepare(dso, cnt, g, u);
    n, k := Search(queue, dso, g, u);
    order := State(g, dso, k).queue;
    assert forall i :: 0 <= i < |order| ==> order[i] in order;
  }

  /** Puts the constructors to run for dso in order, ended by null. No object is marked that was not before, and
      none of the queue. */
  method QueueCtors(all: seq<Dso>, dso: Dso, ghost g: map<Dso, seq<Dso>>)
    returns (queue: array<Dso?>, n: nat, ghost order: seq<Dso>)
    requires Represents(all, g) && dso in all && (dso.bfsBuilt ==> BfsClosure(g, dso, dso.deps))
    modifies all`mark, all`nextDep
    ensures fresh(queue) && queue.Length == Room(all, dso)
    ensures n == |order| < queue.Length && queue[n] == null && forall i :: 0 <= i < n ==> queue[i] == order[i]
    ensures CtorQueue(g, dso, order)
    ensures exists k :: Ends(g, dso, k, order)
    ensures forall d :: d in order ==> !d.mark
    ensures forall d :: d in all && d.mark ==> old(d.mark)
  {
    ghost var k;
    queue, n, order, k := FillQueue(all, dso, g);
    queue[n] := null;
    ClearQueue(queue, n, order);
    EndsInCtorQueue(g, dso, k, order);
  }

  /** Closure and queue, one after the other for any object: the marks that each needs clear are clear. */
  method Load(all: seq<Dso>, dso: Dso, ghost g: map<Dso, seq<Dso>>) returns (queue: array<Dso?>, n: nat, ghost order: seq<Dso>)
    requires Represents(all, g) && dso in all && MarksAre(all, {})
    requires if dso.bfsBuilt then BfsClosure(g, dso, dso.deps) else dso.deps == g[dso]
    modifies dso`deps, dso`bfsBuilt, all`mark, all`nextDep
    ensures Represents(all, g) && MarksAre(all, {}) && dso.bfsBuilt && BfsClosure(g, dso, dso.deps)
    ensures fresh(queue) && n == |order| < queue.Length && queue[n] == null && forall i :: 0 <= i < n ==> queue[i] == order[i]
    ensures CtorQueue(g, dso, order)
  {
    ExtendBfsDeps(all, dso, g);
    queue, n, order := QueueCtors(all, dso, g);
  }

  method ClearQueue(queue: array<Dso?>, n: nat, ghost order: seq<Dso>)
    requires n == |order| <= queue.Length && forall i :: 0 <= i < n ==> queue[i] == order[i]
    modifies order`mark
    ensures forall d :: d in order ==> !d.mark
  {
    var i := 0;
    while i < n
      invariant i <= n && forall k :: 0 <= k < i ==> !order[k].mark
    {
      queue[i].mark := false;
      i := i + 1;
    }
  }
}

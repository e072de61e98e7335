/** Intrusive circular lists and the priority ready queues built on them
    (ukern/inc/list.h:98-157, ukern/src/sched2.c:7-24, 82-126, ukern/src/proc.c:197-203). */
module ReadyQueue {
  import opened Words
  import opened Bitmap

  datatype Ptr = Null | Poison | At(node: Node)

  /** A list head, or the list link embedded in a process of priority prio. */
  class Node {
    var next: Ptr
    var prev: Ptr
    var prio: nat

    constructor (p: nat)
      ensures next == Null && prev == Null && prio == p
    {
      next, prev, prio := Null, Null, p;
    }
  }

  // ---- Rings ----

  function Succ(n: nat, i: nat): (j: nat) { if i + 1 < n then i + 1 else 0 }
  function Pred(n: nat, i: nat): (j: nat) requires n > 0 { if i == 0 then n - 1 else i - 1 }

  ghost predicate Distinct(r: seq<Node>) {
    forall i, j :: 0 <= i < j < |r| ==> r[i] != r[j]
  }

  /** r[0] is the list head, the others its entries in order; each points to its neighbours, circularly. */
  ghost predicate Ring(r: seq<Node>)
    reads r
  {
    && |r| > 0 && Distinct(r)
    && (forall i :: 0 <= i < |r| ==> NextOk(r, i))
    && (forall i :: 0 <= i < |r| ==> PrevOk(r, i))
  }

  ghost predicate NextOk(r: seq<Node>, i: nat)
    requires i < |r|
    reads r
  {
    r[i].next == At(r[Succ(|r|, i)])
  }

  ghost predicate PrevOk(r: seq<Node>, i: nat)
    requires i < |r|
    reads r
  {
    r[i].prev == At(r[Pred(|r|, i)])
  }

  /** The ring with x put in after position k, by positions. */
  lemma InsertAt(r: seq<Node>, x: Node, k: nat)
    requires k < |r| && x !in r && Distinct(r)
    ensures var q := r[..k + 1] + [x] + r[k + 1..];
      && |q| == |r| + 1 && Distinct(q) && q[k + 1] == x
      && (forall i :: 0 <= i <= k ==> q[i] == r[i])
      && (forall i :: k + 1 < i < |q| ==> q[i] == r[i - 1])
  {
  }

  /** The ring without position k, by positions. */
  lemma RemoveAt(r: seq<Node>, k: nat)
    requires 0 < k < |r| && Distinct(r)
    ensures var q := r[..k] + r[k + 1..];
      && |q| == |r| - 1 && Distinct(q) && r[k] !in q
      && (forall i :: 0 <= i < k ==> q[i] == r[i])
      && (forall i :: k <= i < |q| ==> q[i] == r[i + 1])
  {
  }

  method InitListHead(list: Node)
    modifies list
    ensures Ring([list]) && list.prio == old(list.prio)
  {
    list.next := At(list);
    list.prev := At(list);
  }

  /** __list_add between two neighbours of a ring: r[k] and its successor. */
  method ListInsert(new': Node, prev: Node, next: Node, ghost r: seq<Node>, ghost k: nat)
    requires Ring(r) && k < |r| && prev == r[k] && next == r[Succ(|r|, k)] && new' !in r
    modifies new'`next, new'`prev, prev`next, next`prev
    ensures Ring(r[..k + 1] + [new'] + r[k + 1..])
  {
    assert NextOk(r, k);
    next.prev := At(new');
    new'.next := At(next);
    new'.prev := At(prev);
    prev.next := At(new');
    ghost var q := r[..k + 1] + [new'] + r[k + 1..];
    InsertAt(r, new', k);
    forall i | 0 <= i < |q| ensures NextOk(q, i) {
      if i < k { assert old(NextOk(r, i)); }
      if i > k + 1 { assert old(NextOk(r, i - 1)); }
    }
    forall i | 0 <= i < |q| ensures PrevOk(q, i) {
      if i <= k { assert old(PrevOk(r, i)); }
      if i > k + 1 { assert old(PrevOk(r, i - 1)); }
    }
  }

  /** list_add: after the head. */
  method ListAdd(new': Node, head: Node, ghost r: seq<Node>)
    requires Ring(r) && head == r[0] && new' !in r
    modifies new'`next, new'`prev, head`next, r`prev
    ensures Ring([head, new'] + r[1..])
  {
    assert NextOk(r, 0);
    ListInsert(new', head, head.next.node, r, 0);
    assert r[..1] + [new'] + r[1..] == [head, new'] + r[1..];
  }

  /** list_add_tail: before the head, so at the end. */
  method ListAddTail(new': Node, head: Node, ghost r: seq<Node>)
    requires Ring(r) && head == r[0] && new' !in r
    modifies new'`next, new'`prev, head`prev, r`next
    ensures Ring(r + [new'])
  {
    ghost var n := |r| - 1;
    assert PrevOk(r, 0);
    ListInsert(new', head.prev.node, head, r, n);
    assert r[..n + 1] + [new'] + r[n + 1..] == r + [new'];
  }

  /** list_del: the neighbours of entry k close up; the entry is left poisoned. */
  method ListDel(entry: Node, ghost r: seq<Node>, ghost k: nat)
    requires Ring(r) && 0 < k < |r| && entry == r[k]
    modifies r`next, r`prev
    ensures Ring(r[..k] + r[k + 1..]) && entry.next == entry.prev == Poison
  {
    assert NextOk(r, k) && PrevOk(r, k);
    var prev, next := entry.prev.node, entry.next.node;
    next.prev := At(prev);
    prev.next := At(next);
    entry.next := Poison;
    entry.prev := Poison;
    ghost var q := r[..k] + r[k + 1..];
    RemoveAt(r, k);
    forall i | 0 <= i < |q| ensures NextOk(q, i) {
      if i < k { assert old(NextOk(r, i)); } else { assert old(NextOk(r, i + 1)); }
    }
    forall i | 0 <= i < |q| ensures PrevOk(q, i) {
      if i < k { assert old(PrevOk(r, i)); } else { assert old(PrevOk(r, i + 1)); }
    }
  }

  // ---- The lowest set bit of a byte ----

  /** ffs_one_table, whose rows of 16 entries differ only in their first. */
  function FfsOne(x: nat): (r: int)
    requires x < 256
  {
    if x % 16 == 0 then [-1, 4, 5, 4, 6, 4, 5, 4, 7, 4, 5, 4, 6, 4, 5, 4][x / 16]
    else [0, 0, 1, 0, 2, 0, 1, 0, 3, 0, 1, 0, 2, 0, 1, 0][x % 16]
  }

  lemma CtzSmall(y: nat)
    requires 0 < y < 16
    ensures Ctz(y) == [0, 0, 1, 0, 2, 0, 1, 0, 3, 0, 1, 0, 2, 0, 1, 0][y]
  {
    var a, b, c := y / 2, y / 4, y / 8;
    assert Ctz(c) == if c % 2 == 1 then 0 else 64;
    assert Ctz(b) == if b == 0 then 64 else if b % 2 == 1 then 0 else 1 + Ctz(c);
    assert Ctz(a) == if a == 0 then 64 else if a % 2 == 1 then 0 else 1 + Ctz(b);
  }

  lemma {:induction false} CtzLowBits(x: nat, n: nat)
    requires x > 0 && LowBitsOf(x, n) != 0
    ensures Ctz(x) == Ctz(LowBitsOf(x, n))
  {
    if x % 2 == 0 {
      var y := LowBitsOf(x / 2, n - 1);
      assert LowBitsOf(x, n) == 2 * y;
      CtzLowBits(x / 2, n - 1);
      CtzDouble(y);
      CtzDouble(x / 2);
    }
  }

  lemma CtzDouble(y: nat)
    requires y > 0
    ensures Ctz(2 * y) == 1 + Ctz(y)
  {
    assert 2 * y / 2 == y;
  }

  lemma FfsLow(x: nat)
    requires x < 256 && x % 16 != 0
    ensures FfsOne(x) == Ctz(x)
  {
    assert LowBitsOf(x, 4) == x % 16 by {
      LowBitsMod(x, 4);
      assert Pow2(4) == 16;
    }
    CtzLowBits(x, 4);
    CtzSmall(x % 16);
  }

  lemma FfsHigh(x: nat)
    requires 0 < x < 256 && x % 16 == 0
    ensures FfsOne(x) == Ctz(x)
  {
    var y := x / 16;
    CtzSixteen(y);
    CtzSmall(y);
    HighRow(y);
  }

  lemma CtzSixteen(y: nat)
    requires y > 0
    ensures Ctz(16 * y) == 4 + Ctz(y)
  {
    CtzDouble(y);
    CtzDouble(2 * y);
    CtzDouble(4 * y);
    CtzDouble(8 * y);
  }

  lemma HighRow(y: nat)
    requires 0 < y < 16
    ensures [-1, 4, 5, 4, 6, 4, 5, 4, 7, 4, 5, 4, 6, 4, 5, 4][y] == 4 + [0, 0, 1, 0, 2, 0, 1, 0, 3, 0, 1, 0, 2, 0, 1, 0][y]
  {
  }

  /** The table holds the index of the lowest set bit. */
  lemma FfsIsLowest(x: nat)
    requires x < 256
    ensures x == 0 ==> FfsOne(x) == -1
    ensures x > 0 ==> FfsOne(x) == Ctz(x)
  {
    if x % 16 != 0 {
      FfsLow(x);
    } else if x > 0 {
      FfsHigh(x);
    }
  }

  // ---- The ready queues ----

  ghost predicate Apart(rings: seq<seq<Node>>) {
    forall i, j, k, m :: 0 <= i < j < |rings| && 0 <= k < |rings[i]| && 0 <= m < |rings[j]| ==> rings[i][k] != rings[j][m]
  }

  ghost function NodesOf(rings: seq<seq<Node>>): (s: set<Node>) {
    set i, k | 0 <= i < |rings| && 0 <= k < |rings[i]| :: rings[i][k]
  }

  ghost predicate HeadsOk(rings: seq<seq<Node>>, heads: seq<Node>) {
    |rings| == |heads| == 8 && forall i :: 0 <= i < 8 ==> rings[i] != [] && rings[i][0] == heads[i]
  }

  /** Bit i of the summary is set exactly when list i has entries. */
  ghost predicate Summarizes(grp: nat, rings: seq<seq<Node>>) {
    grp < 256 && forall i: nat :: i < |rings| ==> (Bit(grp, i) <==> |rings[i]| > 1)
  }

  lemma SummaryAdd(grp: nat, rings: seq<seq<Node>>, rings': seq<seq<Node>>, b: nat)
    requires Summarizes(grp, rings) && b < 8 == |rings| == |rings'|
    requires |rings'[b]| > 1 && forall i :: 0 <= i < 8 && i != b ==> rings'[i] == rings[i]
    ensures Summarizes(BitOr(grp, Pow2(b)), rings')
  {
    OrBit(grp, b);
    assert Pow2(8) == 256;
    Pow2Mono(b, 8);
    if b == 8 { } else { Pow2Mono(b + 1, 8); }
    BitOrBelow(grp, Pow2(b), 8);
  }

  lemma SummaryDrop(grp: nat, rings: seq<seq<Node>>, rings': seq<seq<Node>>, b: nat)
    requires Summarizes(grp, rings) && b < 8 == |rings| == |rings'|
    requires |rings'[b]| <= 1 && forall i :: 0 <= i < 8 && i != b ==> rings'[i] == rings[i]
    ensures Summarizes(BitAnd(grp, NotBit(b)), rings')
  {
    AndNotBit(grp, b);
    BitAndComm(grp, NotBit(b));
    BitAndAtMost(NotBit(b), grp);
  }

  /** The lowest set bit of the summary is the first non-empty list. */
  lemma LowestList(grp: nat, rings: seq<seq<Node>>)
    requires Summarizes(grp, rings) && |rings| == 8 && grp != 0
    ensures var b := FfsOne(grp);
      0 <= b < 8 && |rings[b]| > 1 && forall i :: 0 <= i < b ==> |rings[i]| <= 1
  {
    FfsIsLowest(grp);
    assert Pow2(8) == 256;
    CtzBits(grp, 8);
  }

  ghost predicate AllRings(rings: seq<seq<Node>>)
    reads NodesOf(rings)
  {
    forall i :: 0 <= i < |rings| ==> Ring(rings[i])
  }

  ghost predicate PriosOk(rings: seq<seq<Node>>)
    reads NodesOf(rings)
  {
    forall i, k :: 0 <= i < |rings| && 1 <= k < |rings[i]| ==> rings[i][k].prio == i
  }

  lemma InNodes(rings: seq<seq<Node>>, b: nat)
    requires b < |rings|
    ensures forall k :: 0 <= k < |rings[b]| ==> rings[b][k] in NodesOf(rings)
  {
  }

  lemma ApartAdd(rings: seq<seq<Node>>, b: nat, x: Node)
    requires Apart(rings) && b < |rings| && x !in NodesOf(rings)
    ensures Apart(rings[b := rings[b] + [x]])
    ensures NodesOf(rings[b := rings[b] + [x]]) == NodesOf(rings) + {x}
  {
    var q := rings[b := rings[b] + [x]];
    forall i, k | 0 <= i < |rings| && 0 <= k < |rings[i]| ensures rings[i][k] != x && rings[i][k] in NodesOf(q) {
      assert q[i][k] == rings[i][k];
    }
    assert q[b][|rings[b]|] == x;
    forall n | n in NodesOf(q) ensures n in NodesOf(rings) + {x} {
      var i, k :| 0 <= i < |q| && 0 <= k < |q[i]| && q[i][k] == n;
      if i == b && k == |rings[b]| {
      } else {
        assert rings[i][k] == n;
      }
    }
  }

  /** list_add_tail on one of several lists leaves the others alone. */
  method AppendTo(proc: Node, head: Node, ghost rings: seq<seq<Node>>, ghost b: nat)
    requires AllRings(rings) && PriosOk(rings) && Apart(rings) && b < |rings| && rings[b] != [] && head == rings[b][0]
    requires proc !in NodesOf(rings) && proc.prio == b
    modifies proc`next, proc`prev, NodesOf(rings)`next, NodesOf(rings)`prev
    ensures AllRings(rings[b := rings[b] + [proc]]) && PriosOk(rings[b := rings[b] + [proc]])
  {
    InNodes(rings, b);
    ListAddTail(proc, head, rings[b]);
    ghost var q := rings[b := rings[b] + [proc]];
    forall i | 0 <= i < |q| ensures Ring(q[i]) {
      if i != b {
        forall k | 0 <= k < |rings[i]| ensures NextOk(rings[i], k) && PrevOk(rings[i], k) {
          assert old(NextOk(rings[i], k)) && old(PrevOk(rings[i], k));
        }
      }
    }
  }

  ghost function Without(r: seq<Node>, k: nat): (q: seq<Node>)
    requires k < |r|
  {
    r[..k] + r[k + 1..]
  }

  lemma ApartDrop(rings: seq<seq<Node>>, b: nat, k: nat)
    requires Apart(rings) && b < |rings| && 0 < k < |rings[b]| && Distinct(rings[b])
    ensures var q := rings[b := Without(rings[b], k)];
      Apart(q) && rings[b][k] !in NodesOf(q) && NodesOf(q) <= NodesOf(rings)
  {
    var q := rings[b := Without(rings[b], k)];
    RemoveAt(rings[b], k);
    forall i, m | 0 <= i < |q| && 0 <= m < |q[i]| ensures q[i][m] in NodesOf(rings) && q[i][m] != rings[b][k] {
      if i == b {
        assert q[i][m] == rings[b][if m < k then m else m + 1];
      } else {
        assert q[i][m] == rings[i][m];
      }
    }
    forall i, j, m, n | 0 <= i < j < |q| && 0 <= m < |q[i]| && 0 <= n < |q[j]| ensures q[i][m] != q[j][n] {
      assert i == b ==> q[i][m] == rings[b][if m < k then m else m + 1];
      assert j == b ==> q[j][n] == rings[b][if n < k then n else n + 1];
    }
  }

  /** list_del on one of several lists leaves the others alone. */
  method DeleteFrom(proc: Node, ghost rings: seq<seq<Node>>, ghost b: nat, ghost k: nat)
    requires AllRings(rings) && PriosOk(rings) && Apart(rings) && b < |rings| && 0 < k < |rings[b]| && proc == rings[b][k]
    modifies NodesOf(rings)`next, NodesOf(rings)`prev
    ensures AllRings(rings[b := Without(rings[b], k)]) && PriosOk(rings[b := Without(rings[b], k)])
    ensures proc.next == proc.prev == Poison
    ensures var q := rings[b := Without(rings[b], k)]; Apart(q) && proc !in NodesOf(q) && NodesOf(q) <= NodesOf(rings)
  {
    InNodes(rings, b);
    assert Ring(rings[b]);
    ApartDrop(rings, b, k);
    ListDel(proc, rings[b], k);
    ghost var q := rings[b := Without(rings[b], k)];
    RemoveAt(rings[b], k);
    forall i | 0 <= i < |q| ensures Ring(q[i]) {
      if i != b {
        forall m | 0 <= m < |rings[i]| ensures NextOk(rings[i], m) && PrevOk(rings[i], m) {
          assert old(NextOk(rings[i], m)) && old(PrevOk(rings[i], m));
        }
      }
    }
  }

  class Cpu {
    var grp: nat                      // local_rdy_grp
    var heads: seq<Node>              // ready_list
    ghost var rings: seq<seq<Node>>   // each head with its entries

    ghost predicate Valid()
      reads this, NodesOf(rings)
    {
      HeadsOk(rings, heads) && Apart(rings) && Summarizes(grp, rings) && AllRings(rings) && PriosOk(rings)
    }

    /** Eight initialised list heads make a processor without ready processes. */
    constructor (hs: seq<Node>)
      requires |hs| == 8 && Distinct(hs) && forall i :: 0 <= i < 8 ==> Ring([hs[i]])
      ensures Valid() && heads == hs && rings == seq(8, i requires 0 <= i < 8 => [hs[i]])
    {
      grp, heads, rings := 0, hs, seq(8, i requires 0 <= i < 8 => [hs[i]]);
      new;
      forall i: nat | i < 8 ensures !Bit(grp, i) { QuotZero(0, Pow2(i)); }
    }

    /** add_proc_to_ready_list: the process goes to the end of the list of its priority. */
    method Add(proc: Node)
      requires Valid() && proc.prio < 8 && proc !in NodesOf(rings) && proc.next == Null
      modifies this`grp, this`rings, NodesOf(rings)`next, NodesOf(rings)`prev, proc`next, proc`prev
      ensures Valid() && rings == old(rings)[proc.prio := old(rings)[proc.prio] + [proc]]
    {
      Ready(proc);
    }

    /** proc_ready: the same without the check that the process is on no list. */
    method Ready(proc: Node)
      requires Valid() && proc.prio < 8 && proc !in NodesOf(rings)
      modifies this`grp, this`rings, NodesOf(rings)`next, NodesOf(rings)`prev, proc`next, proc`prev
      ensures Valid() && rings == old(rings)[proc.prio := old(rings)[proc.prio] + [proc]]
    {
      var b := proc.prio;
      ghost var q := rings[b := rings[b] + [proc]];
      ApartAdd(rings, b, proc);
      SummaryAdd(grp, rings, q, b);
      AppendTo(proc, heads[b], rings, b);
      grp := BitOr(grp, Pow2(b));
      rings := q;
    }

    /** rm_proc_from_ready_list: process k of its list leaves it, poisoned; an emptied list loses its bit. */
    method Remove(proc: Node, ghost k: nat)
      requires Valid() && proc.prio < 8 && 0 < k < |rings[proc.prio]| && rings[proc.prio][k] == proc
      modifies this`grp, this`rings, NodesOf(rings)`next, NodesOf(rings)`prev
      ensures Valid() == true && rings == old(rings)[proc.prio := Without(old(rings)[proc.prio], k)]
      ensures proc.next == Poison && proc !in NodesOf(rings)
    {
      var b := proc.prio;
      ghost var q := rings[b := Without(rings[b], k)];
      DeleteFrom(proc, rings, b, k);
      SummaryRemove(grp, rings, q, b);
      EmptyRing(q[b]);
      if heads[b].next == At(heads[b]) {
        grp := BitAnd(grp, NotBit(b));
      }
      rings := q;
    }

    /** pick_next: the front process of the first non-empty list, which moves to that list's end. */
    method PickNext() returns (np: Node, ghost b: nat)
      requires Valid() && grp != 0
      modifies this`rings, NodesOf(rings)`next, NodesOf(rings)`prev
      ensures Valid() && b < 8 && |old(rings)[b]| > 1 && np == old(rings)[b][1]
      ensures forall i :: 0 <= i < b ==> |old(rings)[i]| == 1
      ensures rings == old(rings)[b := Without(old(rings)[b], 1) + [np]]
    {
      LowestList(grp, rings);
      var prio := FfsOne(grp);
      b := prio;
      assert Ring(rings[b]) && NextOk(rings[b], 0);
      np := heads[prio].next.node;
      RotateFront(np, heads[prio], rings, b);
      ghost var q := rings[b := Without(rings[b], 1) + [np]];
      SummaryKeep(grp, rings, q, b);
      rings := q;
    }
  }

  /** A head that points to itself has no entries. */
  lemma EmptyRing(r: seq<Node>)
    requires Ring(r)
    ensures r[0].next == At(r[0]) <==> |r| == 1
  {
    assert NextOk(r, 0);
  }

  lemma SummaryKeep(grp: nat, rings: seq<seq<Node>>, rings': seq<seq<Node>>, b: nat)
    requires Summarizes(grp, rings) && b < 8 == |rings| == |rings'|
    requires |rings[b]| > 1 && |rings'[b]| > 1 && forall i :: 0 <= i < 8 && i != b ==> rings'[i] == rings[i]
    ensures Summarizes(grp, rings')
  {
  }

  lemma SummaryRemove(grp: nat, rings: seq<seq<Node>>, rings': seq<seq<Node>>, b: nat)
    requires Summarizes(grp, rings) && b < 8 == |rings| == |rings'|
    requires |rings[b]| > 1 && |rings'[b]| == |rings[b]| - 1 && forall i :: 0 <= i < 8 && i != b ==> rings'[i] == rings[i]
    ensures Summarizes(if |rings'[b]| == 1 then BitAnd(grp, NotBit(b)) else grp, rings')
  {
    if |rings'[b]| == 1 {
      SummaryDrop(grp, rings, rings', b);
    } else {
      SummaryKeep(grp, rings, rings', b);
    }
  }

  /** Takes the first entry off a list and puts it back at the end. */
  method RotateFront(np: Node, head: Node, ghost rings: seq<seq<Node>>, ghost b: nat)
    requires AllRings(rings) && PriosOk(rings) && Apart(rings) && b < |rings| && |rings[b]| > 1
    requires head == rings[b][0] && np == rings[b][1]
    modifies NodesOf(rings)`next, NodesOf(rings)`prev
    ensures var q := rings[b := Without(rings[b], 1) + [np]];
      AllRings(q) && PriosOk(q) && Apart(q) && NodesOf(q) <= NodesOf(rings)
  {
    assert Ring(rings[b]);
    ghost var q := rings[b := Without(rings[b], 1)];
    InNodes(rings, b);
    DeleteFrom(np, rings, b, 1);
    ApartAdd(q, b, np);
    AppendTo(np, head, q, b);
    assert q[b := q[b] + [np]] == rings[b := Without(rings[b], 1) + [np]];
  }

  // ---- Fairness ----

  /** q turned left k times. */
  ghost function Turned(q: seq<Node>, k: nat): (r: seq<Node>)
    requires q != []
  {
    q[k % |q|..] + q[..k % |q|]
  }

  lemma TurnOnce(q: seq<Node>, k: nat)
    requires q != []
    ensures Turned(q, k)[0] == q[k % |q|]
    ensures Turned(q, k)[1..] + [q[k % |q|]] == Turned(q, k + 1)
  {
    var n, m := |q|, k % |q|;
    if m + 1 < n {
      ModUnique(k + 1, n, k / n, m + 1);
    } else {
      NextMultiple(k, n);
    }
  }

  lemma NextMultiple(k: nat, n: nat)
    requires n > 0 && k % n == n - 1
    ensures (k + 1) % n == 0
  {
    var q := k / n;
    assert k == n * q + (n - 1);
    assert n * (q + 1) == n * q + n;
    ModUnique(k + 1, n, q + 1, 0);
  }

  /** A process that was taken off its list does not pass the check of add_proc_to_ready_list; proc_ready, which
      has none, puts it back at the end. */
  method TakenOff(cpu: Cpu, proc: Node, ghost k: nat) returns (refused: bool)
    requires cpu.Valid() && proc.prio < 8 && 0 < k < |cpu.rings[proc.prio]| && cpu.rings[proc.prio][k] == proc
    modifies cpu`grp, cpu`rings, NodesOf(cpu.rings)`next, NodesOf(cpu.rings)`prev
    ensures refused && cpu.Valid() == true
    ensures cpu.rings == old(cpu.rings)[proc.prio := Without(old(cpu.rings)[proc.prio], k) + [proc]]
  {
    cpu.Remove(proc, k);
    refused := proc.next != Null;
    WithoutNodes(old(cpu.rings), proc.prio, k);
    cpu.Ready(proc);
  }

  lemma WithoutNodes(rings: seq<seq<Node>>, b: nat, k: nat)
    requires b < |rings| && k < |rings[b]|
    ensures NodesOf(rings[b := Without(rings[b], k)]) <= NodesOf(rings) && rings[b][k] in NodesOf(rings)
  {
    var q := rings[b := Without(rings[b], k)];
    forall x | x in NodesOf(q) ensures x in NodesOf(rings) {
      var i, j :| 0 <= i < |q| && 0 <= j < |q[i]| && q[i][j] == x;
      if i == b {
        assert x == rings[b][if j < k then j else j + 1];
      }
    }
  }

  /** k picks in a row serve the processes of the first non-empty list in turn; after as many picks as
      there are processes, each has been picked once and the list is as it was. */
  method PickMany(cpu: Cpu, k: nat, ghost b: nat, ghost q: seq<Node>) returns (picked: seq<Node>)
    requires cpu.Valid() && b < 8 && q != [] && cpu.rings[b] == [cpu.heads[b]] + q
    requires forall i :: 0 <= i < b ==> |cpu.rings[i]| == 1
    modifies cpu`rings, NodesOf(cpu.rings)`next, NodesOf(cpu.rings)`prev
    ensures cpu.Valid() && picked == Served(q, k)
    ensures cpu.rings == old(cpu.rings)[b := [cpu.heads[b]] + Turned(q, k)]
    ensures k == |q| ==> picked == q && cpu.rings == old(cpu.rings)
  {
    picked := [];
    TurnedFull(q);
    for i := 0 to k
      invariant cpu.Valid() == true && NodesOf(cpu.rings) <= old(NodesOf(cpu.rings))
      invariant picked == Served(q, i) && cpu.rings == old(cpu.rings)[b := [cpu.heads[b]] + Turned(q, i)]
    {
      var np := PickTurn(cpu, b, q, old(cpu.rings), i);
      picked := picked + [np];
    }
    ServedOnce(q, |q|);
  }

  /** Pick number k of the rings that started as rings0. */
  method PickTurn(cpu: Cpu, ghost b: nat, ghost q: seq<Node>, ghost rings0: seq<seq<Node>>, ghost k: nat) returns (np: Node)
    requires cpu.Valid() && b < 8 && |rings0| == 8 && q != [] && cpu.rings == rings0[b := [cpu.heads[b]] + Turned(q, k)]
    requires forall i :: 0 <= i < b ==> |rings0[i]| == 1
    modifies cpu`rings, NodesOf(cpu.rings)`next, NodesOf(cpu.rings)`prev
    ensures cpu.Valid() == true && np == q[k % |q|] && NodesOf(cpu.rings) <= old(NodesOf(cpu.rings))
    ensures cpu.rings == rings0[b := [cpu.heads[b]] + Turned(q, k + 1)]
  {
    TurnRing(rings0, b, cpu.heads[b], q, k);
    np := PickOne(cpu, b);
  }

  lemma TurnedFull(q: seq<Node>)
    requires q != []
    ensures Turned(q, 0) == q && Turned(q, |q|) == q
  {
    ModUnique(0, |q|, 0, 0);
    ModUnique(|q|, |q|, 1, 0);
  }

  /** Serving q in turn, k times. */
  ghost function Served(q: seq<Node>, k: nat): (p: seq<Node>)
    requires q != []
    ensures |p| == k
  {
    if k == 0 then [] else Served(q, k - 1) + [q[(k - 1) % |q|]]
  }

  lemma {:induction false} ServedOnce(q: seq<Node>, k: nat)
    requires q != [] && k <= |q|
    ensures Served(q, k) == q[..k]
  {
    if k > 0 {
      ServedOnce(q, k - 1);
      ModUnique(k - 1, |q|, 0, k - 1);
    }
  }

  /** A pick turns the ring of the list once. */
  lemma TurnRing(rings: seq<seq<Node>>, b: nat, head: Node, q: seq<Node>, k: nat)
    requires b < |rings| && q != []
    ensures var r := rings[b := [head] + Turned(q, k)];
      && r[b][1] == q[k % |q|]
      && r[b := Without(r[b], 1) + [r[b][1]]] == rings[b := [head] + Turned(q, k + 1)]
  {
    TurnOnce(q, k);
    var r := [head] + Turned(q, k);
    assert Without(r, 1) + [r[1]] == [head] + Turned(q, k + 1);
  }

  method PickOne(cpu: Cpu, ghost b: nat) returns (np: Node)
    requires cpu.Valid() && b < 8 && |cpu.rings[b]| > 1 && forall i :: 0 <= i < b ==> |cpu.rings[i]| == 1
    modifies cpu`rings, NodesOf(cpu.rings)`next, NodesOf(cpu.rings)`prev
    ensures cpu.Valid() && np == old(cpu.rings)[b][1] && NodesOf(cpu.rings) <= old(NodesOf(cpu.rings))
    ensures cpu.rings == old(cpu.rings)[b := Without(old(cpu.rings)[b], 1) + [np]]
  {
    assert cpu.grp != 0 by {
      if cpu.grp == 0 { QuotZero(0, Pow2(b)); }
    }
    ghost var c;
    np, c := cpu.PickNext();
    RotatedNodes(old(cpu.rings), c);
  }

  lemma RotatedNodes(rings: seq<seq<Node>>, b: nat)
    requires b < |rings| && |rings[b]| > 1
    ensures NodesOf(rings[b := Without(rings[b], 1) + [rings[b][1]]]) <= NodesOf(rings)
  {
    var q := rings[b := Without(rings[b], 1) + [rings[b][1]]];
    forall n | n in NodesOf(q) ensures n in NodesOf(rings) {
      var i, k :| 0 <= i < |q| && 0 <= k < |q[i]| && q[i][k] == n;
      if i == b {
        assert n == rings[b][if k == 0 then 0 else if k == |q[b]| - 1 then 1 else k + 1];
      } else {
        assert n == rings[i][k];
      }
    }
  }
}

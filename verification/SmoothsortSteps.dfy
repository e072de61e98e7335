/** The sort as a function on sequences: building the forest, draining it, and why that sorts. */
module SmoothsortSteps {
  import opened LeonardoHeaps
  import opened LeonardoForests

  /** While building: the rightmost root is still unplaced, every other tree is a heap, and
      roots that can no longer be merged are in order. */
  ghost predicate Building<T>(s: seq<T>, cmp: (T, T) -> int, head: int, ks: Forest, high: int) {
    && 0 <= head <= high < |s| && Shape(ks) && Covers(s, head, ks)
    && ChildHeaps(s, cmp, head, ks.order)
    && ForestHeap(s, cmp, head - L(ks.order), ks.left)
    && FinalSorted(s, cmp, head - L(ks.order), ks.left, high)
  }

  /** Every position above head is at least everything at or before it. */
  ghost predicate Settled<T>(s: seq<T>, cmp: (T, T) -> int, head: int) {
    forall i, j :: 0 <= i <= j < |s| && head < j ==> cmp(s[i], s[j]) <= 0
  }

  /** While draining: a sorted forest of heaps up to head, a sorted and larger rest above it. */
  ghost predicate Draining<T>(s: seq<T>, cmp: (T, T) -> int, head: int, ks: Forest) {
    && Shape(ks) && Covers(s, head, ks)
    && ForestHeap(s, cmp, head, ks) && RootsSorted(s, cmp, head, ks)
    && Settled(s, cmp, head)
  }

  predicate Paired(ks: Forest) {
    Several(ks) && ks.left.order == ks.order + 1
  }

  // ---- Building ----

  lemma BuildMerge<T(!new)>(s: seq<T>, cmp: (T, T) -> int, head: int, ks: Forest, high: int)
    requires TotalPreorder(cmp) && Building(s, cmp, head, ks, high) && head < high && Paired(ks)
    ensures Building(Sifted(s, cmp, head, ks.order, s[head]), cmp, head + 1, Tree(ks.order + 2, ks.left.left), high)
  {
    var r := Sifted(s, cmp, head, ks.order, s[head]);
    SiftedHeap(s, cmp, head, ks.order, s[head]);
    SiftedFrame(s, cmp, head, ks.order, s[head]);
    MergeFrame(s, r, cmp, head, ks, high);
  }

  lemma MergeFrame<T>(s: seq<T>, r: seq<T>, cmp: (T, T) -> int, head: int, ks: Forest, high: int)
    requires Building(s, cmp, head, ks, high) && head < high && Paired(ks)
    requires |r| == |s| && Agree(s, r, 0, head + 1 - L(ks.order)) && Heap(r, cmp, head, ks.order)
    ensures Building(r, cmp, head + 1, Tree(ks.order + 2, ks.left.left), high)
  {
    var k, t := ks.order, ks.left;
    var mid := head - L(k);
    TailFrame(s, r, cmp, mid, t, high);
    MergeAssemble(r, cmp, head, k, t, high);
  }

  lemma MergeAssemble<T>(s: seq<T>, cmp: (T, T) -> int, head: int, k: nat, t: Forest, high: int)
    requires 0 <= head < high < |s| && t.Tree? && t.order == k + 1 && Spaced(t)
    requires Covers(s, head - L(k), t)
    requires Heap(s, cmp, head, k)
    requires ForestHeap(s, cmp, head - L(k), t)
    requires FinalSorted(s, cmp, head - L(k), t, high)
    ensures Building(s, cmp, head + 1, Tree(k + 2, t.left), high)
  {
    assert L(k + 2) == L(k + 1) + L(k) + 1;
    assert Left(head + 1, k + 2) == head - L(k) && Right(head + 1) == head;
  }

  lemma TailFrame<T>(s: seq<T>, r: seq<T>, cmp: (T, T) -> int, h: int, t: Forest, high: int)
    requires Covers(s, h, t) && Spaced(t) && |r| == |s| && Agree(s, r, 0, h + 1)
    requires ForestHeap(s, cmp, h, t) && FinalSorted(s, cmp, h, t, high)
    ensures ForestHeap(r, cmp, h, t) && FinalSorted(r, cmp, h, t, high)
  {
    ForestFrame(s, r, cmp, h, t);
    FinalFrame(s, r, cmp, h, t, high);
  }

  /** The next element starts a new tree of one element to the right. */
  lemma Grow<T>(s: seq<T>, cmp: (T, T) -> int, head: int, ks: Forest, high: int, j: nat)
    requires 0 <= head < high < |s| && Covers(s, head, ks) && Spaced(ks) && ks.Tree?
    requires ForestHeap(s, cmp, head, ks) && FinalSorted(s, cmp, head, ks, high)
    requires j == if ks.order == 1 then 0 else 1
    ensures Building(s, cmp, head + 1, Tree(j, ks), high)
  {
    GrowShape(ks, j);
    assert L(j) == 1;
  }

  lemma GrowShape(ks: Forest, j: nat)
    requires Spaced(ks) && ks.Tree? && j == if ks.order == 1 then 0 else 1
    ensures Shape(Tree(j, ks)) && L(j) == 1
  {
  }

  /** A heap that may still be merged needs no order with its neighbour. */
  lemma BuildSift<T(!new)>(s: seq<T>, cmp: (T, T) -> int, head: int, ks: Forest, high: int, j: nat)
    requires TotalPreorder(cmp) && Building(s, cmp, head, ks, high) && head < high && !Paired(ks)
    requires ks.order >= 1 && !Final(head, ks.order, high) && j == (if ks.order == 1 then 0 else 1)
    ensures Building(Sifted(s, cmp, head, ks.order, s[head]), cmp, head + 1, Tree(j, ks), high)
  {
    var r := Sifted(s, cmp, head, ks.order, s[head]);
    SiftedHeap(s, cmp, head, ks.order, s[head]);
    SiftedFrame(s, cmp, head, ks.order, s[head]);
    SiftFrame(s, r, cmp, head, ks, high);
    Grow(r, cmp, head, ks, high, j);
  }

  lemma SiftFrame<T>(s: seq<T>, r: seq<T>, cmp: (T, T) -> int, head: int, ks: Forest, high: int)
    requires Building(s, cmp, head, ks, high) && Spaced(ks) && !Final(head, ks.order, high)
    requires |r| == |s| && Agree(s, r, 0, head + 1 - L(ks.order)) && Heap(r, cmp, head, ks.order)
    ensures ForestHeap(r, cmp, head, ks) && FinalSorted(r, cmp, head, ks, high)
  {
    ForestFrame(s, r, cmp, head - L(ks.order), ks.left);
    FinalFrame(s, r, cmp, head - L(ks.order), ks.left, high);
  }

  /** Left of a final tree, or of the last one, the roots are already in order. */
  lemma TailInOrder<T>(s: seq<T>, cmp: (T, T) -> int, head: int, ks: Forest, high: int)
    requires Building(s, cmp, head, ks, high)
    requires head == high || (!Paired(ks) && ks.order >= 1 && Final(head, ks.order, high))
    ensures TailSorted(s, cmp, head, ks)
  {
    if ks.left.Tree? {
      if head == high {
        LMono(ks.order, ks.left.order - 1);
      } else {
        FinalNext(head, ks.order, ks.left.order, high);
      }
      FinalIsSorted(s, cmp, head - L(ks.order), ks.left, high);
    }
  }

  lemma BuildTrinkle<T(!new)>(s: seq<T>, cmp: (T, T) -> int, head: int, ks: Forest, high: int, j: nat)
    requires TotalPreorder(cmp) && Building(s, cmp, head, ks, high) && head < high && !Paired(ks)
    requires ks.order >= 1 && Final(head, ks.order, high) && j == (if ks.order == 1 then 0 else 1)
    ensures Building(Trinkled(s, cmp, head, ks, s[head], false), cmp, head + 1, Tree(j, ks), high)
  {
    TailInOrder(s, cmp, head, ks, high);
    TrinkledForest(s, cmp, head, ks, s[head], false);
    var r := Trinkled(s, cmp, head, ks, s[head], false);
    SortedIsFinal(r, cmp, head, ks, high);
    Grow(r, cmp, head, ks, high, j);
  }

  /** After the last element the whole forest is put in order. */
  lemma BuildLast<T(!new)>(s: seq<T>, cmp: (T, T) -> int, head: int, ks: Forest)
    requires TotalPreorder(cmp) && Building(s, cmp, head, ks, head) && head == |s| - 1
    ensures Draining(Trinkled(s, cmp, head, ks, s[head], false), cmp, head, ks)
  {
    TailInOrder(s, cmp, head, ks, head);
    TrinkledForest(s, cmp, head, ks, s[head], false);
  }

  // ---- Draining ----

  lemma SettleHead<T(!new)>(s: seq<T>, cmp: (T, T) -> int, head: int, ks: Forest)
    requires TotalPreorder(cmp) && Draining(s, cmp, head, ks)
    ensures Settled(s, cmp, head - 1)
  {
    ForestMax(s, cmp, head, ks);
  }

  lemma DrainDrop<T(!new)>(s: seq<T>, cmp: (T, T) -> int, head: int, ks: Forest)
    requires TotalPreorder(cmp) && Draining(s, cmp, head, ks) && ks.order <= 1 && ks.left.Tree?
    ensures Draining(s, cmp, head - 1, ks.left)
  {
    SettleHead(s, cmp, head, ks);
  }

  lemma {:induction false} TrinkledSettled<T>(s: seq<T>, cmp: (T, T) -> int, h: int, ks: Forest, h': int, trusty: bool)
    requires ks.Tree? && Covers(s, h, ks) && h <= h' && Settled(s, cmp, h')
    ensures Settled(Trinkled(s, cmp, h, ks, s[h], trusty), cmp, h')
  {
    var r := Trinkled(s, cmp, h, ks, s[h], trusty);
    TrinkledFrame(s, cmp, h, ks, s[h], trusty);
    forall i, j | 0 <= i <= j < |r| && h' < j ensures cmp(r[i], r[j]) <= 0 {
      TrinkledAtMost(s, cmp, h, ks, s[h], trusty, s[j]);
    }
  }

  /** Trinkling the left subtree touches neither the right subtree nor what is settled. */
  lemma LeftKeeps<T>(s: seq<T>, cmp: (T, T) -> int, head: int, k: nat, f: Forest)
    requires k >= 2 && Fits(s, head, k) && f.Tree? && Covers(s, Left(head, k), f)
    requires Heap(s, cmp, head - 1, k - 2) && Settled(s, cmp, head - 1)
    ensures var r := Trinkled(s, cmp, Left(head, k), f, s[Left(head, k)], true);
      Heap(r, cmp, head - 1, k - 2) && Settled(r, cmp, head - 1)
  {
    var lf := Left(head, k);
    TrinkledFrame(s, cmp, lf, f, s[lf], true);
    HeapFrame(s, Trinkled(s, cmp, lf, f, s[lf], true), cmp, head - 1, k - 2);
    TrinkledSettled(s, cmp, lf, f, head - 1, true);
  }

  lemma LeftReady<T>(s: seq<T>, cmp: (T, T) -> int, head: int, ks: Forest)
    requires Draining(s, cmp, head, ks) && ks.order >= 2
    ensures var lf, f := Left(head, ks.order), Tree(ks.order - 1, ks.left);
      && Covers(s, lf, f)
      && ChildHeaps(s, cmp, lf, ks.order - 1) && AboveChildren(s, cmp, lf, ks.order - 1, s[lf])
      && TailSorted(s, cmp, lf, f)
      && Heap(s, cmp, head - 1, ks.order - 2)
  {
    assert L(ks.order) == L(ks.order - 1) + L(ks.order - 2) + 1;
    assert Covers(s, Left(head, ks.order), Tree(ks.order - 1, ks.left));
    assert Left(head, ks.order) - L(ks.order - 1) == head - L(ks.order);
    HeapParts(s, cmp, head, ks.order);
  }

  // ---- The whole sort on values ----

  /** The forest after the root at head is placed and the next element is taken in. */
  function Grown(ks: Forest): (r: Forest)
    requires Shape(ks)
    ensures Shape(r)
  {
    if Paired(ks) then Tree(ks.order + 2, ks.left.left)
    else Tree(if ks.order == 1 then 0 else 1, ks)
  }

  lemma GrownBase(ks: Forest, h: int)
    requires Shape(ks)
    ensures Base(Grown(ks), h + 1) == Base(ks, h)
  {
    if Paired(ks) {
      assert L(ks.order + 2) == L(ks.order + 1) + L(ks.order) + 1;
      assert Base(ks, h) == Base(ks.left, h - L(ks.order));
    } else {
      assert L(Grown(ks).order) == 1;
    }
  }

  /** The array after one round of the building loop. */
  function Placed<T>(s: seq<T>, cmp: (T, T) -> int, head: int, ks: Forest, high: int): (r: seq<T>)
    requires Shape(ks) && Covers(s, head, ks)
    ensures |r| == |s|
  {
    if !Paired(ks) && Final(head, ks.order, high) then Trinkled(s, cmp, head, ks, s[head], false)
    else Sifted(s, cmp, head, ks.order, s[head])
  }

  function Built<T>(s: seq<T>, cmp: (T, T) -> int, head: int, ks: Forest): (r: (seq<T>, Forest))
    requires Shape(ks) && Covers(s, head, ks)
    ensures |r.0| == |s| && Shape(r.1) && Covers(r.0, |s| - 1, r.1)
    decreases |s| - head
  {
    if head == |s| - 1 then (s, ks)
    else
      GrownBase(ks, head);
      Built(Placed(s, cmp, head, ks, |s| - 1), cmp, head + 1, Grown(ks))
  }

  /** The forest after the root of a tree of order 2 or more is removed. */
  function Split(ks: Forest): (r: Forest)
    requires Shape(ks) && ks.order >= 2
    ensures Shape(r)
  {
    Tree(ks.order - 2, Tree(ks.order - 1, ks.left))
  }

  lemma SplitBase(ks: Forest, h: int)
    requires Shape(ks) && ks.order >= 2
    ensures Base(Split(ks), h - 1) == Base(Split(ks).left, Left(h, ks.order)) == Base(ks, h)
  {
    assert L(ks.order) == L(ks.order - 1) + L(ks.order - 2) + 1;
  }

  /** The left subtree is trinkled into the forest first. */
  function SplitLeft<T>(s: seq<T>, cmp: (T, T) -> int, head: int, ks: Forest): (r: seq<T>)
    requires Shape(ks) && ks.order >= 2 && Covers(s, head, ks)
    ensures |r| == |s|
  {
    SplitBase(ks, head);
    Trinkled(s, cmp, Left(head, ks.order), Split(ks).left, s[Left(head, ks.order)], true)
  }

  /** Then the right subtree. */
  function SplitBoth<T>(s: seq<T>, cmp: (T, T) -> int, head: int, ks: Forest): (r: seq<T>)
    requires Shape(ks) && ks.order >= 2 && Covers(s, head, ks)
    ensures |r| == |s|
  {
    var t := SplitLeft(s, cmp, head, ks);
    SplitBase(ks, head);
    Trinkled(t, cmp, head - 1, Split(ks), t[head - 1], true)
  }

  /** One round of the draining loop: the array and the forest up to head - 1. */
  function Shrunk(ks: Forest): (r: Forest)
    requires Shape(ks) && ks != Tree(1, Empty)
    ensures Shape(r)
  {
    if ks.order <= 1 then ks.left else Split(ks)
  }

  lemma ShrunkBase(ks: Forest, h: int)
    requires Shape(ks) && ks != Tree(1, Empty)
    ensures Base(Shrunk(ks), h - 1) == Base(ks, h)
  {
    if ks.order >= 2 { SplitBase(ks, h); }
  }

  /** The building loop undoes what the draining loop does to the forest. */
  lemma GrownShrunk(ks: Forest)
    requires Shape(ks) && ks != Tree(1, Empty)
    ensures Grown(Shrunk(ks)) == ks
  {
  }

  /** The number of elements determines the forest, in both loops and in every run. */
  lemma {:induction false} OneForest(ks: Forest, ks': Forest, h: int)
    requires Shape(ks) && Shape(ks') && Base(ks, h) == Base(ks', h) == -1
    ensures ks == ks'
    decreases h
  {
    if ks == Tree(1, Empty) || ks' == Tree(1, Empty) {
      SmallForest(ks, h);
      SmallForest(ks', h);
    } else {
      ShrunkBase(ks, h);
      ShrunkBase(ks', h);
      BaseTotal(Shrunk(ks), h - 1);
      OneForest(Shrunk(ks), Shrunk(ks'), h - 1);
      GrownShrunk(ks);
      GrownShrunk(ks');
    }
  }

  lemma SmallForest(ks: Forest, h: int)
    requires Shape(ks) && Base(ks, h) == -1
    ensures h >= 0 && (ks == Tree(1, Empty) <==> h == 0)
  {
    if ks.order >= 2 {
      assert L(ks.order) >= 3;
    } else if ks.left.Tree? {
      assert Base(ks.left, h - 1) <= h - 1 - L(ks.left.order);
    } else {
      assert Base(Empty, h - L(ks.order)) == h - L(ks.order);
    }
  }

  function Removed<T>(s: seq<T>, cmp: (T, T) -> int, head: int, ks: Forest): (r: seq<T>)
    requires Shape(ks) && Covers(s, head, ks)
    ensures |r| == |s|
  {
    if ks.order <= 1 then s else SplitBoth(s, cmp, head, ks)
  }

  function Drained<T>(s: seq<T>, cmp: (T, T) -> int, head: int, ks: Forest): (r: seq<T>)
    requires Shape(ks) && Covers(s, head, ks)
    ensures |r| == |s|
    decreases head
  {
    if ks == Tree(1, Empty) then s
    else
      ShrunkBase(ks, head);
      Drained(Removed(s, cmp, head, ks), cmp, head - 1, Shrunk(ks))
  }

  function SmoothSorted<T>(s: seq<T>, cmp: (T, T) -> int): (r: seq<T>)
    ensures |r| == |s|
  {
    if s == [] then [] else
    var b := Built(s, cmp, 0, Tree(1, Empty));
    Drained(Trinkled(b.0, cmp, |s| - 1, b.1, b.0[|s| - 1], false), cmp, |s| - 1, b.1)
  }

  lemma PlacedBuilding<T(!new)>(s: seq<T>, cmp: (T, T) -> int, head: int, ks: Forest, high: int)
    requires TotalPreorder(cmp) && Building(s, cmp, head, ks, high) && head < high
    ensures Building(Placed(s, cmp, head, ks, high), cmp, head + 1, Grown(ks), high) == true
  {
    if Paired(ks) {
      BuildMerge(s, cmp, head, ks, high);
    } else if Final(head, ks.order, high) {
      BuildTrinkle(s, cmp, head, ks, high, Grown(ks).order);
    } else {
      BuildSift(s, cmp, head, ks, high, Grown(ks).order);
    }
  }

  lemma PlacedPermutes<T>(s: seq<T>, cmp: (T, T) -> int, head: int, ks: Forest, high: int)
    requires Shape(ks) && Covers(s, head, ks)
    ensures multiset(Placed(s, cmp, head, ks, high)) == multiset(s)
  {
    assert s[head := s[head]] == s;
    SiftedPermutes(s, cmp, head, ks.order, s[head]);
    TrinkledPermutes(s, cmp, head, ks, s[head], false);
  }

  /** One round of the building loop, its array and its forest. */
  lemma BuiltStep<T>(s: seq<T>, cmp: (T, T) -> int, head: int, ks: Forest) returns (r: seq<T>, f: Forest)
    requires Shape(ks) && Covers(s, head, ks) && head != |s| - 1
    ensures |r| == |s| && Shape(f) && Covers(r, head + 1, f)
    ensures r == Placed(s, cmp, head, ks, |s| - 1) && f == Grown(ks)
    ensures Built(s, cmp, head, ks) == Built(r, cmp, head + 1, f)
  {
    GrownBase(ks, head);
    r, f := Placed(s, cmp, head, ks, |s| - 1), Grown(ks);
  }

  lemma BuiltRound<T>(s: seq<T>, cmp: (T, T) -> int, head: int, ks: Forest) returns (r: seq<T>, f: Forest)
    requires Shape(ks) && Covers(s, head, ks) && head != |s| - 1
    ensures |r| == |s| && Shape(f) && Covers(r, head + 1, f) && multiset(r) == multiset(s)
    ensures Built(s, cmp, head, ks) == Built(r, cmp, head + 1, f)
  {
    r, f := BuiltStep(s, cmp, head, ks);
    PlacedPermutes(s, cmp, head, ks, |s| - 1);
  }

  lemma BuiltInOrder<T(!new)>(s: seq<T>, cmp: (T, T) -> int, head: int, ks: Forest) returns (r: seq<T>, f: Forest)
    requires TotalPreorder(cmp) && Building(s, cmp, head, ks, |s| - 1) && head != |s| - 1
    ensures |r| == |s| && Building(r, cmp, head + 1, f, |s| - 1) == true
    ensures Built(s, cmp, head, ks) == Built(r, cmp, head + 1, f)
  {
    r, f := BuiltStep(s, cmp, head, ks);
    assert Building(r, cmp, head + 1, f, |s| - 1) == true by { PlacedBuilding(s, cmp, head, ks, |s| - 1); }
  }

  lemma {:induction false} BuiltPermutes<T>(s: seq<T>, cmp: (T, T) -> int, head: int, ks: Forest)
    requires Shape(ks) && Covers(s, head, ks)
    ensures multiset(Built(s, cmp, head, ks).0) == multiset(s)
    decreases |s| - head
  {
    if head != |s| - 1 {
      var r, f := BuiltRound(s, cmp, head, ks);
      BuiltPermutes(r, cmp, head + 1, f);
    }
  }

  lemma {:induction false} BuiltBuilding<T(!new)>(s: seq<T>, cmp: (T, T) -> int, head: int, ks: Forest)
    requires TotalPreorder(cmp) && Building(s, cmp, head, ks, |s| - 1) == true
    ensures Building(Built(s, cmp, head, ks).0, cmp, |s| - 1, Built(s, cmp, head, ks).1, |s| - 1) == true
    decreases |s| - head
  {
    if head != |s| - 1 {
      var r, f := BuiltInOrder(s, cmp, head, ks);
      BuiltBuilding(r, cmp, head + 1, f);
    }
  }

  /** The left subtree joins everything left of the removed root. */
  lemma SplitLeftDrains<T(!new)>(s: seq<T>, cmp: (T, T) -> int, head: int, ks: Forest, r: seq<T>)
    requires TotalPreorder(cmp) && Draining(s, cmp, head, ks) && ks.order >= 2
    requires r == SplitLeft(s, cmp, head, ks)
    ensures Ready(r, cmp, head - 1, Split(ks))
  {
    SplitLeftForest(s, cmp, head, ks);
    SplitLeftKeeps(s, cmp, head, ks);
    SplitBase(ks, head);
  }

  lemma SplitLeftKeeps<T(!new)>(s: seq<T>, cmp: (T, T) -> int, head: int, ks: Forest)
    requires TotalPreorder(cmp) && Draining(s, cmp, head, ks) && ks.order >= 2
    ensures var r := SplitLeft(s, cmp, head, ks); Heap(r, cmp, head - 1, ks.order - 2) && Settled(r, cmp, head - 1)
  {
    SettleHead(s, cmp, head, ks);
    LeftReady(s, cmp, head, ks);
    LeftKeeps(s, cmp, head, ks.order, Split(ks).left);
  }

  lemma SplitLeftForest<T(!new)>(s: seq<T>, cmp: (T, T) -> int, head: int, ks: Forest)
    requires TotalPreorder(cmp) && Draining(s, cmp, head, ks) && ks.order >= 2
    ensures TailSorted(SplitLeft(s, cmp, head, ks), cmp, head - 1, Split(ks))
  {
    var lf, f := Left(head, ks.order), Tree(ks.order - 1, ks.left);
    LeftReady(s, cmp, head, ks);
    TrinkledForest(s, cmp, lf, f, s[lf], true);
    TailOf(Trinkled(s, cmp, lf, f, s[lf], true), cmp, head - 1, ks.order - 2, f);
  }

  lemma TailOf<T>(s: seq<T>, cmp: (T, T) -> int, h: int, k: nat, f: Forest)
    requires Covers(s, h - L(k), f) && Covers(s, h, Tree(k, f))
    requires ForestHeap(s, cmp, h - L(k), f) && RootsSorted(s, cmp, h - L(k), f)
    ensures TailSorted(s, cmp, h, Tree(k, f))
  {
  }

  /** A heap on the right of a sorted forest, below everything settled. */
  ghost predicate Ready<T>(s: seq<T>, cmp: (T, T) -> int, h: int, f: Forest) {
    && Shape(f) && Covers(s, h, f)
    && Heap(s, cmp, h, f.order) && TailSorted(s, cmp, h, f)
    && Settled(s, cmp, h)
  }

  lemma ReadyDrains<T(!new)>(s: seq<T>, cmp: (T, T) -> int, h: int, f: Forest)
    requires TotalPreorder(cmp) && Ready(s, cmp, h, f)
    ensures Draining(Trinkled(s, cmp, h, f, s[h], true), cmp, h, f)
  {
    TrinkledForest(s, cmp, h, f, s[h], true);
    TrinkledSettled(s, cmp, h, f, h, true);
  }

  lemma SplitBothDrains<T(!new)>(s: seq<T>, cmp: (T, T) -> int, head: int, ks: Forest)
    requires TotalPreorder(cmp) && Draining(s, cmp, head, ks) && ks.order >= 2
    ensures Draining(SplitBoth(s, cmp, head, ks), cmp, head - 1, Split(ks))
  {
    var t := SplitLeft(s, cmp, head, ks);
    SplitLeftDrains(s, cmp, head, ks, t);
    ReadyDrains(t, cmp, head - 1, Split(ks));
  }

  lemma SplitPermutes<T>(s: seq<T>, cmp: (T, T) -> int, head: int, ks: Forest)
    requires Shape(ks) && ks.order >= 2 && Covers(s, head, ks)
    ensures multiset(SplitBoth(s, cmp, head, ks)) == multiset(s)
  {
    var t := SplitLeft(s, cmp, head, ks);
    SplitBase(ks, head);
    InPlacePermutes(s, cmp, Left(head, ks.order), Split(ks).left);
    InPlacePermutes(t, cmp, head - 1, Split(ks));
  }

  lemma InPlacePermutes<T>(s: seq<T>, cmp: (T, T) -> int, h: int, ks: Forest)
    requires ks.Tree? && Covers(s, h, ks)
    ensures 0 <= h < |s| && multiset(Trinkled(s, cmp, h, ks, s[h], true)) == multiset(s)
  {
    TrinkledPermutes(s, cmp, h, ks, s[h], true);
    assert s[h := s[h]] == s;
  }

  ghost predicate Sorted<T>(s: seq<T>, cmp: (T, T) -> int) {
    forall i, j :: 0 <= i <= j < |s| ==> cmp(s[i], s[j]) <= 0
  }

  lemma RemovedDrains<T(!new)>(s: seq<T>, cmp: (T, T) -> int, head: int, ks: Forest)
    requires TotalPreorder(cmp) && Draining(s, cmp, head, ks) && ks != Tree(1, Empty)
    ensures Draining(Removed(s, cmp, head, ks), cmp, head - 1, Shrunk(ks))
  {
    if ks.order <= 1 {
      DrainDrop(s, cmp, head, ks);
    } else {
      SplitBothDrains(s, cmp, head, ks);
    }
  }

  lemma SingletonSorted<T(!new)>(s: seq<T>, cmp: (T, T) -> int, head: int, ks: Forest)
    requires TotalPreorder(cmp) && Draining(s, cmp, head, ks) && ks == Tree(1, Empty)
    ensures Sorted(Drained(s, cmp, head, ks), cmp)
  {
    assert head == 0 by { assert Base(Empty, head - L(1)) == head - L(1); }
    assert cmp(s[0], s[0]) <= 0;
  }

  lemma RemovedPermutes<T>(s: seq<T>, cmp: (T, T) -> int, head: int, ks: Forest)
    requires Shape(ks) && Covers(s, head, ks)
    ensures multiset(Removed(s, cmp, head, ks)) == multiset(s)
  {
    if ks.order >= 2 { SplitPermutes(s, cmp, head, ks); }
  }

  /** One round of the draining loop, its array and its forest. */
  lemma DrainedStep<T>(s: seq<T>, cmp: (T, T) -> int, head: int, ks: Forest) returns (r: seq<T>, f: Forest)
    requires Shape(ks) && Covers(s, head, ks) && ks != Tree(1, Empty)
    ensures head > 0 && Shape(f) && Covers(r, head - 1, f)
    ensures r == Removed(s, cmp, head, ks) && f == Shrunk(ks)
    ensures Drained(s, cmp, head, ks) == Drained(r, cmp, head - 1, f)
  {
    ShrunkBase(ks, head);
    r, f := Removed(s, cmp, head, ks), Shrunk(ks);
  }

  lemma DrainedRound<T>(s: seq<T>, cmp: (T, T) -> int, head: int, ks: Forest) returns (r: seq<T>, f: Forest)
    requires Shape(ks) && Covers(s, head, ks) && ks != Tree(1, Empty)
    ensures head > 0 && Shape(f) && Covers(r, head - 1, f) && multiset(r) == multiset(s)
    ensures Drained(s, cmp, head, ks) == Drained(r, cmp, head - 1, f)
  {
    r, f := DrainedStep(s, cmp, head, ks);
    RemovedPermutes(s, cmp, head, ks);
  }

  lemma DrainedInOrder<T(!new)>(s: seq<T>, cmp: (T, T) -> int, head: int, ks: Forest) returns (r: seq<T>, f: Forest)
    requires TotalPreorder(cmp) && Draining(s, cmp, head, ks) && ks != Tree(1, Empty)
    ensures head > 0 && Draining(r, cmp, head - 1, f) == true
    ensures Drained(s, cmp, head, ks) == Drained(r, cmp, head - 1, f)
  {
    r, f := DrainedStep(s, cmp, head, ks);
    RemovedDrains(s, cmp, head, ks);
  }

  lemma {:induction false} DrainedSorted<T(!new)>(s: seq<T>, cmp: (T, T) -> int, head: int, ks: Forest)
    requires TotalPreorder(cmp) && Draining(s, cmp, head, ks) == true
    ensures Sorted(Drained(s, cmp, head, ks), cmp)
    decreases head
  {
    if ks == Tree(1, Empty) {
      SingletonSorted(s, cmp, head, ks);
    } else {
      var r, f := DrainedInOrder(s, cmp, head, ks);
      DrainedSorted(r, cmp, head - 1, f);
    }
  }

  lemma {:induction false} DrainedPermutes<T>(s: seq<T>, cmp: (T, T) -> int, head: int, ks: Forest)
    requires Shape(ks) && Covers(s, head, ks)
    ensures multiset(Drained(s, cmp, head, ks)) == multiset(s)
    decreases head
  {
    if ks != Tree(1, Empty) {
      var r, f := DrainedRound(s, cmp, head, ks);
      DrainedPermutes(r, cmp, head - 1, f);
    }
  }

  /** For every total preorder the sort's result is sorted and a permutation of its input. */
  lemma SmoothSortedSorts<T(!new)>(s: seq<T>, cmp: (T, T) -> int)
    requires TotalPreorder(cmp)
    ensures Sorted(SmoothSorted(s, cmp), cmp)
    ensures multiset(SmoothSorted(s, cmp)) == multiset(s)
  {
    if s != [] {
      var n := |s| - 1;
      BuiltBuilding(s, cmp, 0, Tree(1, Empty));
      BuiltPermutes(s, cmp, 0, Tree(1, Empty));
      var b := Built(s, cmp, 0, Tree(1, Empty));
      BuildLast(b.0, cmp, n, b.1);
      TrinkledPermutes(b.0, cmp, n, b.1, b.0[n], false);
      assert b.0[n := b.0[n]] == b.0;
      DrainedSorted(Trinkled(b.0, cmp, n, b.1, b.0[n], false), cmp, n, b.1);
      DrainedPermutes(Trinkled(b.0, cmp, n, b.1, b.0[n], false), cmp, n, b.1);
    }
  }
}

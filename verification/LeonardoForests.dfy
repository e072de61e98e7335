/** Forests of Leonardo heaps that partition a prefix, listed from the rightmost tree leftwards. */
module LeonardoForests {
  import opened LeonardoHeaps

  /** Tree orders from the rightmost tree leftwards. */
  datatype Forest = Empty | Tree(order: nat, left: Forest)

  predicate Several(ks: Forest) {
    ks.Tree? && ks.left.Tree?
  }

  function Total(ks: Forest): (r: nat)
    ensures ks.Tree? ==> r >= L(ks.order)
  {
    if ks.Empty? then 0 else L(ks.order) + Total(ks.left)
  }

  /** The position just left of the trees ks, the rightmost of them rooted at h. */
  function Base(ks: Forest, h: int): (r: int)
    ensures r <= h
    ensures ks.Tree? ==> r <= h - L(ks.order)
    decreases ks, h
  {
    if ks.Empty? then h else Base(ks.left, h - L(ks.order))
  }

  lemma {:induction false} BaseTotal(ks: Forest, h: int)
    ensures Base(ks, h) == h - Total(ks)
    decreases ks
  {
    if ks.Tree? { BaseTotal(ks.left, h - L(ks.order)); }
  }

  /** The trees ks, the rightmost rooted at h, cover exactly the positions 0..h. */
  predicate Covers<T>(s: seq<T>, h: int, ks: Forest) {
    Base(ks, h) == -1 && h < |s|
  }

  ghost predicate ForestHeap<T>(s: seq<T>, cmp: (T, T) -> int, h: int, ks: Forest)
    requires Covers(s, h, ks)
    decreases ks, |s|
  {
    ks.Tree? ==> Heap(s, cmp, h, ks.order) && ForestHeap(s, cmp, h - L(ks.order), ks.left)
  }

  /** The roots ascend from left to right. */
  ghost predicate RootsSorted<T>(s: seq<T>, cmp: (T, T) -> int, h: int, ks: Forest)
    requires Covers(s, h, ks)
    decreases ks, |s|
  {
    Several(ks) ==>
      && cmp(s[h - L(ks.order)], s[h]) <= 0
      && RootsSorted(s, cmp, h - L(ks.order), ks.left)
  }

  /** Everything but the rightmost tree is a sorted forest of heaps. */
  ghost predicate TailSorted<T>(s: seq<T>, cmp: (T, T) -> int, h: int, ks: Forest)
    requires ks.Tree? && Covers(s, h, ks)
  {
    && ForestHeap(s, cmp, h - L(ks.order), ks.left)
    && RootsSorted(s, cmp, h - L(ks.order), ks.left)
  }

  lemma {:induction false} ForestFrame<T>(s: seq<T>, t: seq<T>, cmp: (T, T) -> int, h: int, ks: Forest)
    requires Covers(s, h, ks) && Covers(t, h, ks)
    requires Agree(s, t, 0, h + 1)
    ensures ForestHeap(s, cmp, h, ks) == ForestHeap(t, cmp, h, ks)
    ensures RootsSorted(s, cmp, h, ks) == RootsSorted(t, cmp, h, ks)
    decreases ks
  {
    if ks.Tree? {
      HeapFrame(s, t, cmp, h, ks.order);
      ForestFrame(s, t, cmp, h - L(ks.order), ks.left);
    }
  }

  /** The rightmost root of a sorted forest of heaps is the maximum of the prefix. */
  lemma {:induction false} ForestMax<T(!new)>(s: seq<T>, cmp: (T, T) -> int, h: int, ks: Forest)
    requires TotalPreorder(cmp) && ks.Tree? && Covers(s, h, ks)
    requires ForestHeap(s, cmp, h, ks) && RootsSorted(s, cmp, h, ks)
    ensures AtMost(s, cmp, 0, h + 1, s[h])
    decreases ks
  {
    HeapMax(s, cmp, h, ks.order);
    if Several(ks) {
      ForestMax(s, cmp, h - L(ks.order), ks.left);
      AtMostUp(s, cmp, 0, h - L(ks.order) + 1, s[h - L(ks.order)], s[h]);
    } else {
      assert Base(ks.left, h - L(ks.order)) == h - L(ks.order);
    }
  }

  // ---- Trinkling ----

  /** x, held at the root h, must move left past the neighbouring root. */
  predicate Climbs<T>(s: seq<T>, cmp: (T, T) -> int, h: int, ks: Forest, x: T, trusty: bool)
    requires ks.Tree? && Covers(s, h, ks)
  {
    Several(ks) &&
    var son := s[h - L(ks.order)];
    && cmp(son, x) > 0
    && (trusty || ks.order < 2 || (cmp(s[Right(h)], son) < 0 && cmp(s[Left(h, ks.order)], son) < 0))
  }

  lemma ClimbsFrame<T>(s: seq<T>, t: seq<T>, cmp: (T, T) -> int, h: int, ks: Forest, x: T, trusty: bool)
    requires ks.Tree? && Covers(s, h, ks) && |t| == |s| && Agree(s, t, 0, h)
    ensures Climbs(s, cmp, h, ks, x, trusty) == Climbs(t, cmp, h, ks, x, trusty)
  {
  }

  /** The forest with x inserted at the rightmost root; the old value at h is overwritten. */
  function Trinkled<T>(s: seq<T>, cmp: (T, T) -> int, h: int, ks: Forest, x: T, trusty: bool): (r: seq<T>)
    requires ks.Tree? && Covers(s, h, ks)
    ensures |r| == |s|
    decreases ks, |s|
  {
    if Climbs(s, cmp, h, ks, x, trusty) then
      var son := h - L(ks.order);
      Trinkled(s[h := s[son]], cmp, son, ks.left, x, false)
    else if trusty then s[h := x]
    else Sifted(s, cmp, h, ks.order, x)
  }

  lemma TrinkledStep<T>(s: seq<T>, cmp: (T, T) -> int, h: int, ks: Forest, x: T, trusty: bool)
    requires ks.Tree? && Covers(s, h, ks)
    ensures Trinkled(s, cmp, h, ks, x, trusty) ==
      if Climbs(s, cmp, h, ks, x, trusty) then
        Trinkled(s[h := s[h - L(ks.order)]], cmp, h - L(ks.order), ks.left, x, false)
      else if trusty then s[h := x] else Sifted(s, cmp, h, ks.order, x)
  {
  }

  lemma {:induction false} TrinkledFrame<T>(s: seq<T>, cmp: (T, T) -> int, h: int, ks: Forest, x: T, trusty: bool)
    requires ks.Tree? && Covers(s, h, ks)
    ensures Agree(s, Trinkled(s, cmp, h, ks, x, trusty), h + 1, |s|)
    decreases ks
  {
    if Climbs(s, cmp, h, ks, x, trusty) {
      var son := h - L(ks.order);
      TrinkledFrame(s[h := s[son]], cmp, son, ks.left, x, false);
    } else {
      SiftedFrame(s, cmp, h, ks.order, x);
    }
  }

  lemma {:induction false} TrinkledPermutes<T>(s: seq<T>, cmp: (T, T) -> int, h: int, ks: Forest, x: T, trusty: bool)
    requires ks.Tree? && Covers(s, h, ks)
    ensures multiset(Trinkled(s, cmp, h, ks, x, trusty)) == multiset(s[h := x])
    decreases ks
  {
    if Climbs(s, cmp, h, ks, x, trusty) {
      var son := h - L(ks.order);
      TrinkledPermutes(s[h := s[son]], cmp, son, ks.left, x, false);
      ShiftUp(s, h, son, x);
    } else {
      SiftedPermutes(s, cmp, h, ks.order, x);
    }
  }

  lemma {:induction false} TrinkledAtMost<T>(s: seq<T>, cmp: (T, T) -> int, h: int, ks: Forest, x: T, trusty: bool, b: T)
    requires ks.Tree? && Covers(s, h, ks)
    requires AtMost(s, cmp, 0, h, b) && cmp(x, b) <= 0
    ensures AtMost(Trinkled(s, cmp, h, ks, x, trusty), cmp, 0, h + 1, b)
    decreases ks
  {
    if Climbs(s, cmp, h, ks, x, trusty) {
      var son := h - L(ks.order);
      TrinkledAtMost(s[h := s[son]], cmp, son, ks.left, x, false, b);
      TrinkledFrame(s[h := s[son]], cmp, son, ks.left, x, false);
    } else {
      SiftedFrame(s, cmp, h, ks.order, x);
      SiftedAtMost(s, cmp, h, ks.order, x, b);
    }
  }

  /** Trinkling makes the whole forest a sorted forest of heaps. */
  lemma {:induction false} TrinkledForest<T(!new)>(s: seq<T>, cmp: (T, T) -> int, h: int, ks: Forest, x: T, trusty: bool)
    requires TotalPreorder(cmp) && ks.Tree? && Covers(s, h, ks)
    requires ChildHeaps(s, cmp, h, ks.order) && TailSorted(s, cmp, h, ks)
    requires trusty ==> AboveChildren(s, cmp, h, ks.order, x)
    ensures ForestHeap(Trinkled(s, cmp, h, ks, x, trusty), cmp, h, ks)
    ensures RootsSorted(Trinkled(s, cmp, h, ks, x, trusty), cmp, h, ks)
    decreases ks, 1
  {
    if Climbs(s, cmp, h, ks, x, trusty) {
      var son := h - L(ks.order);
      var s' := s[h := s[son]];
      TrinkledTail(s, s', cmp, h, ks, x);
      ClimbInto(s, s', cmp, h, ks, x);
      ClimbAssemble(s, Trinkled(s', cmp, son, ks.left, x, false), cmp, h, ks, x, trusty);
    } else if trusty {
      TrinkledTrusty(s, cmp, h, ks, x);
    } else {
      TrinkledSift(s, cmp, h, ks, x);
    }
  }

  lemma TrinkledTrusty<T(!new)>(s: seq<T>, cmp: (T, T) -> int, h: int, ks: Forest, x: T)
    requires TotalPreorder(cmp) && ks.Tree? && Covers(s, h, ks)
    requires ChildHeaps(s, cmp, h, ks.order) && TailSorted(s, cmp, h, ks)
    requires AboveChildren(s, cmp, h, ks.order, x) && !Climbs(s, cmp, h, ks, x, true)
    ensures ForestHeap(s[h := x], cmp, h, ks)
    ensures RootsSorted(s[h := x], cmp, h, ks)
  {
    var r := s[h := x];
    ChildHeapsFrame(s, r, cmp, h, ks.order);
    ForestFrame(s, r, cmp, h - L(ks.order), ks.left);
  }

  lemma TrinkledSift<T(!new)>(s: seq<T>, cmp: (T, T) -> int, h: int, ks: Forest, x: T)
    requires TotalPreorder(cmp) && ks.Tree? && Covers(s, h, ks)
    requires ChildHeaps(s, cmp, h, ks.order) && TailSorted(s, cmp, h, ks)
    requires !Climbs(s, cmp, h, ks, x, false)
    ensures ForestHeap(Sifted(s, cmp, h, ks.order, x), cmp, h, ks)
    ensures RootsSorted(Sifted(s, cmp, h, ks.order, x), cmp, h, ks)
  {
    SiftedHeap(s, cmp, h, ks.order, x);
    SiftedFrame(s, cmp, h, ks.order, x);
    SiftedRoot(s, cmp, h, ks.order, x);
    var r := Sifted(s, cmp, h, ks.order, x);
    if Several(ks) {
      var son := s[h - L(ks.order)];
      assert Chain(son, x, r[h]);
      if ks.order >= 2 {
        assert Chain(son, s[Left(h, ks.order)], r[h]) && Chain(son, s[Right(h)], r[h]);
      }
    }
    SiftAssemble(s, r, cmp, h, ks);
  }

  lemma SiftAssemble<T>(s: seq<T>, r: seq<T>, cmp: (T, T) -> int, h: int, ks: Forest)
    requires ks.Tree? && Covers(s, h, ks) && |r| == |s|
    requires TailSorted(s, cmp, h, ks) && Heap(r, cmp, h, ks.order)
    requires Agree(s, r, 0, h + 1 - L(ks.order))
    requires Several(ks) ==> cmp(s[h - L(ks.order)], r[h]) <= 0
    ensures ForestHeap(r, cmp, h, ks) && RootsSorted(r, cmp, h, ks)
  {
    ForestFrame(s, r, cmp, h - L(ks.order), ks.left);
  }

  lemma {:induction false} TrinkledTail<T(!new)>(s: seq<T>, s': seq<T>, cmp: (T, T) -> int, h: int, ks: Forest, x: T)
    requires TotalPreorder(cmp) && Several(ks) && Covers(s, h, ks) && TailSorted(s, cmp, h, ks)
    requires |s'| == |s| && Agree(s, s', 0, h)
    ensures var r := Trinkled(s', cmp, h - L(ks.order), ks.left, x, false);
      ForestHeap(r, cmp, h - L(ks.order), ks.left) && RootsSorted(r, cmp, h - L(ks.order), ks.left)
    decreases ks, 0
  {
    HoleMoves(s, s', cmp, h, ks);
    TrinkledForest(s', cmp, h - L(ks.order), ks.left, x, false);
  }

  /** With the hole moved to the left neighbour's root, that neighbour is ready to be trinkled. */
  lemma HoleMoves<T>(s: seq<T>, s': seq<T>, cmp: (T, T) -> int, h: int, ks: Forest)
    requires Several(ks) && Covers(s, h, ks) && TailSorted(s, cmp, h, ks)
    requires |s'| == |s| && Agree(s, s', 0, h)
    ensures ChildHeaps(s', cmp, h - L(ks.order), ks.left.order)
    ensures TailSorted(s', cmp, h - L(ks.order), ks.left)
  {
    ForestFrame(s, s', cmp, h - L(ks.order), ks.left);
  }

  lemma ClimbInto<T(!new)>(s: seq<T>, s': seq<T>, cmp: (T, T) -> int, h: int, ks: Forest, x: T)
    requires TotalPreorder(cmp) && Several(ks) && Covers(s, h, ks) && TailSorted(s, cmp, h, ks)
    requires s' == s[h := s[h - L(ks.order)]] && cmp(x, s[h - L(ks.order)]) <= 0
    ensures var r := Trinkled(s', cmp, h - L(ks.order), ks.left, x, false);
      && Agree(s, r, h + 1 - L(ks.order), h)
      && r[h] == s[h - L(ks.order)]
      && cmp(r[h - L(ks.order)], r[h]) <= 0
  {
    var son := h - L(ks.order);
    TrinkledFrame(s', cmp, son, ks.left, x, false);
    ForestMax(s, cmp, son, ks.left);
    TrinkledAtMost(s', cmp, son, ks.left, x, false, s[son]);
  }

  /** A root that x climbs past is above the children it leaves behind. */
  lemma ClimbAssemble<T(!new)>(s: seq<T>, r: seq<T>, cmp: (T, T) -> int, h: int, ks: Forest, x: T, trusty: bool)
    requires TotalPreorder(cmp) && Several(ks) && Covers(s, h, ks) && |r| == |s|
    requires ChildHeaps(s, cmp, h, ks.order) && (trusty ==> AboveChildren(s, cmp, h, ks.order, x))
    requires Climbs(s, cmp, h, ks, x, trusty)
    requires r[h] == s[h - L(ks.order)] && Agree(s, r, h + 1 - L(ks.order), h)
    requires ForestHeap(r, cmp, h - L(ks.order), ks.left) && RootsSorted(r, cmp, h - L(ks.order), ks.left)
    requires cmp(r[h - L(ks.order)], r[h]) <= 0
    ensures ForestHeap(r, cmp, h, ks) && RootsSorted(r, cmp, h, ks)
  {
    assert cmp(x, r[h]) <= 0;
    if ks.order >= 2 {
      assert Chain(s[Left(h, ks.order)], x, r[h]) && Chain(s[Right(h)], x, r[h]);
    }
    ChildHeapsFrame(s, r, cmp, h, ks.order);
  }

  // ---- Forest shapes reached by the sort ----

  /** Orders start at 1 or more and grow by at least two from tree to tree. */
  predicate Spaced(ks: Forest) {
    ks.Tree? ==> ks.order >= 1 && Spaced(ks.left) && (ks.left.Tree? ==> ks.left.order >= ks.order + 2)
  }

  /** The shapes of the sort: the two rightmost trees may be consecutive, and an order 0
      tree only stands right of an order 1 tree. */
  predicate Shape(ks: Forest) {
    && ks.Tree?
    && Spaced(ks.left)
    && (ks.left.Tree? ==> ks.left.order > ks.order)
    && (ks.order == 0 ==> ks.left.Tree? && ks.left.order == 1)
  }

  /** A tree is final when too few elements follow it for it to be merged. */
  predicate Final(h: int, k: nat, high: int)
    requires k >= 1
  {
    L(k - 1) >= high - h
  }

  /** Final roots are in order with their left neighbours. */
  ghost predicate FinalSorted<T>(s: seq<T>, cmp: (T, T) -> int, h: int, ks: Forest, high: int)
    requires Covers(s, h, ks) && Spaced(ks)
    decreases ks, |s|
  {
    Several(ks) ==>
      && (Final(h, ks.order, high) ==> cmp(s[h - L(ks.order)], s[h]) <= 0)
      && FinalSorted(s, cmp, h - L(ks.order), ks.left, high)
  }

  lemma {:induction false} FinalFrame<T>(s: seq<T>, t: seq<T>, cmp: (T, T) -> int, h: int, ks: Forest, high: int)
    requires Covers(s, h, ks) && Covers(t, h, ks) && Spaced(ks)
    requires Agree(s, t, 0, h + 1)
    ensures FinalSorted(s, cmp, h, ks, high) == FinalSorted(t, cmp, h, ks, high)
    decreases ks
  {
    if ks.Tree? {
      FinalFrame(s, t, cmp, h - L(ks.order), ks.left, high);
    }
  }

  /** Left of a final tree every tree is final, so all their roots are in order. */
  lemma {:induction false} FinalIsSorted<T>(s: seq<T>, cmp: (T, T) -> int, h: int, ks: Forest, high: int)
    requires Covers(s, h, ks) && Spaced(ks) && FinalSorted(s, cmp, h, ks, high)
    requires ks.Tree? ==> Final(h, ks.order, high)
    ensures RootsSorted(s, cmp, h, ks)
    decreases ks
  {
    if Several(ks) {
      FinalNext(h, ks.order, ks.left.order, high);
      FinalIsSorted(s, cmp, h - L(ks.order), ks.left, high);
    }
  }

  lemma FinalNext(h: int, k: nat, k': nat, high: int)
    requires k >= 1 && k' >= k + 2 && Final(h, k, high)
    ensures Final(h - L(k), k', high)
  {
    LMono(k + 1, k' - 1);
  }

  lemma SortedIsFinal<T>(s: seq<T>, cmp: (T, T) -> int, h: int, ks: Forest, high: int)
    requires Covers(s, h, ks) && Spaced(ks) && RootsSorted(s, cmp, h, ks)
    ensures FinalSorted(s, cmp, h, ks, high)
    decreases ks
  {
  }
}

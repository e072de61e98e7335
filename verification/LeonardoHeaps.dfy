/** Leonardo heaps laid out in a sequence, and forests of them (ukern/src/qsort.c). */
module LeonardoHeaps {
  /** Leonardo numbers: the number of elements in a tree of order k. */
  function L(k: nat): (r: nat)
    ensures r >= 1
  {
    if k < 2 then 1 else L(k - 1) + L(k - 2) + 1
  }

  lemma {:induction false} LMono(j: nat, k: nat)
    requires j <= k
    ensures L(j) <= L(k)
    ensures 1 <= j < k ==> L(j) < L(k)
  {
    if j < k && k >= 2 { LMono(j, k - 1); }
  }

  /** L(66), the largest array length the two-word encoding of a forest can serve. */
  const LIMIT: nat := 89891140425705

  lemma LimitIsLeonardo() returns (m: nat)
    ensures 65 < m < 67 && L(m) == LIMIT
  {
    m := 66;
    assert L(6) == 25 && L(7) == 41;
    assert L(12) == 465 && L(13) == 753;
    assert L(18) == 8361 && L(19) == 13529;
    assert L(24) == 150049 && L(25) == 242785;
    assert L(30) == 2692537 && L(31) == 4356617;
    assert L(36) == 48315633 && L(37) == 78176337;
    assert L(42) == 866988873 && L(43) == 1402817465;
    assert L(48) == 15557484097 && L(49) == 25172538049;
    assert L(54) == 279167724889 && L(55) == 451702867433;
    assert L(60) == 5009461563921 && L(61) == 8105479075761;
  }

  lemma LimitOrder(k: nat)
    ensures L(k) <= LIMIT ==> k <= 66
    ensures L(k) < LIMIT ==> k < 66
  {
    var m := LimitIsLeonardo();
    LMonoAt(k, m);
  }

  lemma LMonoAt(k: nat, m: nat)
    requires m >= 1
    ensures L(k) <= L(m) ==> k <= m
    ensures L(k) < L(m) ==> k < m
  {
    if k >= m { LMono(m, k); }
  }

  /** Marks the triples to which a proof applies transitivity; it holds of all of them. */
  ghost predicate Chain<T>(x: T, y: T, z: T) {
    true
  }

  /** The comparator is a total preorder; cmp(x, y) <= 0 reads "x is at most y". */
  ghost predicate TotalPreorder<T(!new)>(cmp: (T, T) -> int) {
    && (forall x, y :: cmp(x, y) <= 0 <==> cmp(y, x) >= 0)
    && (forall x, y, z {:trigger Chain(x, y, z)} ::
          Chain(x, y, z) && cmp(x, y) <= 0 && cmp(y, z) <= 0 ==> cmp(x, z) <= 0)
  }

  /** A bound on a range is passed on to anything above it. */
  lemma AtMostUp<T(!new)>(s: seq<T>, cmp: (T, T) -> int, lo: int, hi: int, b: T, c: T)
    requires TotalPreorder(cmp) && 0 <= lo && hi <= |s|
    requires AtMost(s, cmp, lo, hi, b) && cmp(b, c) <= 0
    ensures AtMost(s, cmp, lo, hi, c)
  {
    forall i | lo <= i < hi ensures cmp(s[i], c) <= 0 {
      assert Chain(s[i], b, c);
    }
  }

  /** A tree of order k whose root is at h fits below h. */
  predicate Fits<T>(s: seq<T>, h: int, k: nat) {
    L(k) <= h + 1 <= |s|
  }

  function Right(h: int): (r: int) { h - 1 }
  function Left(h: int, k: nat): (r: int)
    requires k >= 2
  {
    h - 1 - L(k - 2)
  }

  /** Both subtrees of the tree of order k at h are heaps; the root is unconstrained. */
  ghost predicate ChildHeaps<T>(s: seq<T>, cmp: (T, T) -> int, h: int, k: nat)
    requires Fits(s, h, k)
    decreases k, |s|, 0
  {
    k >= 2 ==> Heap(s, cmp, Left(h, k), k - 1) && Heap(s, cmp, Right(h), k - 2)
  }

  /** The value x is at least both children of the tree at h. */
  ghost predicate AboveChildren<T>(s: seq<T>, cmp: (T, T) -> int, h: int, k: nat, x: T)
    requires Fits(s, h, k)
  {
    k >= 2 ==> cmp(s[Left(h, k)], x) <= 0 && cmp(s[Right(h)], x) <= 0
  }

  ghost predicate Heap<T>(s: seq<T>, cmp: (T, T) -> int, h: int, k: nat)
    requires Fits(s, h, k)
    decreases k, |s|, 1
  {
    ChildHeaps(s, cmp, h, k) && AboveChildren(s, cmp, h, k, s[h])
  }

  /** Positions lo <= i < hi all hold values at most b. */
  ghost predicate AtMost<T>(s: seq<T>, cmp: (T, T) -> int, lo: int, hi: int, b: T)
    requires 0 <= lo && hi <= |s|
  {
    forall i :: lo <= i < hi ==> cmp(s[i], b) <= 0
  }

  /** s and t agree on positions lo <= i < hi. */
  ghost predicate Agree<T>(s: seq<T>, t: seq<T>, lo: int, hi: int)
    requires 0 <= lo && hi <= |s| && hi <= |t|
  {
    forall i :: lo <= i < hi ==> s[i] == t[i]
  }

  lemma {:induction false} HeapFrame<T>(s: seq<T>, t: seq<T>, cmp: (T, T) -> int, h: int, k: nat)
    requires Fits(s, h, k) && Fits(t, h, k)
    requires Agree(s, t, h + 1 - L(k), h + 1)
    ensures Heap(s, cmp, h, k) == Heap(t, cmp, h, k)
  {
    if k >= 2 {
      HeapFrame(s, t, cmp, Left(h, k), k - 1);
      HeapFrame(s, t, cmp, Right(h), k - 2);
    }
  }

  lemma ChildHeapsFrame<T>(s: seq<T>, t: seq<T>, cmp: (T, T) -> int, h: int, k: nat)
    requires Fits(s, h, k) && Fits(t, h, k)
    requires Agree(s, t, h + 1 - L(k), h)
    ensures ChildHeaps(s, cmp, h, k) == ChildHeaps(t, cmp, h, k)
  {
    if k >= 2 {
      HeapFrame(s, t, cmp, Left(h, k), k - 1);
      HeapFrame(s, t, cmp, Right(h), k - 2);
    }
  }

  lemma HeapParts<T>(s: seq<T>, cmp: (T, T) -> int, h: int, k: nat)
    requires Fits(s, h, k) && k >= 2
    ensures Heap(s, cmp, h, k) ==
      (Heap(s, cmp, Left(h, k), k - 1) && Heap(s, cmp, Right(h), k - 2) && AboveChildren(s, cmp, h, k, s[h]))
  {
  }

  /** The root of a heap is its maximum. */
  lemma {:induction false} HeapMax<T(!new)>(s: seq<T>, cmp: (T, T) -> int, h: int, k: nat)
    requires TotalPreorder(cmp) && Fits(s, h, k) && Heap(s, cmp, h, k)
    ensures AtMost(s, cmp, h + 1 - L(k), h + 1, s[h])
  {
    if k >= 2 {
      HeapMax(s, cmp, Left(h, k), k - 1);
      HeapMax(s, cmp, Right(h), k - 2);
      AtMostUp(s, cmp, h + 1 - L(k), Left(h, k) + 1, s[Left(h, k)], s[h]);
      AtMostUp(s, cmp, Left(h, k) + 1, h, s[Right(h)], s[h]);
    }
    assert cmp(s[h], s[h]) <= 0;
  }

  // ---- Sifting ----

  /** The tree at h with x sifted down from its root; the old value at h is overwritten. */
  function Sifted<T>(s: seq<T>, cmp: (T, T) -> int, h: int, k: nat, x: T): (r: seq<T>)
    requires Fits(s, h, k)
    ensures |r| == |s|
    decreases k, |s|
  {
    if k < 2 || (cmp(x, s[Left(h, k)]) >= 0 && cmp(x, s[Right(h)]) >= 0) then s[h := x]
    else if cmp(s[Left(h, k)], s[Right(h)]) >= 0 then
      Sifted(s[h := s[Left(h, k)]], cmp, Left(h, k), k - 1, x)
    else
      Sifted(s[h := s[Right(h)]], cmp, Right(h), k - 2, x)
  }

  lemma SiftedStep<T>(s: seq<T>, cmp: (T, T) -> int, h: int, k: nat, x: T)
    requires k >= 2 && Fits(s, h, k)
    ensures var lf, rt := Left(h, k), Right(h);
      Sifted(s, cmp, h, k, x) ==
        if cmp(x, s[lf]) >= 0 && cmp(x, s[rt]) >= 0 then s[h := x]
        else if cmp(s[lf], s[rt]) >= 0 then Sifted(s[h := s[lf]], cmp, lf, k - 1, x)
        else Sifted(s[h := s[rt]], cmp, rt, k - 2, x)
  {
  }

  /** The value being replaced does not matter. */
  lemma SiftedOverwrites<T>(s: seq<T>, cmp: (T, T) -> int, h: int, k: nat, x: T, y: T)
    requires Fits(s, h, k)
    ensures Sifted(s[h := y], cmp, h, k, x) == Sifted(s, cmp, h, k, x)
  {
    assert s[h := y][h := x] == s[h := x];
    if k >= 2 {
      assert s[h := y][h := s[Left(h, k)]] == s[h := s[Left(h, k)]];
      assert s[h := y][h := s[Right(h)]] == s[h := s[Right(h)]];
      SiftedStep(s, cmp, h, k, x);
      SiftedStep(s[h := y], cmp, h, k, x);
    }
  }

  lemma {:induction false} SiftedFrame<T>(s: seq<T>, cmp: (T, T) -> int, h: int, k: nat, x: T)
    requires Fits(s, h, k)
    ensures Agree(s, Sifted(s, cmp, h, k, x), 0, h + 1 - L(k))
    ensures Agree(s, Sifted(s, cmp, h, k, x), h + 1, |s|)
    decreases k
  {
    if k < 2 || (cmp(x, s[Left(h, k)]) >= 0 && cmp(x, s[Right(h)]) >= 0) {
    } else if cmp(s[Left(h, k)], s[Right(h)]) >= 0 {
      SiftedFrame(s[h := s[Left(h, k)]], cmp, Left(h, k), k - 1, x);
    } else {
      SiftedFrame(s[h := s[Right(h)]], cmp, Right(h), k - 2, x);
    }
  }

  lemma ShiftUp<T>(s: seq<T>, i: int, j: int, x: T)
    requires 0 <= i < |s| && 0 <= j < |s| && i != j
    ensures multiset(s[i := s[j]][j := x]) == multiset(s[i := x])
  {
    assert s[i := s[j]][j := x] == s[i := x][j := x][i := s[j]];
  }

  lemma {:induction false} SiftedPermutes<T>(s: seq<T>, cmp: (T, T) -> int, h: int, k: nat, x: T)
    requires Fits(s, h, k)
    ensures multiset(Sifted(s, cmp, h, k, x)) == multiset(s[h := x])
    decreases k
  {
    if k < 2 || (cmp(x, s[Left(h, k)]) >= 0 && cmp(x, s[Right(h)]) >= 0) {
    } else if cmp(s[Left(h, k)], s[Right(h)]) >= 0 {
      SiftedPermutes(s[h := s[Left(h, k)]], cmp, Left(h, k), k - 1, x);
      ShiftUp(s, h, Left(h, k), x);
    } else {
      SiftedPermutes(s[h := s[Right(h)]], cmp, Right(h), k - 2, x);
      ShiftUp(s, h, Right(h), x);
    }
  }

  /** Sifting keeps any upper bound on the tree. */
  lemma {:induction false} SiftedAtMost<T>(s: seq<T>, cmp: (T, T) -> int, h: int, k: nat, x: T, b: T)
    requires Fits(s, h, k)
    requires AtMost(s, cmp, h + 1 - L(k), h, b) && cmp(x, b) <= 0
    ensures AtMost(Sifted(s, cmp, h, k, x), cmp, h + 1 - L(k), h + 1, b)
    decreases k
  {
    if k < 2 || (cmp(x, s[Left(h, k)]) >= 0 && cmp(x, s[Right(h)]) >= 0) {
    } else {
      var left := cmp(s[Left(h, k)], s[Right(h)]) >= 0;
      var c, j := if left then Left(h, k) else Right(h), if left then k - 1 else k - 2;
      SiftedAtMost(s[h := s[c]], cmp, c, j, x, b);
      SiftedFrame(s[h := s[c]], cmp, c, j, x);
    }
  }

  /** The new root is at least x and both old children. */
  lemma SiftedRoot<T(!new)>(s: seq<T>, cmp: (T, T) -> int, h: int, k: nat, x: T)
    requires TotalPreorder(cmp) && Fits(s, h, k)
    ensures cmp(x, Sifted(s, cmp, h, k, x)[h]) <= 0
    ensures AboveChildren(s, cmp, h, k, Sifted(s, cmp, h, k, x)[h])
  {
    assert cmp(x, x) <= 0;
    if k >= 2 {
      assert Chain(x, s[Right(h)], s[Left(h, k)]) && Chain(x, s[Left(h, k)], s[Right(h)]);
    }
    if k < 2 || (cmp(x, s[Left(h, k)]) >= 0 && cmp(x, s[Right(h)]) >= 0) {
    } else if cmp(s[Left(h, k)], s[Right(h)]) >= 0 {
      SiftedFrame(s[h := s[Left(h, k)]], cmp, Left(h, k), k - 1, x);
    } else {
      SiftedFrame(s[h := s[Right(h)]], cmp, Right(h), k - 2, x);
    }
  }

  /** Sifting a new root into two heaps makes a heap. */
  lemma {:induction false} SiftedHeap<T(!new)>(s: seq<T>, cmp: (T, T) -> int, h: int, k: nat, x: T)
    requires TotalPreorder(cmp) && Fits(s, h, k) && ChildHeaps(s, cmp, h, k)
    ensures Heap(Sifted(s, cmp, h, k, x), cmp, h, k)
    decreases k, 1
  {
    if k >= 2 {
      assert Chain(x, s[Right(h)], s[Left(h, k)]) && Chain(x, s[Left(h, k)], s[Right(h)]);
    }
    if k < 2 || (cmp(x, s[Left(h, k)]) >= 0 && cmp(x, s[Right(h)]) >= 0) {
      ChildHeapsFrame(s, s[h := x], cmp, h, k);
    } else if cmp(s[Left(h, k)], s[Right(h)]) >= 0 {
      SiftedHeapLeft(s, cmp, h, k, x);
    } else {
      SiftedHeapRight(s, cmp, h, k, x);
    }
  }

  lemma {:induction false} SiftedHeapLeft<T(!new)>(s: seq<T>, cmp: (T, T) -> int, h: int, k: nat, x: T)
    requires TotalPreorder(cmp) && k >= 2 && Fits(s, h, k)
    requires Heap(s, cmp, Left(h, k), k - 1) && Heap(s, cmp, Right(h), k - 2)
    requires cmp(x, s[Left(h, k)]) <= 0 && cmp(s[Right(h)], s[Left(h, k)]) <= 0
    ensures Heap(Sifted(s[h := s[Left(h, k)]], cmp, Left(h, k), k - 1, x), cmp, h, k)
    decreases k, 0
  {
    var s' := s[h := s[Left(h, k)]];
    HeapFrame(s, s', cmp, Left(h, k), k - 1);
    SiftedHeap(s', cmp, Left(h, k), k - 1, x);
    SiftedInto(s, s', cmp, h, Left(h, k), k - 1, x);
    LeftReplaced(s, Sifted(s', cmp, Left(h, k), k - 1, x), cmp, h, k);
  }

  lemma {:induction false} SiftedHeapRight<T(!new)>(s: seq<T>, cmp: (T, T) -> int, h: int, k: nat, x: T)
    requires TotalPreorder(cmp) && k >= 2 && Fits(s, h, k)
    requires Heap(s, cmp, Left(h, k), k - 1) && Heap(s, cmp, Right(h), k - 2)
    requires cmp(x, s[Right(h)]) <= 0 && cmp(s[Left(h, k)], s[Right(h)]) <= 0
    ensures Heap(Sifted(s[h := s[Right(h)]], cmp, Right(h), k - 2, x), cmp, h, k)
    decreases k, 0
  {
    var s' := s[h := s[Right(h)]];
    HeapFrame(s, s', cmp, Right(h), k - 2);
    SiftedHeap(s', cmp, Right(h), k - 2, x);
    SiftedInto(s, s', cmp, h, Right(h), k - 2, x);
    RightReplaced(s, Sifted(s', cmp, Right(h), k - 2, x), cmp, h, k);
  }

  /** Replacing the left subtree by a heap with no larger root, under the old left root. */
  lemma LeftReplaced<T>(s: seq<T>, r: seq<T>, cmp: (T, T) -> int, h: int, k: nat)
    requires k >= 2 && Fits(s, h, k) && |r| == |s|
    requires Heap(r, cmp, Left(h, k), k - 1) && Heap(s, cmp, Right(h), k - 2)
    requires Agree(s, r, Left(h, k) + 1, h)
    requires r[h] == s[Left(h, k)] && cmp(r[Left(h, k)], r[h]) <= 0 && cmp(s[Right(h)], r[h]) <= 0
    ensures Heap(r, cmp, h, k)
  {
    HeapFrame(s, r, cmp, Right(h), k - 2);
  }

  lemma RightReplaced<T>(s: seq<T>, r: seq<T>, cmp: (T, T) -> int, h: int, k: nat)
    requires k >= 2 && Fits(s, h, k) && |r| == |s|
    requires Heap(s, cmp, Left(h, k), k - 1) && Heap(r, cmp, Right(h), k - 2)
    requires Agree(s, r, 0, Left(h, k) + 1)
    requires r[h] == s[Right(h)] && cmp(s[Left(h, k)], r[h]) <= 0 && cmp(r[Right(h)], r[h]) <= 0
    ensures Heap(r, cmp, h, k)
  {
    HeapFrame(s, r, cmp, Left(h, k), k - 1);
  }

  /** Moving the larger child c up to h and sifting x into c's tree leaves that tree below s[c]. */
  lemma SiftedInto<T(!new)>(s: seq<T>, s': seq<T>, cmp: (T, T) -> int, h: int, c: int, j: nat, x: T)
    requires TotalPreorder(cmp) && 0 <= c < h < |s| && Fits(s, c, j) && Heap(s, cmp, c, j)
    requires s' == s[h := s[c]] && cmp(x, s[c]) <= 0
    ensures Agree(s, Sifted(s', cmp, c, j, x), 0, c + 1 - L(j))
    ensures Agree(s, Sifted(s', cmp, c, j, x), c + 1, h)
    ensures Sifted(s', cmp, c, j, x)[h] == s[c]
    ensures cmp(Sifted(s', cmp, c, j, x)[c], s[c]) <= 0
  {
    SiftedFrame(s', cmp, c, j, x);
    HeapMax(s, cmp, c, j);
    SiftedAtMost(s', cmp, c, j, x, s[c]);
  }
}

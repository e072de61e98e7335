/** Smoothsort, in place (ukern/src/qsort.c). Elements are array slots of width one. */
module Smoothsort {
  import opened Words
  import opened OrderBits
  import opened LeonardoHeaps
  import opened LeonardoForests
  import opened ForestCode
  import opened SmoothsortSteps

  /** Slots of the pointer array ar in sift and trinkle. */
  const AR_SLOTS: nat := 113

  // ---- Rotation along a path ----

  predicate Falling(ar: seq<nat>, n: nat) {
    && (forall i :: 0 <= i < |ar| ==> ar[i] < n)
    && (forall i, j :: 0 <= i < j < |ar| ==> ar[j] < ar[i])
  }

  /** Each position of the path takes its successor's value, the last one takes x. */
  function Moved<T>(s: seq<T>, ar: seq<nat>, x: T): (r: seq<T>)
    requires ar != [] && Falling(ar, |s|)
    ensures |r| == |s|
    decreases |ar|
  {
    var n := |ar| - 1;
    if n == 0 then s[ar[0] := x] else Moved(s, ar[..n], s[ar[n]])[ar[n] := x]
  }

  lemma {:induction false} MovedFrame<T>(s: seq<T>, ar: seq<nat>, x: T)
    requires ar != [] && Falling(ar, |s|)
    ensures Agree(s, Moved(s, ar, x), 0, ar[|ar| - 1])
    decreases |ar|
  {
    var n := |ar| - 1;
    if n > 0 { MovedFrame(s, ar[..n], s[ar[n]]); }
  }

  method Cycle<T>(a: array<T>, ar: seq<nat>)
    requires ar != [] && Falling(ar, a.Length) && |ar| < AR_SLOTS
    modifies a
    ensures a[..] == Moved(old(a[..]), ar, old(a[ar[0]]))
  {
    if |ar| < 2 { return; }
    var tmp := a[ar[0]];
    ghost var s := a[..];
    a[ar[0]] := a[ar[1]];
    var i := 1;
    assert ar[..1] == [ar[0]];
    while i < |ar|
      invariant 1 <= i <= |ar|
      invariant a[..] == Moved(s, ar[..i], if i < |ar| then s[ar[i]] else tmp)
    {
      MovedFrame(s, ar[..i], s[ar[i]]);
      assert ar[..i + 1][..i] == ar[..i];
      a[ar[i]] := if i + 1 < |ar| then a[ar[i + 1]] else tmp;
      i := i + 1;
    }
    assert ar[..i] == ar;
  }

  /** Filling the hole at h of s with y is the rotation of s0 along ar that ends in y. */
  ghost predicate Tracks<T(!new)>(s0: seq<T>, ar: seq<nat>, s: seq<T>, h: int) {
    && ar != [] && Falling(ar, |s0|) && |s| == |s0| && h == ar[|ar| - 1]
    && Agree(s0, s, 0, h)
    && forall y :: Moved(s0, ar, y) == s[h := y]
  }

  lemma TracksNext<T(!new)>(s0: seq<T>, ar: seq<nat>, s: seq<T>, h: int, c: int)
    requires Tracks(s0, ar, s, h) && 0 <= c < h
    ensures Tracks(s0, ar + [c], s[h := s[c]], c)
  {
    forall y ensures Moved(s0, ar + [c], y) == s[h := s[c]][c := y] {
      assert (ar + [c])[..|ar|] == ar;
    }
  }

  // ---- sift ----

  predicate Table(lp: seq<nat>, k: nat) {
    k < |lp| && forall i :: 0 <= i < |lp| ==> lp[i] == L(i)
  }

  method Sift<T(!new)>(a: array<T>, head: nat, cmp: (T, T) -> int, pshift: nat, lp: seq<nat>)
    requires Fits(a[..], head, pshift) && Table(lp, pshift) && pshift <= TOP
    modifies a
    ensures a[..] == Sifted(old(a[..]), cmp, head, pshift, old(a[head]))
  {
    var ar: seq<nat>, h: nat, k: nat := [head], head, pshift;
    ghost var s0, x := a[..], a[head];
    ghost var s, goal := s0, Sifted(s0, cmp, head, pshift, x);
    while k > 1
      invariant a[..] == s0 && k <= pshift && |ar| + k <= pshift + 1 && ar != [] && ar[0] == head
      invariant Sinking(s0, ar, s, cmp, h, k, x, goal) == true
      decreases k
    {
      var rt, lf := h - 1, h - 1 - lp[k - 2];
      SinkStep(s0, ar, s, cmp, h, k, x, goal, lf, rt);
      if cmp(a[ar[0]], a[lf]) >= 0 && cmp(a[ar[0]], a[rt]) >= 0 { break; }
      if cmp(a[lf], a[rt]) >= 0 {
        s := s[h := s[lf]];
        ar, h, k := ar + [lf], lf, k - 1;
      } else {
        s := s[h := s[rt]];
        ar, h, k := ar + [rt], rt, k - 2;
      }
    }
    assert Sifted(s, cmp, h, k, x) == s[h := x] == Moved(s0, ar, x);
    Cycle(a, ar);
  }

  /** The hole has sunk along ar to h, the root of a tree of order k; what is left of the loop leads to goal. */
  ghost predicate Sinking<T(!new)>(s0: seq<T>, ar: seq<nat>, s: seq<T>, cmp: (T, T) -> int, h: int, k: nat, x: T, goal: seq<T>) {
    Tracks(s0, ar, s, h) && Fits(s, h, k) && Sifted(s, cmp, h, k, x) == goal
  }

  lemma SinkStep<T(!new)>(s0: seq<T>, ar: seq<nat>, s: seq<T>, cmp: (T, T) -> int, h: int, k: nat, x: T, goal: seq<T>,
                          lf: int, rt: int)
    requires Sinking(s0, ar, s, cmp, h, k, x, goal) && k >= 2 && lf == Left(h, k) && rt == Right(h)
    ensures 0 <= lf < rt < h < |s| && s0[lf] == s[lf] && s0[rt] == s[rt]
    ensures if cmp(x, s[lf]) >= 0 && cmp(x, s[rt]) >= 0 then goal == s[h := x]
      else if cmp(s[lf], s[rt]) >= 0 then Sinking(s0, ar + [lf], s[h := s[lf]], cmp, lf, k - 1, x, goal) == true
      else Sinking(s0, ar + [rt], s[h := s[rt]], cmp, rt, k - 2, x, goal) == true
  {
    SiftedStep(s, cmp, h, k, x);
    TracksNext(s0, ar, s, h, lf);
    TracksNext(s0, ar, s, h, rt);
  }

  // ---- trinkle ----

  /** Every order indexes the table and every gap is one that pntz can measure. */
  predicate Navigable(ks: Forest, slots: nat) {
    ks.Tree? ==>
      && ks.order < slots && Navigable(ks.left, slots)
      && (ks.left.Tree? ==> ks.left.order <= ks.order + 64)
  }

  function Trees(ks: Forest): (n: nat) {
    if ks.Empty? then 0 else 1 + Trees(ks.left)
  }

  lemma TreesBelow(ks: Forest, sh: nat)
    requires Rising(ks, sh)
    ensures ks.Tree? ==> Trees(ks) <= TOP + 1 - sh
  {
  }

  /** The two tests that end trinkle's loop while neighbours remain. */
  method StaysBelow<T>(a: array<T>, h: nat, cmp: (T, T) -> int, top: nat, pshift: nat, trusty: bool,
                       lp: seq<nat>, ghost qs: Forest) returns (stop: bool)
    requires Several(qs) && Covers(a[..], h, qs) && top < a.Length && pshift == qs.order && Table(lp, pshift)
    ensures stop == !Climbs(a[..], cmp, h, qs, a[top], trusty)
  {
    var stepson := h - lp[pshift];
    if cmp(a[stepson], a[top]) <= 0 { return true; }
    if !trusty && pshift > 1 {
      var rt, lf := h - 1, h - 1 - lp[pshift - 2];
      return cmp(a[rt], a[stepson]) >= 0 || cmp(a[lf], a[stepson]) >= 0;
    }
    return false;
  }

  /** The climb so far leads to the result of the whole: x is still to be inserted in qs at h. */
  ghost predicate Climbing<T(!new)>(s0: seq<T>, cmp: (T, T) -> int, goal: seq<T>, x: T, ar: seq<nat>, s: seq<T>, h: int,
                                    qs: Forest, trusty: bool) {
    && Tracks(s0, ar, s, h) && qs.Tree? && Covers(s, h, qs) && x == s0[ar[0]]
    && |ar| + Trees(qs) <= TOP + 2
    && (trusty ==> s == s0 && h == ar[0])
    && Trinkled(s, cmp, h, qs, x, trusty) == goal
  }

  lemma ClimbOn<T(!new)>(s0: seq<T>, cmp: (T, T) -> int, goal: seq<T>, x: T, ar: seq<nat>, s: seq<T>, h: int,
                         qs: Forest, trusty: bool, c: int)
    requires Climbing(s0, cmp, goal, x, ar, s, h, qs, trusty) && Climbs(s, cmp, h, qs, x, trusty) && c == h - L(qs.order)
    ensures c >= 0 && Climbing(s0, cmp, goal, x, ar + [c], s[h := s[c]], c, qs.left, false) == true
  {
    TrinkledStep(s, cmp, h, qs, x, trusty);
    TracksNext(s0, ar, s, h, c);
  }

  lemma ClimbEnd<T(!new)>(s0: seq<T>, cmp: (T, T) -> int, goal: seq<T>, x: T, ar: seq<nat>, s: seq<T>, h: int,
                          qs: Forest, trusty: bool)
    requires Climbing(s0, cmp, goal, x, ar, s, h, qs, trusty) && !Climbs(s, cmp, h, qs, x, trusty)
    ensures trusty ==> s0 == goal
    ensures !trusty ==> Fits(s, h, qs.order) && Sifted(Moved(s0, ar, x), cmp, h, qs.order, x) == goal
    ensures !trusty ==> Moved(s0, ar, x)[h] == x
  {
    TrinkledStep(s, cmp, h, qs, x, trusty);
    if trusty {
      assert s0[h := x] == s0;
    } else {
      SiftedOverwrites(s, cmp, h, qs.order, x, x);
      assert Moved(s0, ar, x) == s[h := x];
    }
  }

  method Trinkle<T(!new)>(a: array<T>, head: nat, cmp: (T, T) -> int, pp: Bits, pshift0: nat, trusty0: bool,
                          lp: seq<nat>, ghost ks: Forest)
    requires Encodes(pp, ks) && pshift0 == ks.order && Covers(a[..], head, ks)
    requires Table(lp, 0) && Navigable(ks, |lp|)
    modifies a
    ensures a[..] == Trinkled(old(a[..]), cmp, head, ks, old(a[head]), trusty0)
  {
    var p, pshift, trusty := pp, pshift0, trusty0;
    var ar: seq<nat>, h: nat := [head], head;
    ghost var s0, x, qs := a[..], a[head], ks;
    ghost var s, goal := s0, Trinkled(s0, cmp, head, ks, x, trusty0);
    TreesBelow(ks, ks.order);
    SingleTest(p, qs);
    while p != Bits(1, 0)
      invariant a[..] == s0 && ar != [] && ar[0] == head && Climbing(s0, cmp, goal, x, ar, s, h, qs, trusty) == true
      invariant Encodes(p, qs) && pshift == qs.order && Navigable(qs, |lp|)
      invariant p == Bits(1, 0) <==> qs.left.Empty?
      decreases qs
    {
      var stepson := h - lp[pshift];
      ClimbsFrame(s0, s, cmp, h, qs, x, trusty);
      var stop := StaysBelow(a, h, cmp, ar[0], pshift, trusty, lp, qs);
      if stop { break; }
      ClimbOn(s0, cmp, goal, x, ar, s, h, qs, trusty, stepson);
      NextTree(p, qs);
      s := s[h := s[stepson]];
      ar, h := ar + [stepson], stepson;
      var trail := PNtz(p);
      p, pshift, trusty := Shr(p, trail), pshift + trail, false;
      qs := qs.left;
    }
    ClimbEnd(s0, cmp, goal, x, ar, s, h, qs, trusty);
    if !trusty {
      Cycle(a, ar);
      Sift(a, h, cmp, pshift, lp);
    }
  }

  // ---- qsort ----

  lemma {:induction false} SpacedFits(ks: Forest, slots: nat)
    requires Spaced(ks) && Total(ks) <= LIMIT && slots >= 2 && Total(ks) <= L(slots - 1)
    ensures Navigable(ks, slots) && (ks.Tree? ==> Rising(ks, ks.order) && ks.order <= 66)
  {
    if ks.Tree? {
      LimitOrder(ks.order);
      LMonoAt(ks.order, slots - 1);
      SpacedFits(ks.left, slots);
      if ks.left.Tree? { LimitOrder(ks.left.order); }
    }
  }

  /** Every forest over at most LIMIT elements can be navigated with p, pshift and lp. */
  lemma ShapeFits(ks: Forest, slots: nat)
    requires Shape(ks) && Total(ks) <= LIMIT && slots >= 3 && Total(ks) <= L(slots - 1)
    ensures Navigable(ks, slots) && Rising(ks, ks.order)
  {
    LimitOrder(ks.order);
    LMonoAt(ks.order, slots - 1);
    SpacedFits(ks.left, slots);
    if ks.left.Tree? { LimitOrder(ks.left.order); }
  }

  /** pntz measures the gap to the next tree right in every forest over at most n elements. */
  ghost predicate GapsMeasured(n: nat) {
    forall ks: Forest, p: Bits :: Shape(ks) && Total(ks) <= n && Encodes(p, ks) && ks.left.Tree? ==>
      PNtz(p) == ks.left.order - ks.order
  }

  /** That holds exactly up to L(66) elements. */
  lemma GapLimit(n: nat)
    ensures GapsMeasured(n) <==> n <= LIMIT
  {
    if n <= LIMIT {
      forall ks: Forest, p: Bits | Shape(ks) && Total(ks) <= n && Encodes(p, ks) && ks.left.Tree?
        ensures PNtz(p) == ks.left.order - ks.order
      {
        var m := LimitIsLeonardo();
        assert Total(ks) <= L(m);
        ShapeFits(ks, m + 1);
        GapFound(p, ks);
      }
    } else {
      var ks, p := WideGap();
    }
  }

  /** A tree of order 66 and a single element after it: pntz answers 64 where the gap is 65. */
  lemma WideGap() returns (ks: Forest, p: Bits)
    ensures Shape(ks) && ks.order == 1 && Total(ks) == LIMIT + 1 && Encodes(p, ks) && ks.left.Tree?
    ensures PNtz(p) == 64 && ks.left.order - ks.order == 65
  {
    var m := LimitIsLeonardo();
    ks := Tree(1, Tree(m, Empty));
    assert Total(ks) == L(1) + (L(m) + Total(Empty));
    p := TwoTreesFar(1, m);
  }

  /** In every run over more elements, the draining loop comes to this forest and misreads it. */
  lemma GapMissed(ks: Forest, p: Bits)
    requires Shape(ks) && Base(ks, LIMIT) == -1 && Encodes(p, ks)
    ensures ks.order <= 1 && ks.left.Tree? && PNtz(p) == 64 && ks.left.order - ks.order == 65
  {
    var w, q := WideGap();
    BaseTotal(w, LIMIT);
    OneForest(ks, w, LIMIT);
    GapFound(p, ks);
    EncHead(ks);
    EncNext(ks);
    PNtzFar(p, 65, Enc(ks.left, ks.left.order));
  }

  /** The precomputed table reaches the first Leonardo number that is at least n. */
  method LeonardoNumbers(n: nat) returns (lp: seq<nat>)
    requires n <= LIMIT
    ensures 3 <= |lp| <= 67 && Table(lp, 0) && n <= L(|lp| - 1)
  {
    lp := [1, 1];
    while true
      invariant 2 <= |lp| <= 66 && Table(lp, 0)
      decreases 66 - |lp|
    {
      var i := |lp|;
      assert L(i) == lp[i - 2] + lp[i - 1] + 1;
      LimitOrder(i);
      lp := lp + [lp[i - 2] + lp[i - 1] + 1];
      if lp[i] >= n { break; }
    }
  }

  /** p and pshift describe ks, and every tree of ks can be reached with them. */
  predicate Described(p: Bits, pshift: nat, ks: Forest, slots: nat) {
    Encodes(p, ks) && pshift == ks.order && Navigable(ks, slots) && pshift <= TOP
  }

  /** The table serves every forest over n elements. */
  predicate Serves(lp: seq<nat>, n: nat) {
    n <= LIMIT && |lp| >= 3 && Table(lp, 0) && n <= L(|lp| - 1)
  }

  /** Every forest over the elements up to h can be navigated. */
  lemma ShapeServed(ks: Forest, h: int, lp: seq<nat>, n: nat)
    requires Shape(ks) && Base(ks, h) == -1 && h < n && Serves(lp, n)
    ensures Navigable(ks, |lp|) && Rising(ks, ks.order)
  {
    BaseTotal(ks, h);
    ShapeFits(ks, |lp|);
  }

  /** The array part of a building round: place the root at head. */
  method PlaceRoot<T(!new)>(a: array<T>, cmp: (T, T) -> int, lp: seq<nat>, head: nat, p: Bits, pshift: nat, ghost ks: Forest)
    requires Shape(ks) && Covers(a[..], head, ks) && head < a.Length - 1
    requires Table(lp, 0) && Described(p, pshift, ks, |lp|)
    modifies a
    ensures a[..] == Placed(old(a[..]), cmp, head, ks, a.Length - 1)
  {
    var high := a.Length - 1;
    PairTest(p, ks);
    if BitAnd(p.lo, 3) == 3 {
      Sift(a, head, cmp, pshift, lp);
    } else if lp[pshift - 1] >= high - head {
      Trinkle(a, head, cmp, p, pshift, false, lp, ks);
    } else {
      Sift(a, head, cmp, pshift, lp);
    }
  }

  /** The bookkeeping part of a building round; g is the forest after it. */
  method Advance(p: Bits, pshift: nat, lp: seq<nat>, ghost ks: Forest, ghost g: Forest) returns (p': Bits, pshift': nat)
    requires Shape(ks) && g == Grown(ks) && Described(p, pshift, ks, |lp|)
    requires Navigable(g, |lp|) && Rising(g, g.order)
    ensures Described(p', pshift', g, |lp|)
  {
    PairTest(p, ks);
    if BitAnd(p.lo, 3) == 3 {
      MergePair(p, ks);
      p', pshift' := Shr(p, 2), pshift + 2;
    } else {
      PushTree(p, ks, g.order);
      if pshift == 1 {
        p', pshift' := Shl(p, 1), 0;
      } else {
        p', pshift' := Shl(p, pshift - 1), 1;
      }
    }
    p' := SetLow(p');
  }

  /** Between two rounds of the building loop: what is left of it leads to goal. */
  ghost predicate Builds<T>(s: seq<T>, cmp: (T, T) -> int, lp: seq<nat>, head: int, p: Bits, pshift: nat, ks: Forest,
                            goal: (seq<T>, Forest)) {
    && Shape(ks) && Covers(s, head, ks) && Serves(lp, |s|) && Described(p, pshift, ks, |lp|)
    && Built(s, cmp, head, ks) == goal
  }

  lemma BuildReady<T>(s: seq<T>, cmp: (T, T) -> int, lp: seq<nat>, head: int, p: Bits, pshift: nat, ks: Forest,
                      goal: (seq<T>, Forest)) returns (r: seq<T>, f: Forest)
    requires Builds(s, cmp, lp, head, p, pshift, ks, goal) && head < |s| - 1
    ensures f == Grown(ks) && r == Placed(s, cmp, head, ks, |s| - 1) && |r| == |s|
    ensures Navigable(f, |lp|) && Rising(f, f.order)
    ensures Covers(r, head + 1, f) && Built(r, cmp, head + 1, f) == goal
  {
    r, f := BuiltStep(s, cmp, head, ks);
    ShapeServed(f, head + 1, lp, |s|);
  }

  /** One round of the building loop. */
  method BuildRound<T(!new)>(a: array<T>, cmp: (T, T) -> int, lp: seq<nat>, head: nat, p: Bits, pshift: nat,
                             ghost ks: Forest, ghost goal: (seq<T>, Forest)) returns (p': Bits, pshift': nat, ghost f: Forest)
    requires head < a.Length - 1 && Builds(a[..], cmp, lp, head, p, pshift, ks, goal) == true
    modifies a
    ensures Builds(a[..], cmp, lp, head + 1, p', pshift', f, goal) == true
  {
    ghost var r;
    r, f := BuildReady(a[..], cmp, lp, head, p, pshift, ks, goal);
    PlaceRoot(a, cmp, lp, head, p, pshift, ks);
    p', pshift' := Advance(p, pshift, lp, ks, f);
  }

  method Build<T(!new)>(a: array<T>, cmp: (T, T) -> int, lp: seq<nat>) returns (p: Bits, pshift: nat, ghost ks: Forest)
    requires 0 < a.Length && Serves(lp, a.Length)
    modifies a
    ensures (a[..], ks) == Built(old(a[..]), cmp, 0, Tree(1, Empty))
    ensures Described(p, pshift, ks, |lp|)
  {
    var head, high := 0, a.Length - 1;
    p, pshift, ks := Bits(1, 0), 1, Tree(1, Empty);
    ghost var goal := Built(a[..], cmp, 0, ks);
    FirstTree(lp);
    while head < high
      invariant 0 <= head <= high && Builds(a[..], cmp, lp, head, p, pshift, ks, goal) == true
    {
      p, pshift, ks := BuildRound(a, cmp, lp, head, p, pshift, ks, goal);
      head := head + 1;
    }
  }

  lemma FirstTree(lp: seq<nat>)
    requires |lp| >= 3
    ensures Described(Bits(1, 0), 1, Tree(1, Empty), |lp|) && Base(Tree(1, Empty), 0) == -1
  {
    OneTree(1);
    assert Base(Tree(1, Empty), 0) == Base(Empty, 0 - L(1));
  }

  /** Removing the root of a tree of order 2 or more: its subtrees join the forest. */
  method SplitRoot<T(!new)>(a: array<T>, cmp: (T, T) -> int, lp: seq<nat>, head: nat, p: Bits, q: Bits, pshift: nat, ghost ks: Forest)
    requires Shape(ks) && ks.order >= 2 && Covers(a[..], head, ks) && pshift == ks.order - 2 && Table(lp, 0)
    requires Described(p, pshift + 1, Split(ks).left, |lp|) && Described(q, pshift, Split(ks), |lp|)
    modifies a
    ensures a[..] == SplitBoth(old(a[..]), cmp, head, ks)
  {
    SplitBase(ks, head);
    assert lp[pshift] == L(ks.order - 2);
    var lf := head - lp[pshift] - 1;
    assert lf == Left(head, ks.order);
    Trinkle(a, lf, cmp, p, pshift + 1, true, lp, Split(ks).left);
    assert a[..] == SplitLeft(old(a[..]), cmp, head, ks);
    Trinkle(a, head - 1, cmp, q, pshift, true, lp, Split(ks));
  }

  lemma SplitDescribed(p: Bits, pshift: nat, ks: Forest, slots: nat)
    requires Shape(ks) && Described(p, pshift, ks, slots) && pshift >= 2 && Navigable(Split(ks), slots)
    ensures var q := Shr(Flip(Shl(p, 2)), 1);
      && Described(q, pshift - 1, Split(ks).left, slots)
      && Described(SetLow(Shl(q, 1)), pshift - 2, Split(ks), slots)
  {
    ExposeLeft(p, ks);
    PushTree(Shr(Flip(Shl(p, 2)), 1), Split(ks).left, pshift - 2);
  }

  /** One round of the draining loop; f is the forest after it. */
  method RemoveHead<T(!new)>(a: array<T>, cmp: (T, T) -> int, lp: seq<nat>, head: nat, p: Bits, pshift: nat,
                             ghost ks: Forest, ghost f: Forest) returns (p': Bits, pshift': nat)
    requires Shape(ks) && Covers(a[..], head, ks) && Table(lp, 0) && Described(p, pshift, ks, |lp|)
    requires ks != Tree(1, Empty) && f == Shrunk(ks) && Navigable(f, |lp|)
    modifies a
    ensures a[..] == Removed(old(a[..]), cmp, head, ks)
    ensures Described(p', pshift', f, |lp|)
  {
    if pshift <= 1 {
      NextTree(p, ks);
      var trail := PNtz(p);
      p', pshift' := Shr(p, trail), pshift + trail;
    } else {
      SplitDescribed(p, pshift, ks, |lp|);
      var q := Shr(Flip(Shl(p, 2)), 1);
      p', pshift' := SetLow(Shl(q, 1)), pshift - 2;
      SplitRoot(a, cmp, lp, head, q, p', pshift', ks);
    }
  }

  /** The loop's test: p is 1 and pshift is 1 exactly when one tree of order 1 is left. */
  lemma LastTest(p: Bits, pshift: nat, ks: Forest)
    requires Shape(ks) && Encodes(p, ks) && pshift == ks.order
    ensures pshift == 1 && p == Bits(1, 0) <==> ks == Tree(1, Empty)
  {
    SingleTest(p, ks);
  }

  /** Between two rounds of the draining loop: what is left of it leads to goal. */
  ghost predicate Drains<T>(s: seq<T>, cmp: (T, T) -> int, lp: seq<nat>, head: int, p: Bits, pshift: nat, ks: Forest,
                            goal: seq<T>) {
    && Shape(ks) && Covers(s, head, ks) && Serves(lp, |s|) && Described(p, pshift, ks, |lp|)
    && Drained(s, cmp, head, ks) == goal
  }

  lemma DrainReady<T>(s: seq<T>, cmp: (T, T) -> int, lp: seq<nat>, head: int, p: Bits, pshift: nat, ks: Forest,
                      goal: seq<T>, next: int) returns (r: seq<T>, f: Forest)
    requires Drains(s, cmp, lp, head, p, pshift, ks, goal) && (pshift != 1 || p != Bits(1, 0)) && next == head - 1
    ensures ks != Tree(1, Empty) && f == Shrunk(ks) && r == Removed(s, cmp, head, ks) && |r| == |s|
    ensures next >= 0 && Shape(f) && Navigable(f, |lp|) && Covers(r, next, f) && Drained(r, cmp, next, f) == goal
  {
    LastTest(p, pshift, ks);
    r, f := DrainedStep(s, cmp, head, ks);
    ShapeServed(f, next, lp, |s|);
  }

  lemma DrainDone<T>(s: seq<T>, cmp: (T, T) -> int, lp: seq<nat>, head: int, p: Bits, pshift: nat, ks: Forest, goal: seq<T>)
    requires Drains(s, cmp, lp, head, p, pshift, ks, goal) && pshift == 1 && p == Bits(1, 0)
    ensures s == goal
  {
    LastTest(p, pshift, ks);
  }

  /** One round of the draining loop. */
  method DrainRound<T(!new)>(a: array<T>, cmp: (T, T) -> int, lp: seq<nat>, head: nat, p: Bits, pshift: nat,
                             ghost ks: Forest, ghost goal: seq<T>) returns (head': nat, p': Bits, pshift': nat, ghost f: Forest)
    requires Drains(a[..], cmp, lp, head, p, pshift, ks, goal) == true && (pshift != 1 || p != Bits(1, 0))
    modifies a
    ensures head' < head && Drains(a[..], cmp, lp, head', p', pshift', f, goal) == true
  {
    ghost var r;
    var next := head - 1;
    r, f := DrainReady(a[..], cmp, lp, head, p, pshift, ks, goal, next);
    p', pshift' := RemoveHead(a, cmp, lp, head, p, pshift, ks, f);
    head' := next;
  }

  method Drain<T(!new)>(a: array<T>, cmp: (T, T) -> int, lp: seq<nat>, p0: Bits, pshift0: nat, ghost ks0: Forest)
    requires 0 < a.Length && Shape(ks0) && Covers(a[..], a.Length - 1, ks0)
    requires Serves(lp, a.Length) && Described(p0, pshift0, ks0, |lp|)
    modifies a
    ensures a[..] == Drained(old(a[..]), cmp, a.Length - 1, ks0)
  {
    var head: nat, p, pshift := a.Length - 1, p0, pshift0;
    ghost var ks, goal := ks0, Drained(a[..], cmp, a.Length - 1, ks0);
    while pshift != 1 || p != Bits(1, 0)
      invariant Drains(a[..], cmp, lp, head, p, pshift, ks, goal) == true
      decreases head
    {
      head, p, pshift, ks := DrainRound(a, cmp, lp, head, p, pshift, ks, goal);
    }
    DrainDone(a[..], cmp, lp, head, p, pshift, ks, goal);
  }

  /** The array ends sorted and holds the elements it held before. */
  method QSort<T(!new)>(a: array<T>, cmp: (T, T) -> int)
    requires TotalPreorder(cmp) && a.Length <= LIMIT
    modifies a
    ensures Sorted(a[..], cmp)
    ensures multiset(a[..]) == multiset(old(a[..]))
  {
    SmoothSortedSorts(a[..], cmp);
    SmoothSort(a, cmp);
  }

  method SmoothSort<T(!new)>(a: array<T>, cmp: (T, T) -> int)
    requires a.Length <= LIMIT
    modifies a
    ensures a[..] == SmoothSorted(old(a[..]), cmp)
  {
    if a.Length == 0 { return; }
    var lp := LeonardoNumbers(a.Length);
    var p, pshift, ks := Build(a, cmp, lp);
    Trinkle(a, a.Length - 1, cmp, p, pshift, false, lp, ks);
    Drain(a, cmp, lp, p, pshift, ks);
  }
}

/** The bit vector p, read with its shift, as the forest of tree orders it encodes. */
module ForestCode {
  import opened Words
  import opened OrderBits
  import opened LeonardoForests

  /** No order in a forest that fits memory comes near this bound. */
  const TOP: nat := 100

  /** Orders rise from right to left, start at sh or more and stay within TOP. */
  predicate Rising(ks: Forest, sh: nat) {
    ks.Tree? ==> sh <= ks.order <= TOP && Rising(ks.left, ks.order + 1)
  }

  /** Bit k - sh is set for every order k of the forest. */
  function Enc(ks: Forest, sh: nat): (r: nat)
    requires Rising(ks, sh)
  {
    if ks.Empty? then 0 else RisingDown(ks.left, ks.order + 1, sh); Pow2(ks.order - sh) + Enc(ks.left, sh)
  }

  /** p, with shift ks.order, encodes the forest ks. */
  predicate Encodes(p: Bits, ks: Forest) {
    && ks.Tree? && Rising(ks, ks.order)
    && Valid(p) && Val(p) == Enc(ks, ks.order)
  }

  lemma RisingDown(ks: Forest, sh: nat, sh': nat)
    requires Rising(ks, sh) && sh' <= sh
    ensures Rising(ks, sh')
  {
  }

  lemma {:induction false} EncShift(ks: Forest, sh: nat, d: nat, sh': nat)
    requires sh + d == sh' && Rising(ks, sh')
    ensures Rising(ks, sh) && Enc(ks, sh) == Pow2(d) * Enc(ks, sh')
  {
    if ks.Tree? {
      RisingDown(ks.left, ks.order + 1, sh');
      EncShift(ks.left, sh, d, sh');
      Pow2Add(d, ks.order - sh');
      MulAdd(Pow2(d), Pow2(ks.order - sh'), Enc(ks.left, sh'));
    }
  }

  lemma MulAdd(d: int, a: int, b: int)
    ensures d * (a + b) == d * a + d * b
  {
  }

  lemma {:induction false} EncBelow(ks: Forest, sh: nat)
    requires ks.Tree? && Rising(ks, sh)
    ensures sh <= TOP && Enc(ks, sh) + Pow2(ks.order - sh) <= Pow2(TOP + 1 - sh)
  {
    if ks.left.Empty? {
      Pow2Mono(ks.order + 1 - sh, TOP + 1 - sh);
    } else {
      RisingDown(ks.left, ks.order + 1, sh);
      EncBelow(ks.left, sh);
      Pow2Mono(ks.order + 1 - sh, ks.left.order - sh);
    }
  }

  /** A forest read at its own first order is 1 plus an even number. */
  lemma EncHead(ks: Forest)
    requires ks.Tree? && Rising(ks, ks.order)
    ensures Rising(ks.left, ks.order) && Enc(ks, ks.order) == 1 + Enc(ks.left, ks.order)
    ensures Enc(ks.left, ks.order) == 2 * Enc(ks.left, ks.order + 1)
  {
    RisingDown(ks.left, ks.order + 1, ks.order);
    EncShift(ks.left, ks.order, 1, ks.order + 1);
    assert Pow2(1) == 2;
  }

  /** The distance to the next tree, factored out of the rest of the code. */
  lemma EncNext(ks: Forest)
    requires Several(ks) && Rising(ks, ks.order)
    ensures var t := ks.left;
      && t.order > ks.order
      && Rising(t, t.order) && Rising(t, ks.order)
      && Enc(t, ks.order) == Pow2(t.order - ks.order) * Enc(t, t.order)
      && Enc(t, t.order) % 2 == 1
  {
    EncShift(ks.left, ks.order, ks.left.order - ks.order, ks.left.order);
    EncHead(ks.left);
  }

  // ---- The tests on p ----

  /** p is 1 exactly when a single tree is left. */
  lemma SingleTest(p: Bits, ks: Forest)
    requires Encodes(p, ks)
    ensures p == Bits(1, 0) <==> ks.left.Empty?
  {
    EncHead(ks);
    if ks.left.Tree? {
      EncNext(ks);
      MulMono(Enc(ks.left, ks.left.order), Pow2(ks.left.order - ks.order));
    }
  }

  lemma LowTwo(x: nat)
    ensures BitAnd(x, 3) == x % 4
  {
    assert BitAnd(x / 2, 1) == x / 2 % 2;
  }

  lemma LowOne(x: nat)
    ensures BitOr(x, 1) == if x % 2 == 0 then x + 1 else x
  {
    BitOrZero(x / 2);
  }

  lemma XorSeven(x: nat)
    requires x % 8 == 4
    ensures BitXor(x, 7) == x - 1
  {
    BitOrZero(x / 8);
    assert x / 4 / 2 == x / 8 && x / 2 / 2 == x / 4;
    assert BitXor(x / 4, 1) == x / 4 - 1;
    assert BitXor(x / 2, 3) == x / 2 - 1;
  }

  lemma PairCode(ks: Forest)
    requires ks.Tree? && Rising(ks, ks.order)
    ensures Enc(ks, ks.order) % 4 == 3 <==> ks.left.Tree? && ks.left.order == ks.order + 1
  {
    EncHead(ks);
    if ks.left.Tree? {
      if ks.left.order == ks.order + 1 {
        EncHead(ks.left);
        ModUnique(Enc(ks, ks.order), 4, Enc(ks.left.left, ks.order + 2), 3);
      } else {
        EncShift(ks.left, ks.order + 1, 1, ks.order + 2);
        assert Pow2(1) == 2;
        ModUnique(Enc(ks, ks.order), 4, Enc(ks.left, ks.order + 2), 1);
      }
    }
  }

  lemma ValMod4(p: Bits)
    requires Valid(p)
    ensures Val(p) % 4 == p.lo % 4
  {
    ModUnique(Val(p), 4, p.lo / 4 + 0x4000_0000_0000_0000 * p.hi, p.lo % 4);
  }

  /** The low two bits are 11 exactly when the two rightmost trees have consecutive orders. */
  lemma PairTest(p: Bits, ks: Forest)
    requires Encodes(p, ks)
    ensures BitAnd(p.lo, 3) == 3 <==> ks.left.Tree? && ks.left.order == ks.order + 1
  {
    LowTwo(p.lo);
    ValMod4(p);
    PairCode(ks);
  }

  // ---- The updates of p ----

  function SetLow(p: Bits): (r: Bits) {
    p.(lo := BitOr(p.lo, 1))
  }

  function Flip(p: Bits): (r: Bits) {
    p.(lo := BitXor(p.lo, 7))
  }

  lemma SetLowValue(p: Bits)
    requires Valid(p) && Val(p) % 2 == 0
    ensures Valid(SetLow(p)) && Val(SetLow(p)) == Val(p) + 1
  {
    LowOne(p.lo);
  }

  /** Setting the low bit adds a tree of the shift's own order. */
  lemma AddTree(p: Bits, ks: Forest, k: nat)
    requires Valid(p) && k <= TOP && Rising(ks, k + 1) && Rising(ks, k) && Val(p) == Enc(ks, k)
    ensures Encodes(SetLow(p), Tree(k, ks))
  {
    EncHead(Tree(k, ks));
    SetLowValue(p);
  }

  lemma FlipValue(p: Bits)
    requires Valid(p) && Val(p) % 8 == 4
    ensures Valid(Flip(p)) && Val(Flip(p)) == Val(p) - 1
  {
    DivUnique(Val(p), 8, p.lo / 8 + 0x2000_0000_0000_0000 * p.hi, p.lo % 8);
    XorSeven(p.lo);
  }

  lemma Headroom(p: Bits, ks: Forest, n: nat)
    requires Encodes(p, ks) && n <= ks.order
    ensures n < 128 && Val(p) < Pow2(128 - n)
  {
    EncBelow(ks, ks.order);
    Pow2Mono(TOP + 1 - ks.order, 128 - n);
  }

  /** Shifting left by n rereads the forest at a shift lower by n. */
  lemma Reread(p: Bits, ks: Forest, n: nat)
    requires Encodes(p, ks) && 0 < n <= ks.order
    ensures Valid(Shl(p, n)) && Rising(ks, ks.order - n) && Val(Shl(p, n)) == Enc(ks, ks.order - n)
  {
    Headroom(p, ks, n);
    ShlValue(p, n, Enc(ks, ks.order));
    EncShift(ks, ks.order - n, n, ks.order);
  }

  /** A new tree of order j below the first: shl by ks.order - j, then set the low bit. */
  lemma PushTree(p: Bits, ks: Forest, j: nat)
    requires Encodes(p, ks) && j < ks.order
    ensures Encodes(SetLow(Shl(p, ks.order - j)), Tree(j, ks))
  {
    Reread(p, ks, ks.order - j);
    AddTree(Shl(p, ks.order - j), ks, j);
  }

  /** shr by the distance to the next tree drops the rightmost tree. */
  lemma DropTree(p: Bits, ks: Forest)
    requires Encodes(p, ks) && ks.left.Tree?
    ensures 0 < ks.left.order - ks.order < 128
    ensures Encodes(Shr(p, ks.left.order - ks.order), ks.left)
  {
    var g := ks.left.order - ks.order;
    EncHead(ks);
    EncNext(ks);
    ShrValue(p, g);
    assert 1 < Pow2(g);
    DivUnique(Val(p), Pow2(g), Enc(ks.left, ks.left.order), 1);
  }

  /** The distance that pntz returns is right for every gap up to 64. */
  lemma GapFound(p: Bits, ks: Forest)
    requires Encodes(p, ks) && ks.left.Tree?
    ensures PNtz(p) == ks.left.order - ks.order <==> ks.left.order - ks.order <= 64
  {
    EncHead(ks);
    EncNext(ks);
    PNtzExact(p, ks.left.order - ks.order, Enc(ks.left, ks.left.order));
  }

  /** shr by pntz moves on to the left neighbour when the gap is at most 64. */
  lemma NextTree(p: Bits, ks: Forest)
    requires Encodes(p, ks) && ks.left.Tree? && ks.left.order <= ks.order + 64
    ensures PNtz(p) == ks.left.order - ks.order && 0 < PNtz(p) < 128
    ensures Encodes(Shr(p, PNtz(p)), ks.left)
    ensures Shr(p, PNtz(p)) == Bits(1, 0) <==> ks.left.left.Empty?
  {
    GapFound(p, ks);
    DropTree(p, ks);
    SingleTest(Shr(p, PNtz(p)), ks.left);
  }

  /** Two consecutive trees and a new root: shr by 2, then set the low bit. */
  lemma MergePair(p: Bits, ks: Forest)
    requires Encodes(p, ks) && ks.left.Tree? && ks.left.order == ks.order + 1
    requires ks.order + 2 <= TOP && Rising(ks.left.left, ks.order + 3)
    ensures Encodes(SetLow(Shr(p, 2)), Tree(ks.order + 2, ks.left.left))
  {
    var k, t := ks.order, ks.left.left;
    EncHead(ks);
    EncHead(ks.left);
    EncShift(t, k + 1, 1, k + 2);
    assert Pow2(1) == 2 && Pow2(2) == 4;
    ShrValue(p, 2);
    RisingDown(t, k + 3, k + 2);
    assert Val(Shr(p, 2)) == Enc(t, k + 2) by { DivUnique(Val(p), 4, Enc(t, k + 2), 3); }
    AddTree(Shr(p, 2), t, k + 2);
  }

  /** Removing the root of a tree of order k >= 2 first exposes its left subtree. */
  lemma ExposeLeft(p: Bits, ks: Forest)
    requires Encodes(p, ks) && ks.order >= 2
    ensures Encodes(Shr(Flip(Shl(p, 2)), 1), Tree(ks.order - 1, ks.left))
  {
    LeftCode(ks);
    Headroom(p, ks, 2);
    var e := Enc(ks.left, ks.order + 1);
    Quadruple(p, e);
    FlipHalf(Shl(p, 2), e);
  }

  lemma LeftCode(ks: Forest)
    requires ks.Tree? && ks.order >= 2 && Rising(ks, ks.order)
    ensures Enc(ks, ks.order) == 1 + 2 * Enc(ks.left, ks.order + 1)
    ensures Rising(Tree(ks.order - 1, ks.left), ks.order - 1)
    ensures Enc(Tree(ks.order - 1, ks.left), ks.order - 1) == 1 + 4 * Enc(ks.left, ks.order + 1)
  {
    EncHead(ks);
    EncHead(Tree(ks.order - 1, ks.left));
  }

  lemma Quadruple(p: Bits, e: nat)
    requires Valid(p) && Val(p) == 1 + 2 * e < Pow2(126)
    ensures Valid(Shl(p, 2)) && Val(Shl(p, 2)) == 4 + 8 * e
  {
    ShlValue(p, 2, 1 + 2 * e);
    assert Pow2(2) == 4;
  }

  lemma FlipHalf(p: Bits, e: nat)
    requires Valid(p) && Val(p) == 4 + 8 * e
    ensures Valid(Shr(Flip(p), 1)) && Val(Shr(Flip(p), 1)) == 1 + 4 * e
  {
    var v := 1 + 4 * e;
    DivUnique(Val(p), 8, e, 4);
    FlipValue(p);
    HalveOdd(Flip(p), v);
  }

  lemma HalveOdd(p: Bits, v: nat)
    requires Valid(p) && Val(p) == 2 * v + 1
    ensures Valid(Shr(p, 1)) && Val(Shr(p, 1)) == v
  {
    ShrValue(p, 1);
    assert Pow2(1) == 2;
  }

  lemma OneTree(k: nat)
    requires k <= TOP
    ensures Encodes(Bits(1, 0), Tree(k, Empty))
  {
    EncHead(Tree(k, Empty));
  }

  /** Two trees with more than 64 orders between them: pntz stops at 64. */
  lemma TwoTreesFar(j: nat, k: nat) returns (p: Bits)
    requires j + 64 < k <= TOP
    ensures Encodes(p, Tree(j, Tree(k, Empty))) && PNtz(p) == 64
  {
    var t := Tree(k, Empty);
    OneTree(k);
    PushTree(Bits(1, 0), t, j);
    p := SetLow(Shl(Bits(1, 0), k - j));
    EncHead(Tree(j, t));
    EncNext(Tree(j, t));
    PNtzFar(p, k - j, Enc(t, k));
  }
}

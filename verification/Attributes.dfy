/** What the attribute bits of descriptors say, bit by bit (ukern/inc/stage1.h, ukern/inc/memattr.h,
    ukern/src/pagetable.c:42-211). */
module Attributes {
  import opened Words
  import opened Descriptors

  // ---- Flags ----

  predicate Read(flags: nat) { Bit(flags, 20) }
  predicate Writable(flags: nat) { Bit(flags, 21) }
  predicate Exec(flags: nat) { Bit(flags, 22) }
  predicate Kernel(flags: nat) { Bit(flags, 13) }

  // ---- Entries ----

  /** The memory type a descriptor selects. */
  function TypeOf(flags: nat): (k: nat) {
    var type' := flags % 16;
    if type' == 4 then 3 else if type' == 1 then 0 else if type' == 8 then 5 else 4
  }

  /** Every bit of a page or block descriptor outside its address field. */
  ghost predicate Permits(e: nat, flags: nat) {
    && e / 4 % 8 == TypeOf(flags)                                             // 2 to 4: memory type
    && Bit(e, 5) && Bit(e, 8) && Bit(e, 9) && Bit(e, 10)                      // non-secure, inner shareable, accessed
    && (Bit(e, 6) <==> !Kernel(flags))                                        // user access
    && (Bit(e, 7) <==> Read(flags) && !Writable(flags))                       // read only
    && (Bit(e, 11) <==> !Kernel(flags))                                       // not global
    && !Bit(e, 51) && !Bit(e, 52)
    && (Bit(e, 53) <==> !Exec(flags)) && (Bit(e, 54) <==> !Exec(flags))       // never executed
    && (Bit(e, 55) <==> Bit(flags, 8)) && (Bit(e, 56) <==> Bit(flags, 11))    // frame and device maps
    && (Bit(e, 57) <==> Bit(flags, 12) || Bit(flags, 16))                     // shared, or of a memory object
    && e < 0x400_0000_0000_0000
  }

  /** Every bit of a table descriptor outside its address field: 60 and 61 keep users out below it. */
  ghost predicate Limits(e: nat, flags: nat) {
    && e % 4096 == 3 && !(exists i: nat :: 48 <= i < 60 && Bit(e, i))
    && (Bit(e, 60) <==> Kernel(flags)) && (Bit(e, 61) <==> Kernel(flags)) && e < 0x4000_0000_0000_0000
  }

  // ---- Masks ----

  lemma Shifted(flags: nat, k: nat, m: nat, d: nat)
    requires Pow2(k) == d
    ensures BitAnd(flags, m * d) == d * BitAnd(WordShr(flags, k), m)
  {
    AndScaled(flags, m, k);
  }

  lemma FlagSizes()
    ensures Pow2(8) == 0x100 && Pow2(11) == 0x800 && Pow2(12) == 0x1000 && Pow2(13) == 0x2000
    ensures Pow2(20) == 0x10_0000 && Pow2(22) == 0x40_0000
  {
    assert Pow2(8) == 0x100 && Pow2(11) == 0x800 && Pow2(12) == 0x1000;
    Pow2Add(12, 8);
    Pow2Add(11, 11);
  }

  lemma AndOne(y: nat)
    ensures BitAnd(y, 1) == y % 2
  {
    AndStep(y, 1);
    AndZero(y / 2);
  }

  /** A mask of one bit. */
  lemma HasBit(flags: nat, k: nat, d: nat)
    requires Pow2(k) == d
    ensures Has(flags, d) <==> Bit(flags, k)
  {
    Shifted(flags, k, 1, d);
    AndOne(WordShr(flags, k));
  }

  lemma AndThree(y: nat)
    ensures BitAnd(y, 3) == 1 <==> y % 2 == 1 && y / 2 % 2 == 0
  {
    AndStep(y, 3);
    AndOne(y / 2);
  }

  /** Read without write. */
  lemma ReadOnly(flags: nat)
    ensures BitAnd(flags, VM_RW_MASK) == VM_READ <==> Read(flags) && !Writable(flags)
  {
    FlagSizes();
    Shifted(flags, 20, 3, 0x10_0000);
    var y := WordShr(flags, 20);
    AndThree(y);
    BitShr(flags, 20, 1);
    assert Bit(y, 1) <==> y / 2 % 2 == 1 by { BitNext(y, 0); BitZero(y / 2); }
  }

  lemma AndSeventeen(y: nat)
    ensures BitAnd(y, 17) == 0 <==> y % 2 == 0 && y / 2 / 2 / 2 / 2 % 2 == 0
  {
    AndStep(y, 17);
    AndStep(y / 2, 8);
    AndStep(y / 2 / 2, 4);
    AndStep(y / 2 / 2 / 2, 2);
    AndOne(y / 2 / 2 / 2 / 2);
  }

  lemma SharedBits(flags: nat)
    ensures Has(flags, VM_SHARED_PMA) <==> Bit(flags, 12) || Bit(flags, 16)
  {
    FlagSizes();
    Shifted(flags, 12, 17, 0x1000);
    var y := WordShr(flags, 12);
    AndSeventeen(y);
    BitShr(flags, 12, 4);
    assert Bit(y, 4) <==> y / 2 / 2 / 2 / 2 % 2 == 1 by {
      BitNext(y, 3);
      BitNext(y / 2, 2);
      BitNext(y / 2 / 2, 1);
      BitNext(y / 2 / 2 / 2, 0);
      BitZero(y / 2 / 2 / 2 / 2);
    }
  }

  lemma TypeBits(flags: nat)
    ensures BitAnd(flags, VM_TYPE_MASK) == flags % 16
  {
    MaskMod(flags, 4);
    assert Pow2(4) == 16;
    BitAndComm(15, flags);
  }

  // ---- From flags to bits ----

  /** Bits 5 to 11 of a number with the bits hi from there on. */
  lemma HighOf(low: nat, r: nat, hi: nat)
    requires low == r + 32 * hi && r < 32
    ensures low / 32 == hi && low / 64 == hi / 2 && low / 128 == hi / 4 && low / 256 == hi / 8
    ensures low / 512 == hi / 16 && low / 1024 == hi / 32 && low / 2048 == hi / 64 && low / 4 % 8 == r / 4
  {
    DivUnique(low, 32, hi, r);
    DivDiv(low, 32, 2);
    DivDiv(low, 32, 4);
    DivDiv(low, 32, 8);
    DivDiv(low, 32, 16);
    DivDiv(low, 32, 32);
    DivDiv(low, 32, 64);
    DivUnique(low, 4, 8 * hi + r / 4, r % 4);
  }

  /** The attributes below the address field, */
  lemma LowAttr(des: nat, flags: nat, low: nat)
    requires low == des + AF_NS_INNER + MemType(flags) + Access(flags) && (des == DES_PAGE || des == DES_BLOCK)
    ensures low < 4096 && low / 4 % 8 == TypeOf(flags)
    ensures low / 32 % 2 == 1 && low / 256 % 2 == 1 && low / 512 % 2 == 1 && low / 1024 % 2 == 1
    ensures low / 64 % 2 == 1 <==> !Kernel(flags)
    ensures low / 128 % 2 == 1 <==> Read(flags) && !Writable(flags)
    ensures low / 2048 % 2 == 1 <==> !Kernel(flags)
  {
    var kern, ro := Kernel(flags), Read(flags) && !Writable(flags);
    var hi := 57 + if kern then (if ro then 4 else 0) else (if ro then 70 else 66);
    AccessIs(flags, kern, ro);
    MemTypeIs(flags);
    HighOf(low, des + MemType(flags), hi);
    HiBits(hi, kern, ro);
  }

  lemma HiBits(hi: nat, kern: bool, ro: bool)
    requires hi == 57 + if kern then (if ro then 4 else 0) else (if ro then 70 else 66)
    ensures hi < 128 && hi % 2 == 1 && hi / 8 % 2 == 1 && hi / 16 % 2 == 1 && hi / 32 % 2 == 1
    ensures (hi / 2 % 2 == 1 <==> !kern) && (hi / 4 % 2 == 1 <==> ro) && (hi / 64 % 2 == 1 <==> !kern)
  {
  }

  lemma AccessIs(flags: nat, kern: bool, ro: bool)
    requires kern == Kernel(flags) && ro == (Read(flags) && !Writable(flags))
    ensures Access(flags) == 32 * if kern then (if ro then 4 else 0) else (if ro then 70 else 66)
  {
    FlagSizes();
    HasBit(flags, 13, 0x2000);
    ReadOnly(flags);
  }

  lemma MemTypeIs(flags: nat)
    ensures MemType(flags) == 4 * TypeOf(flags) < 24
  {
    TypeBits(flags);
  }

  /** and above it. */
  lemma HighAttr(flags: nat, top: nat)
    requires 8 * top == High(flags)
    ensures top == (if Exec(flags) then 0 else 12) + (if Bit(flags, 8) then 16 else 0) + (if Bit(flags, 11) then 32 else 0)
      + (if Bit(flags, 12) || Bit(flags, 16) then 64 else 0)
  {
    FlagSizes();
    HasBit(flags, 22, 0x40_0000);
    HasBit(flags, 8, 0x100);
    HasBit(flags, 11, 0x800);
    SharedBits(flags);
  }

  lemma BitIs(x: nat, i: nat, d: nat)
    requires Pow2(i) == d
    ensures Bit(x, i) <==> x / d % 2 == 1
  {
  }

  lemma OddPart(c: nat, h: nat, q: nat, k: nat)
    requires c == 2 * h
    ensures (c * q + k) % 2 == k % 2
  {
    assert c * q == 2 * (h * q) by { MulSwap(q, h, 2); }
  }

  /** Bits below 12 are those of the low part. */
  lemma LowBit(e: nat, low: nat, i: nat, d: nat, c: nat)
    requires low == e % 4096 && Pow2(i) == d && d * c == 4096 && c % 2 == 0
    ensures Bit(e, i) <==> low / d % 2 == 1
  {
    var q, k, h, r := e / 4096, low / d, c / 2, low % d;
    DivMod(low, d);
    assert d * (c * q + k) == d * c * q + d * k by { MulDist2(d, c, q, k); }
    assert e == d * (c * q + k) + r;
    DivUnique(e, d, c * q + k, r);
    OddPart(c, h, q, k);
  }

  lemma LowSizes()
    ensures Pow2(5) == 32 && Pow2(6) == 64 && Pow2(7) == 128 && Pow2(8) == 256 && Pow2(9) == 512 && Pow2(10) == 1024 && Pow2(11) == 2048
  {
    assert Pow2(5) == 32 && Pow2(6) == 64;
    assert Pow2(7) == 128 && Pow2(8) == 256;
    assert Pow2(9) == 512 && Pow2(10) == 1024;
  }

  lemma LowPermits(e: nat, flags: nat, des: nat)
    requires e % 4096 == des + AF_NS_INNER + MemType(flags) + Access(flags) && (des == DES_PAGE || des == DES_BLOCK)
    ensures e / 4 % 8 == TypeOf(flags) && Bit(e, 5) && Bit(e, 8) && Bit(e, 9) && Bit(e, 10)
    ensures (Bit(e, 6) <==> !Kernel(flags)) && (Bit(e, 11) <==> !Kernel(flags))
    ensures Bit(e, 7) <==> Read(flags) && !Writable(flags)
  {
    var low := e % 4096;
    LowAttr(des, flags, low);
    LowSizes();
    LowBit(e, low, 5, 32, 128);
    LowBit(e, low, 6, 64, 64);
    LowBit(e, low, 7, 128, 32);
    LowBit(e, low, 8, 256, 16);
    LowBit(e, low, 9, 512, 8);
    LowBit(e, low, 10, 1024, 4);
    LowBit(e, low, 11, 2048, 2);
    TypeField(e, low);
  }

  lemma TypeField(e: nat, low: nat)
    requires low == e % 4096
    ensures e / 4 % 8 == low / 4 % 8
  {
    var q := e / 4096;
    DivUnique(e, 4, 1024 * q + low / 4, low % 4);
    ModUnique(1024 * q + low / 4, 8, 128 * q + low / 4 / 8, low / 4 % 8);
  }

  /** Bits from 51 on are those of the quotient. */
  lemma TopBit(e: nat, top: nat, i: nat)
    requires top == WordShr(e, 51)
    ensures Bit(e, 51 + i) <==> Bit(top, i)
  {
    BitShr(e, 51, i);
  }

  /** Seven bits, each on or off. */
  lemma SevenBits(top: nat, x: bool, p: bool, d: bool, h: bool)
    requires top == (if x then 12 else 0) + (if p then 16 else 0) + (if d then 32 else 0) + (if h then 64 else 0)
    ensures !Bit(top, 0) && !Bit(top, 1) && Bit(top, 2) == x && Bit(top, 3) == x
    ensures Bit(top, 4) == p && Bit(top, 5) == d && Bit(top, 6) == h
  {
    LowSizes();
    assert Pow2(0) == 1 && Pow2(1) == 2 && Pow2(2) == 4 && Pow2(3) == 8 && Pow2(4) == 16;
    SevenQuots(top, x, p, d, h);
    BitIs(top, 0, 1);
    BitIs(top, 1, 2);
    BitIs(top, 2, 4);
    BitIs(top, 3, 8);
    BitIs(top, 4, 16);
    BitIs(top, 5, 32);
    BitIs(top, 6, 64);
  }

  lemma SevenQuots(top: nat, x: bool, p: bool, d: bool, h: bool)
    requires top == (if x then 12 else 0) + (if p then 16 else 0) + (if d then 32 else 0) + (if h then 64 else 0)
    ensures top / 1 % 2 == 0 && top / 2 % 2 == 0 && (top / 4 % 2 == 1 <==> x) && (top / 8 % 2 == 1 <==> x)
    ensures (top / 16 % 2 == 1 <==> p) && (top / 32 % 2 == 1 <==> d) && (top / 64 % 2 == 1 <==> h)
  {
  }

  lemma TopPermits(e: nat, flags: nat, top: nat)
    requires top == WordShr(e, 51) && 8 * top == High(flags)
    ensures !Bit(e, 51) && !Bit(e, 52)
    ensures (Bit(e, 53) <==> !Exec(flags)) && (Bit(e, 54) <==> !Exec(flags))
    ensures (Bit(e, 55) <==> Bit(flags, 8)) && (Bit(e, 56) <==> Bit(flags, 11))
    ensures Bit(e, 57) <==> Bit(flags, 12) || Bit(flags, 16)
    ensures top < 0x80
  {
    HighAttr(flags, top);
    SevenBits(top, !Exec(flags), Bit(flags, 8), Bit(flags, 11), Bit(flags, 12) || Bit(flags, 16));
    TopBit(e, top, 0);
    TopBit(e, top, 1);
    TopBit(e, top, 2);
    TopBit(e, top, 3);
    TopBit(e, top, 4);
    TopBit(e, top, 5);
    TopBit(e, top, 6);
  }

  // ---- The descriptors the kernel writes ----

  lemma TopSizes()
    ensures Pow2(48) == 0x1_0000_0000_0000 && Pow2(51) == 0x8_0000_0000_0000
  {
    Pow2Sizes();
    Pow2Add(48, 3);
    assert Pow2(3) == 8;
  }

  /** Or-ing attributes into an aligned address below 2^51. */
  lemma OrFields(a: nat, low: nat, high: nat, e: nat)
    requires a % 4096 == 0 && a < 0x8_0000_0000_0000 && low < 4096 && high % 8 == 0
    requires e == BitOr(a, low + 0x1_0000_0000_0000 * high)
    ensures e % 4096 == low && WordShr(e, 51) == high / 8
  {
    var attr := low + 0x1_0000_0000_0000 * high;
    TopSizes();
    Pow2Sizes();
    BitOrMod(a, attr, 12);
    ModUnique(attr, 4096, 0x10_0000_0000 * high, low);
    BitOrZero(low);
    BitOrShr(a, attr, 51);
    QuotZero(a, 0x8_0000_0000_0000);
    DivUnique(attr, 0x8_0000_0000_0000, high / 8, low);
    BitOrZero(high / 8);
  }

  lemma VtopBelow(pa: nat)
    requires pa < 0x7_0000_0000_0000
    ensures Vtop(pa) < 0x8_0000_0000_0000
  {
    ModUnique(pa - KERNEL_BASE, 0x1_0000_0000_0000_0000, -1, pa + 0x1_0000_0000_0000);
  }

  /** A page or block descriptor says what its flags say. */
  lemma LeafPermits(des: nat, pa: nat, flags: nat)
    requires (des == DES_PAGE || des == DES_BLOCK) && pa % 4096 == 0 && pa < 0x7_0000_0000_0000
    ensures Permits(LeafEntry(des, pa, flags), flags) == true
  {
    var e := LeafEntry(des, pa, flags);
    var low, high := des + AF_NS_INNER + MemType(flags) + Access(flags), High(flags);
    assert low < 4096 && high % 8 == 0;
    VtopPage(pa);
    VtopBelow(pa);
    OrFields(Vtop(pa), low, high, e);
    LowPermits(e, flags, des);
    TopPermits(e, flags, high / 8);
    Below58(e);
  }

  lemma Below58(e: nat)
    requires WordShr(e, 51) < 0x80
    ensures e < 0x400_0000_0000_0000
  {
    TopSizes();
  }

  /** So does a table descriptor. */
  lemma TableLimits(t: nat, flags: nat)
    requires t < 0x1_0000_0000_0000 && t % 4096 == 0
    ensures Limits(TableEntry(t, flags), flags) == true
  {
    var e, high := TableEntry(t, flags), if Kernel(flags) then 0x3000 else 0;
    VtopPtov(t);
    FlagSizes();
    HasBit(flags, 13, 0x2000);
    TableFields(t, high, e);
    HighTable(e, high, Kernel(flags));
  }

  lemma TableFields(t: nat, high: nat, e: nat)
    requires t < 0x1_0000_0000_0000 && t % 4096 == 0 && e == BitOr(t, 3 + 0x1_0000_0000_0000 * high)
    ensures e % 4096 == 3 && WordShr(e, 48) == high
  {
    var attr := 3 + 0x1_0000_0000_0000 * high;
    Pow2Sizes();
    BitOrMod(t, attr, 12);
    ModUnique(attr, 4096, 0x10_0000_0000 * high, 3);
    BitOrZero(3);
    BitOrShr(t, attr, 48);
    QuotZero(t, 0x1_0000_0000_0000);
    DivUnique(attr, 0x1_0000_0000_0000, high, 3);
    BitOrZero(high);
  }

  lemma HighTable(e: nat, high: nat, kern: bool)
    requires WordShr(e, 48) == high && high == if kern then 0x3000 else 0
    ensures (forall i: nat :: 48 <= i < 60 ==> !Bit(e, i)) && Bit(e, 60) == kern && Bit(e, 61) == kern && e < 0x4000_0000_0000_0000
  {
    Pow2Sizes();
    forall i: nat | 48 <= i < 60 ensures !Bit(e, i) {
      BitShr(e, 48, i - 48);
      ThreeLow(high, i - 48);
    }
    FlagSizes();
    BitShr(e, 48, 12);
    BitShr(e, 48, 13);
    BitIs(high, 12, 0x1000);
    BitIs(high, 13, 0x2000);
  }

  lemma ThreeLow(high: nat, j: nat)
    requires (high == 0x3000 || high == 0) && j < 12
    ensures !Bit(high, j)
  {
    if high == 0 {
      QuotZero(0, Pow2(j));
    } else {
      Pow2Add(j, 12 - j);
      assert Pow2(12) == 4096 by { FlagSizes(); }
      assert Pow2(12 - j) == 2 * Pow2(11 - j);
      var c := Pow2(11 - j);
      assert high == Pow2(j) * (6 * c) by { MulSwap(c, Pow2(j), 2); }
      DivUnique(high, Pow2(j), 6 * c, 0);
    }
  }
}

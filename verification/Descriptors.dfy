/** VMSAv8-64 stage 1 descriptors with a 4 KB granule, as the kernel writes and reads them
    (ukern/inc/pagetable.h, ukern/inc/stage1.h, ukern/src/pagetable.c:42-211). */
module Descriptors {
  import opened Words

  // Addresses translate modulo 2^48 = 0x1_0000_0000_0000; the kernel half starts at 0xffff_0000_0000_0000.

  const KERNEL_BASE: nat := 0xffff_0000_0000_0000

  /** vtop: the difference wraps at 64 bits, so a physical address comes out with bit 48 set. */
  function Vtop(a: nat): (r: nat)
    ensures r < 0x1_0000_0000_0000_0000
  {
    (a - KERNEL_BASE) % 0x1_0000_0000_0000_0000
  }

  function Ptov(a: nat): (r: nat)
    ensures r < 0x1_0000_0000_0000_0000
  {
    (a + KERNEL_BASE) % 0x1_0000_0000_0000_0000
  }

  lemma VtopPtov(a: nat)
    requires a < 0x1_0000_0000_0000
    ensures Vtop(Ptov(a)) == a
    ensures Vtop(a) == a + 0x1_0000_0000_0000
  {
  }

  // ---- Fields ----

  predicate IsValid(e: nat) { e % 2 == 1 }
  predicate IsTable(e: nat) { e / 2 % 2 == 1 }

  /** The output address of an entry that covers size bytes: its bits from log2(size) up to 47. */
  function OutAddr(e: nat, size: nat): (r: nat)
    requires size > 0
  {
    e % 0x1_0000_0000_0000 / size * size
  }

  /** pud_block_addr and pmd_block_addr: a field narrower than int is shifted as an int, then widened. */
  function BlockAddr(e: nat, size: nat): (r: nat)
    requires size > 0
  {
    SignExtended(OutAddr(e, size))
  }

  /** pt_page_addr: a field of 36 bits, shifted, keeps 36 bits. */
  function PageAddr(e: nat): (r: nat) {
    OutAddr(e, 4096) % 0x10_0000_0000
  }

  /** The index macros: nine bits of the address from shift on. */
  function Index(va: nat, shift: nat): (i: nat)
    ensures i < 512
  {
    BitAndAtMost(WordShr(va, shift), 511);
    BitAnd(WordShr(va, shift), 511)
  }

  /** d is 2^shift. */
  lemma IndexIs(va: nat, shift: nat, d: nat)
    requires Pow2(shift) == d
    ensures Index(va, shift) == va / d % 512
  {
    var x := WordShr(va, shift);
    MaskMod(x, 9);
    assert Pow2(9) == 512;
    BitAndComm(511, x);
  }

  lemma ShiftSizes()
    ensures Pow2(12) == 0x1000 && Pow2(21) == 0x20_0000 && Pow2(30) == 0x4000_0000 && Pow2(39) == 0x80_0000_0000
  {
    assert Pow2(9) == 512 && Pow2(12) == 4096;
    Pow2Add(12, 9);
    Pow2Add(21, 9);
    Pow2Add(30, 9);
  }

  // ---- Attribute words ----

  const DES_BLOCK: nat := 1
  const DES_PAGE: nat := 3
  const DES_TABLE: nat := 3
  const AF_NS_INNER: nat := 0x720                 // S1_AF, S1_NS and S1_SH_INNER
  const AP_RW_URW: nat := 0x40
  const AP_RO: nat := 0x80
  const AP_RO_URO: nat := 0xc0
  const NOT_GLOBAL: nat := 0x800

  // Bits above the address field, counted from bit 48.
  const PXN_XN: nat := 0x60                       // bits 53 and 54
  const PFNMAP: nat := 0x80                       // bit 55
  const DEVMAP: nat := 0x100                      // bit 56
  const SHARED: nat := 0x200                      // bit 57
  const TABLE_KERN: nat := 0x3000                 // bits 60 and 61

  const VM_IO: nat := 0x1
  const VM_NORMAL_NC: nat := 0x4
  const VM_WT: nat := 0x8
  const VM_TYPE_MASK: nat := 0xf
  const VM_PFNMAP: nat := 0x100
  const VM_HUGE_2M: nat := 0x200
  const VM_HUGE_1G: nat := 0x400
  const VM_DEVMAP: nat := 0x800
  const VM_SHARED_PMA: nat := 0x1_1000
  const VM_KERN: nat := 0x2000
  const VM_READ: nat := 0x10_0000
  const VM_RW_MASK: nat := 0x30_0000
  const VM_EXEC: nat := 0x40_0000

  predicate Has(flags: nat, mask: nat) { BitAnd(flags, mask) != 0 }

  /** Memory type index, shifted into place. */
  function MemType(flags: nat): (r: nat) {
    var k := BitAnd(flags, VM_TYPE_MASK);
    if k == VM_NORMAL_NC then 0xc
    else if k == VM_IO then 0
    else if k == VM_WT then 0x14
    else 0x10
  }

  // The attribute bits combined below are pairwise disjoint, so their bitwise or is a sum.

  function Access(flags: nat): (r: nat) {
    var ro := BitAnd(flags, VM_RW_MASK) == VM_READ;
    if Has(flags, VM_KERN) then (if ro then AP_RO else 0)
    else NOT_GLOBAL + (if ro then AP_RO_URO else AP_RW_URW)
  }

  function High(flags: nat): (r: nat) {
    (if Has(flags, VM_EXEC) then 0 else PXN_XN)
    + (if Has(flags, VM_PFNMAP) then PFNMAP else 0)
    + (if Has(flags, VM_DEVMAP) then DEVMAP else 0)
    + (if Has(flags, VM_SHARED_PMA) then SHARED else 0)
  }

  /** The attributes of a page (des = DES_PAGE) or block (des = DES_BLOCK). */
  function LeafAttr(des: nat, flags: nat): (r: nat) {
    des + AF_NS_INNER + MemType(flags) + Access(flags) + 0x1_0000_0000_0000 * High(flags)
  }

  function TableAttr(flags: nat): (r: nat) {
    DES_TABLE + (if Has(flags, VM_KERN) then 0x1_0000_0000_0000 * TABLE_KERN else 0)
  }

  function LeafEntry(des: nat, pa: nat, flags: nat): (e: nat) {
    BitOr(Vtop(pa), LeafAttr(des, flags))
  }

  function TableEntry(t: nat, flags: nat): (e: nat) {
    BitOr(Vtop(Ptov(t)), TableAttr(flags))
  }

  // ---- Attributes keep out of the address field ----

  /** Bits 12 to 47 are clear. */
  predicate Clear(a: nat) {
    a % 0x1_0000_0000_0000 < 4096
  }

  lemma Pow2Sizes()
    ensures Pow2(2) == 4 && Pow2(12) == 4096 && Pow2(48) == 0x1_0000_0000_0000
  {
    assert Pow2(8) == 0x100;
    Pow2Add(8, 4);
    Pow2Add(12, 12);
    Pow2Add(24, 24);
  }

  lemma AttrSplit(low: nat, high: nat)
    requires low < 4096
    ensures Clear(low + 0x1_0000_0000_0000 * high)
    ensures (low + 0x1_0000_0000_0000 * high) % 4 == low % 4
  {
    DivUnique(low + 0x1_0000_0000_0000 * high, 0x1_0000_0000_0000, high, low);
    DivUnique(low + 0x1_0000_0000_0000 * high, 4, low / 4 + 0x4000_0000_0000 * high, low % 4);
  }

  lemma LeafAttrClear(des: nat, flags: nat)
    requires des == DES_PAGE || des == DES_BLOCK
    ensures Clear(LeafAttr(des, flags)) && LeafAttr(des, flags) % 4 == des
  {
    AttrSplit(des + AF_NS_INNER + MemType(flags) + Access(flags), High(flags));
  }

  lemma TableAttrClear(flags: nat)
    ensures Clear(TableAttr(flags)) && TableAttr(flags) % 4 == 3
  {
    AttrSplit(DES_TABLE, if Has(flags, VM_KERN) then TABLE_KERN else 0);
  }

  lemma OrLow48(x: nat, y: nat)
    ensures BitOr(x, y) % 0x1_0000_0000_0000 == BitOr(x % 0x1_0000_0000_0000, y % 0x1_0000_0000_0000)
  {
    Pow2Sizes();
    BitOrMod(x, y, 48);
  }

  lemma OrLow2(x: nat, y: nat)
    ensures BitOr(x, y) % 4 == BitOr(x % 4, y % 4)
  {
    Pow2Sizes();
    BitOrMod(x, y, 2);
  }

  lemma OrPage(x: nat, y: nat)
    requires x % 4096 == 0 && y < 4096
    ensures BitOr(x, y) == x + y
  {
    Pow2Sizes();
    BitOrDisjoint(x, y, 12);
  }

  lemma OrAttrLow(a: nat, attr: nat)
    requires a % 4096 == 0
    ensures BitOr(a, attr) % 4 == attr % 4
  {
    Mod4(a);
    BitOrZero(attr % 4);
    OrLow2(a, attr);
  }

  lemma Mod4(a: nat)
    requires a % 4096 == 0
    ensures a % 4 == 0
  {
    ModFactor(a, 4, 1024);
  }

  /** Or-ing attributes into an address leaves the address field alone and sets the low two bits. */
  lemma OrAttr(a: nat, attr: nat)
    requires a % 4096 == 0 && Clear(attr)
    ensures BitOr(a, attr) % 4 == attr % 4
    ensures BitOr(a, attr) % 0x1_0000_0000_0000 == a % 0x1_0000_0000_0000 + attr % 0x1_0000_0000_0000
  {
    OrAttrLow(a, attr);
    OrLow48(a, attr);
    PageLow48(a);
    OrPage(a % 0x1_0000_0000_0000, attr % 0x1_0000_0000_0000);
  }

  /** Rounding a field down drops what lies below it. */
  lemma RoundDown(a: nat, low: nat, size: nat)
    requires size >= 4096 && low < 4096 && a % size == 0
    ensures (a + low) / size * size == a
  {
    var q := a / size;
    assert a + low == size * q + low;
    DivUnique(a + low, size, q, low);
  }

  /** The low 48 bits of an aligned address are aligned. */
  lemma AlignedLow(a: nat, size: nat, m: nat)
    requires size > 0 && size * m == 0x1_0000_0000_0000 && a % size == 0
    ensures a % 0x1_0000_0000_0000 % size == 0
  {
    var n := a / size;
    var q, r := n / m, n % m;
    assert n == m * q + r && a == size * n;
    assert size * n == size * m * q + size * r by { assert size * (m * q + r) == size * (m * q) + size * r; }
    assert size * r < size * m by { MulMono(size, m - r); }
    ModUnique(a, size * m, q, size * r);
    ModUnique(size * r, size, r, 0);
  }

  lemma PageLow48(a: nat)
    requires a % 4096 == 0
    ensures a % 0x1_0000_0000_0000 % 4096 == 0
  {
    AlignedLow(a, 4096, 0x10_0000_0000);
  }

  lemma VtopLow(pa: nat)
    ensures Vtop(pa) % 0x1_0000_0000_0000 == pa % 0x1_0000_0000_0000
  {
    var q, r := pa / 0x1_0000_0000_0000, pa % 0x1_0000_0000_0000;
    var k, m := (q - 0xffff) / 0x1_0000, (q - 0xffff) % 0x1_0000;
    ModUnique(pa - 0xffff_0000_0000_0000, 0x1_0000_0000_0000_0000, k, 0x1_0000_0000_0000 * m + r);
    ModUnique(Vtop(pa), 0x1_0000_0000_0000, m, r);
  }

  lemma VtopPage(pa: nat)
    requires pa % 4096 == 0
    ensures Vtop(pa) % 4096 == 0
  {
    var n := pa / 4096;
    var k, m := (n - 0xf_fff0_0000_0000) / 0x10_0000_0000_0000, (n - 0xf_fff0_0000_0000) % 0x10_0000_0000_0000;
    ModUnique(pa - 0xffff_0000_0000_0000, 0x1_0000_0000_0000_0000, k, 4096 * m);
  }

  lemma BitsOf(e: nat, attr: nat, des: nat)
    requires e % 4 == attr % 4 == des && (des == 1 || des == 3)
    ensures IsValid(e) && (IsTable(e) <==> des == 3)
  {
  }

  /** The frame comes back unchanged: neither attribute bits nor the bit that vtop adds reach it. */
  lemma LeafDecodes(des: nat, pa: nat, flags: nat, size: nat, m: nat)
    requires (des == DES_PAGE || des == DES_BLOCK) && size >= 4096 && size * m == 0x1_0000_0000_0000
    requires pa % size == 0 && pa % 4096 == 0
    ensures var e := LeafEntry(des, pa, flags);
      IsValid(e) && (IsTable(e) <==> des == DES_PAGE) && OutAddr(e, size) == pa % 0x1_0000_0000_0000
  {
    var attr := LeafAttr(des, flags);
    LeafAttrClear(des, flags);
    EntryDecodes(Vtop(pa), attr, des, pa, size, m);
  }

  lemma EntryDecodes(a: nat, attr: nat, des: nat, pa: nat, size: nat, m: nat)
    requires Clear(attr) && attr % 4 == des && (des == 1 || des == 3)
    requires size >= 4096 && size * m == 0x1_0000_0000_0000
    requires pa % size == 0 && pa % 4096 == 0 && a == Vtop(pa)
    ensures var e := BitOr(a, attr);
      IsValid(e) && (IsTable(e) <==> des == 3) && OutAddr(e, size) == pa % 0x1_0000_0000_0000
  {
    VtopPage(pa);
    OrAttr(a, attr);
    BitsOf(BitOr(a, attr), attr, des);
    VtopLow(pa);
    AlignedLow(pa, size, m);
    RoundDown(pa % 0x1_0000_0000_0000, attr % 0x1_0000_0000_0000, size);
  }

  lemma TableDecodes(t: nat, flags: nat)
    requires t < 0x1_0000_0000_0000 && t % 4096 == 0
    ensures var e := TableEntry(t, flags);
      IsValid(e) && IsTable(e) && OutAddr(e, 4096) == t
  {
    TableAttrClear(flags);
    VtopPtov(t);
    OrAttr(t, TableAttr(flags));
    BitsOf(BitOr(t, TableAttr(flags)), TableAttr(flags), 3);
    TableField(BitOr(t, TableAttr(flags)), t, TableAttr(flags));
  }

  lemma TableField(e: nat, t: nat, attr: nat)
    requires t < 0x1_0000_0000_0000 && t % 4096 == 0 && Clear(attr)
    requires e % 0x1_0000_0000_0000 == t % 0x1_0000_0000_0000 + attr % 0x1_0000_0000_0000
    ensures OutAddr(e, 4096) == t
  {
    RoundDown(t, attr % 0x1_0000_0000_0000, 4096);
  }
}

/** The two symbol hash indexes of the dynamic linker (libc/ldso/dynlink.c:224-289, 931-948). */
module SymbolIndex {
  import opened Basics
  import opened Words
  import opened Bitmap

  type Name = seq<nat>                // the bytes of a string

  // ---- Polynomials ----

  function Power(b: nat, n: nat): (r: nat) {
    if n == 0 then 1 else b * Power(b, n - 1)
  }

  /** The bytes of a string as digits to base b, the first one highest. */
  function Digits(s: Name, b: nat): (r: nat) {
    if s == [] then 0 else s[0] * Power(b, |s| - 1) + Digits(s[1..], b)
  }

  lemma {:induction false} DigitsLast(s: Name, b: nat)
    requires s != []
    ensures Digits(s, b) == b * Digits(s[..|s| - 1], b) + s[|s| - 1]
    decreases |s|
  {
    var n := |s| - 1;
    if n == 0 {
      assert s[1..] == [] && s[..0] == [];
      assert Power(b, 0) == 1;
    } else {
      var t, u := s[1..], s[..n];
      DigitsLast(t, b);
      assert t[..n - 1] == u[1..] && u[0] == s[0];
      FrontDigit(s[0], b, Power(b, n - 1), Digits(u[1..], b));
    }
  }

  lemma FrontDigit(c: nat, b: nat, p: nat, d: nat)
    ensures c * (b * p) + b * d == b * (c * p + d)
  {
  }

  // ---- The System V hash ----

  /** Folding the top nibble of a 32-bit word in, as the linker's loop does: it stays where it is. */
  function FoldTop(h: nat): (r: nat) {
    BitXor(h, h / 0x1000_0000 * 16)
  }

  function Shifted(h: nat, c: nat): (r: nat) {
    (16 * h + c) % 0x1_0000_0000
  }

  function Fold(s: Name): (h: nat) {
    if s == [] then 0 else FoldTop(Shifted(Fold(s[..|s| - 1]), s[|s| - 1]))
  }

  /** The same in the hash function of System V gABI chapter 5, "Hash Table": the nibble is then cleared. */
  function ElfTop(h: nat): (r: nat)
    requires h < 0x1_0000_0000
  {
    var g := h / 0x1000_0000 * 0x1000_0000;
    BitAnd(if g != 0 then BitXor(h, g / 0x100_0000) else h, 0xffff_ffff - g)
  }

  function ElfHash(s: Name): (h: nat) {
    if s == [] then 0 else ElfTop(Shifted(ElfHash(s[..|s| - 1]), s[|s| - 1]))
  }

  lemma Nibble(h: nat)
    requires h < 0x1_0000_0000
    ensures FoldTop(h) / 0x1000_0000 == h / 0x1000_0000
  {
    Pow2Nibble();
    var y := h / 0x1000_0000 * 16;
    BitXorShr(h, y, 28);
    QuotZero(y, 0x1000_0000);
    BitOrZero(h / 0x1000_0000);
  }

  lemma Pow2Nibble()
    ensures Pow2(28) == 0x1000_0000
  {
    assert Pow2(7) == 0x80;
    Pow2Add(7, 7);
    Pow2Add(14, 14);
  }

  /** Clearing the nibble g of a word that still has it leaves the low 28 bits. */
  lemma ClearTop(x: nat, t: nat)
    requires t < 16 && x / 0x1000_0000 == t
    ensures BitAnd(x, 0xffff_ffff - t * 0x1000_0000) == x % 0x1000_0000
  {
    var y := 0xffff_ffff - t * 0x1000_0000;
    assert y / 0x1000_0000 == 15 - t && y % 0x1000_0000 == 0xfff_ffff;
    assert BitAnd(x, y) / 0x1000_0000 == 0 by {
      Pow2Nibble();
      BitAndShr(x, y, 28);
      assert Pow2(4) == 16;
      BitAndNot(t, 4);
    }
    assert BitAnd(x, y) % 0x1000_0000 == x % 0x1000_0000 by {
      Pow2Nibble();
      BitAndMod(x, y, 28);
      BitAndMask(x % 0x1000_0000, 28);
    }
  }

  lemma TopAgrees(h: nat)
    requires h < 0x1_0000_0000
    ensures FoldTop(h) % 0x1000_0000 == ElfTop(h)
  {
    var t := h / 0x1000_0000;
    Nibble(h);
    BitOrZero(h);
    ClearTop(FoldTop(h), t);
    assert t * 0x1000_0000 / 0x100_0000 == t * 16;
  }

  lemma ShiftAgrees(h: nat, c: nat)
    ensures Shifted(h, c) == Shifted(h % 0x1000_0000, c)
  {
    var q, r := h / 0x1000_0000, h % 0x1000_0000;
    var k, m := (16 * r + c) / 0x1_0000_0000, (16 * r + c) % 0x1_0000_0000;
    ModUnique(16 * h + c, 0x1_0000_0000, q + k, m);
  }

  lemma {:induction false} FoldAgrees(s: Name)
    ensures Fold(s) % 0x1000_0000 == ElfHash(s)
  {
    if s != [] {
      var t, c := s[..|s| - 1], s[|s| - 1];
      FoldAgrees(t);
      ShiftAgrees(Fold(t), c);
      TopAgrees(Shifted(Fold(t), c));
    }
  }

  lemma SmallTop(h: nat, c: nat)
    requires 16 * h + c < 0x1000_0000
    ensures ElfTop(Shifted(h, c)) == 16 * h + c
  {
    ModUnique(16 * h + c, 0x1_0000_0000, 0, 16 * h + c);
    ClearTop(16 * h + c, 0);
  }

  lemma FoldNext(s: Name, i: nat)
    requires i < |s|
    ensures Fold(s[..i + 1]) == FoldTop((16 * Fold(s[..i]) + s[i]) % 0x1_0000_0000)
  {
    assert s[..i + 1][..i] == s[..i];
  }

  /** While the digits to base 16 fit 28 bits, they are the hash. */
  lemma {:induction false} ElfShort(s: Name)
    requires Digits(s, 16) < 0x1000_0000
    ensures ElfHash(s) == Digits(s, 16)
    decreases |s|
  {
    if s != [] {
      DigitsLast(s, 16);
      ElfShort(s[..|s| - 1]);
      SmallTop(Digits(s[..|s| - 1], 16), s[|s| - 1]);
    }
  }

  /** sysv_hash is the reference hash. */
  method SysvHash(s: Name) returns (r: nat)
    ensures r == ElfHash(s)
  {
    var h := 0;
    var i := 0;
    while i < |s|
      invariant i <= |s| && h == Fold(s[..i])
    {
      FoldNext(s, i);
      h := (16 * h + s[i]) % 0x1_0000_0000;
      h := BitXor(h, h / 0x1000_0000 * 16);
      i := i + 1;
    }
    assert s[..i] == s;
    FoldAgrees(s);
    r := h % 0x1000_0000;
  }

  // ---- The symbol table ----

  /** Names of the symbols and whether their version is visible. */
  datatype Symbols = Symbols(names: seq<Name>, visible: seq<bool>)

  predicate Match(y: Symbols, i: nat, name: Name) {
    i < |y.names| && i < |y.visible| && y.visible[i] && y.names[i] == name
  }

  /** The least matching index from lo up to hi, by looking at them all. */
  function Scan(y: Symbols, name: Name, lo: nat, hi: nat): (r: Option<nat>)
    decreases hi - lo
  {
    if lo >= hi then None
    else if Match(y, lo, name) then Some(lo)
    else Scan(y, name, lo + 1, hi)
  }

  lemma {:induction false} ScanFinds(y: Symbols, name: Name, lo: nat, hi: nat)
    ensures Scan(y, name, lo, hi).None? <==> forall i: nat :: lo <= i < hi ==> !Match(y, i, name)
    ensures Scan(y, name, lo, hi).Some? ==>
      var i := Scan(y, name, lo, hi).value;
      lo <= i < hi && Match(y, i, name) && forall j: nat :: lo <= j < i ==> !Match(y, j, name)
    decreases hi - lo
  {
    if lo < hi && !Match(y, lo, name) {
      ScanFinds(y, name, lo + 1, hi);
    }
  }

  lemma ScanIs(y: Symbols, name: Name, lo: nat, hi: nat, i: nat)
    requires lo <= i < hi && Match(y, i, name) && forall j: nat :: lo <= j < i ==> !Match(y, j, name)
    ensures Scan(y, name, lo, hi) == Some(i)
  {
    ScanFinds(y, name, lo, hi);
  }

  lemma ScanNone(y: Symbols, name: Name, lo: nat, hi: nat)
    requires forall j: nat :: lo <= j < hi ==> !Match(y, j, name)
    ensures Scan(y, name, lo, hi) == None
  {
    ScanFinds(y, name, lo, hi);
  }

  // ---- The GNU index ----

  function GnuHash(s: Name): (h: nat)
    ensures h < 0x1_0000_0000
  {
    if s == [] then 5381 else
    var h := GnuHash(s[..|s| - 1]);
    (h + (h * 32 + s[|s| - 1])) % 0x1_0000_0000
  }

  /** The hash of every string, in closed form. */
  lemma {:induction false} GnuClosed(s: Name)
    ensures GnuHash(s) == (5381 * Power(33, |s|) + Digits(s, 33)) % 0x1_0000_0000
    decreases |s|
  {
    if s != [] {
      var t, c := s[..|s| - 1], s[|s| - 1];
      GnuClosed(t);
      DigitsLast(s, 33);
      GnuStep(GnuHash(t), 5381 * Power(33, |t|) + Digits(t, 33), c);
      assert 5381 * Power(33, |s|) == 33 * (5381 * Power(33, |t|));
    }
  }

  lemma GnuStep(h: nat, x: nat, c: nat)
    requires h == x % 0x1_0000_0000
    ensures (h + (h * 32 + c)) % 0x1_0000_0000 == (33 * x + c) % 0x1_0000_0000
  {
    var q, y := x / 0x1_0000_0000, 33 * h + c;
    ModUnique(33 * x + c, 0x1_0000_0000, 33 * q + y / 0x1_0000_0000, y % 0x1_0000_0000);
  }

  /** gnu_hash. */
  method HashGnu(s: Name) returns (h: nat)
    ensures h == (5381 * Power(33, |s|) + Digits(s, 33)) % 0x1_0000_0000 == GnuHash(s)
  {
    h := 5381;
    var i := 0;
    while i < |s|
      invariant i <= |s| && h == GnuHash(s[..i])
    {
      assert s[..i + 1][..i] == s[..i];
      h := (h + (h * 32 + s[i])) % 0x1_0000_0000;
      i := i + 1;
    }
    assert s[..i] == s;
    GnuClosed(s);
  }

  /** Symbols from off on are hashed; hashvals[k] belongs to symbol off + k. */
  datatype Gnu = Gnu(off: nat, bloom: seq<nat>, shift: nat, buckets: seq<nat>, hashvals: seq<nat>)

  /** h|1 on words. */
  function Odd(h: nat): (r: nat) {
    h - h % 2 + 1
  }

  lemma OrOne(h: nat)
    ensures BitOr(h, 1) == Odd(h)
  {
    OrHalf(h, 1);
    BitOrZero(h / 2);
  }

  function HashOf(t: Gnu, y: Symbols, k: nat): (h: nat)
    requires t.off + k < |y.names|
  {
    GnuHash(y.names[t.off + k])
  }

  function BucketOf(t: Gnu, h: nat): (b: nat)
    requires |t.buckets| > 0
  {
    h % |t.buckets|
  }

  /** The chain of bucket b is the run of entries from lo up to hi, the last one marked by its low bit. */
  ghost predicate Chain(t: Gnu, y: Symbols, b: nat, lo: nat, hi: nat)
    requires |t.buckets| > 0 && t.off + |t.hashvals| == |y.names|
  {
    && lo < hi <= |t.hashvals|
    && (forall k: nat :: k < |t.hashvals| ==> (BucketOf(t, HashOf(t, y, k)) == b <==> lo <= k < hi))
    && (forall k: nat :: lo <= k < hi ==> (t.hashvals[k] % 2 == 1 <==> k == hi - 1))
  }

  ghost predicate BucketOk(t: Gnu, y: Symbols, b: nat)
    requires b < |t.buckets| && t.off + |t.hashvals| == |y.names|
  {
    if t.buckets[b] == 0 then forall k: nat :: k < |t.hashvals| ==> BucketOf(t, HashOf(t, y, k)) != b
    else t.buckets[b] >= t.off && HasChain(t, y, b, t.buckets[b] - t.off)
  }

  ghost predicate HasChain(t: Gnu, y: Symbols, b: nat, lo: nat)
    requires |t.buckets| > 0 && t.off + |t.hashvals| == |y.names|
  {
    exists hi: nat :: Chain(t, y, b, lo, hi)
  }

  /** A table as linkers build it: symbols grouped by bucket, hash values with a chain end bit. */
  ghost predicate GnuOk(t: Gnu, y: Symbols) {
    && |t.buckets| > 0 && t.off >= 1 && t.off + |t.hashvals| == |y.names| == |y.visible|
    && (forall k: nat :: k < |t.hashvals| ==> Odd(t.hashvals[k]) == Odd(HashOf(t, y, k)))
    && (forall b: nat :: b < |t.buckets| ==> BucketOk(t, y, b))
  }

  /** A name can only be in the chain of its hash's bucket. */
  lemma OnlyInChain(t: Gnu, y: Symbols, name: Name, lo: nat, hi: nat, i: nat)
    requires GnuOk(t, y) && Chain(t, y, BucketOf(t, GnuHash(name)), lo, hi) && t.off <= i && Match(y, i, name)
    ensures lo <= i - t.off < hi
  {
    var k := i - t.off;
    assert HashOf(t, y, k) == GnuHash(name);
  }

  /** gnu_lookup: the least hashed symbol with this name and a visible version, as a scan finds it. */
  method GnuLookup(h1: nat, t: Gnu, y: Symbols, name: Name) returns (r: Option<nat>)
    requires GnuOk(t, y) && h1 == GnuHash(name)
    ensures r == Scan(y, name, t.off, |y.names|)
  {
    var b := h1 % |t.buckets|;
    var i := t.buckets[b];
    assert BucketOk(t, y, BucketOf(t, h1));
    if i == 0 {
      forall j: nat | t.off <= j < |y.names| ensures !Match(y, j, name) {
        assert BucketOf(t, HashOf(t, y, j - t.off)) != b;
      }
      ScanNone(y, name, t.off, |y.names|);
      return None;
    }
    ghost var lo: nat := i - t.off;
    ghost var hi: nat :| Chain(t, y, b, lo, hi);
    var k := i - t.off;
    while true
      invariant lo <= k < hi && i == t.off + k
      invariant forall j: nat :: t.off + lo <= j < i ==> !Match(y, j, name)
      decreases hi - k
    {
      var h2 := t.hashvals[k];
      SameName(t, y, name, k);
      OrOne(h1);
      OrOne(h2);
      if BitOr(h1, 1) == BitOr(h2, 1) && y.visible[i] && y.names[i] == name {
        Front(t, y, name, lo, hi, i);
        return Some(i);
      }
      if h2 % 2 == 1 {
        Whole(t, y, name, lo, hi);
        return None;
      }
      i, k := i + 1, k + 1;
    }
  }

  /** Equal names have equal hash values up to the low bit. */
  lemma SameName(t: Gnu, y: Symbols, name: Name, k: nat)
    requires GnuOk(t, y) && k < |t.hashvals|
    ensures y.names[t.off + k] == name ==> Odd(GnuHash(name)) == Odd(t.hashvals[k])
  {
    assert Odd(t.hashvals[k]) == Odd(HashOf(t, y, k));
  }

  lemma Front(t: Gnu, y: Symbols, name: Name, lo: nat, hi: nat, i: nat)
    requires GnuOk(t, y) && Chain(t, y, BucketOf(t, GnuHash(name)), lo, hi) && t.off + lo <= i < t.off + hi && Match(y, i, name)
    requires forall j: nat :: t.off + lo <= j < i ==> !Match(y, j, name)
    ensures Scan(y, name, t.off, |y.names|) == Some(i)
  {
    forall j: nat | t.off <= j < i ensures !Match(y, j, name) {
      if Match(y, j, name) { OnlyInChain(t, y, name, lo, hi, j); }
    }
    ScanIs(y, name, t.off, |y.names|, i);
  }

  lemma Whole(t: Gnu, y: Symbols, name: Name, lo: nat, hi: nat)
    requires GnuOk(t, y) && Chain(t, y, BucketOf(t, GnuHash(name)), lo, hi)
    requires forall j: nat :: t.off + lo <= j < t.off + hi ==> !Match(y, j, name)
    ensures Scan(y, name, t.off, |y.names|) == None
  {
    forall j: nat | t.off <= j < |y.names| ensures !Match(y, j, name) {
      if Match(y, j, name) { OnlyInChain(t, y, name, lo, hi, j); }
    }
    ScanNone(y, name, t.off, |y.names|);
  }

  // ---- The Bloom filter ----

  function BloomIndex(t: Gnu, h: nat): (i: nat)
    requires |t.bloom| > 0
    ensures i < |t.bloom|
  {
    BitAndAtMost(h / 64, |t.bloom| - 1);
    BitAnd(h / 64, |t.bloom| - 1)
  }

  /** Both bits of a hash are set in its filter word. */
  ghost predicate InBloom(t: Gnu, h: nat)
    requires |t.bloom| > 0
  {
    Bit(t.bloom[BloomIndex(t, h)], h % 64) && Bit(t.bloom[BloomIndex(t, h)], WordShr(h, t.shift) % 64)
  }

  ghost predicate BloomOk(t: Gnu, y: Symbols) {
    && |t.bloom| > 0 && t.off + |t.hashvals| == |y.names|
    && forall k: nat :: k < |t.hashvals| ==> InBloom(t, HashOf(t, y, k))
  }

  /** A name the filter does not know is not among the hashed symbols. */
  lemma NotInBloom(t: Gnu, y: Symbols, name: Name)
    requires GnuOk(t, y) && BloomOk(t, y) && !InBloom(t, GnuHash(name))
    ensures Scan(y, name, t.off, |y.names|) == None
  {
    forall j: nat | t.off <= j < |y.names| ensures !Match(y, j, name) {
      assert InBloom(t, HashOf(t, y, j - t.off));
    }
    ScanNone(y, name, t.off, |y.names|);
  }

  lemma MaskZero(w: nat, b: nat)
    ensures BitAnd(w, Pow2(b)) == 0 ==> !Bit(w, b)
  {
    BitOfAnd(w, Pow2(b), b);
    BitPow2(b, b);
    QuotZero(0, Pow2(b));
  }

  /** gnu_lookup_filtered: the filter never changes the answer. */
  method GnuLookupFiltered(h1: nat, t: Gnu, y: Symbols, name: Name, fofs: nat, fmask: nat) returns (r: Option<nat>)
    requires GnuOk(t, y) && BloomOk(t, y) && h1 == GnuHash(name) && fofs == h1 / 64 && fmask == Pow2(h1 % 64)
    ensures r == Scan(y, name, t.off, |y.names|)
  {
    BitAndAtMost(fofs, |t.bloom| - 1);
    var f := t.bloom[BitAnd(fofs, |t.bloom| - 1)];
    MaskZero(f, h1 % 64);
    if BitAnd(f, fmask) == 0 {
      NotInBloom(t, y, name);
      return None;
    }
    f := WordShr(f, WordShr(h1, t.shift) % 64);
    if f % 2 == 0 {
      NotInBloom(t, y, name);
      return None;
    }
    r := GnuLookup(h1, t, y, name);
  }

  // ---- The System V index ----

  datatype Sysv = Sysv(buckets: seq<nat>, chain: seq<nat>)

  function NextIn(l: seq<nat>, j: nat): (i: nat) {
    if j + 1 < |l| then l[j + 1] else 0
  }

  /** From i the chain runs through l and ends in 0. */
  ghost predicate Leads(t: Sysv, i: nat, l: seq<nat>) {
    && i == (if l == [] then 0 else l[0])
    && forall j: nat :: j < |l| ==> 0 < l[j] < |t.chain| && t.chain[l[j]] == NextIn(l, j)
  }

  /** The chain of bucket b holds the symbols of that bucket. */
  ghost predicate ListOk(t: Sysv, y: Symbols, b: nat, l: seq<nat>) {
    && b < |t.buckets| && Leads(t, t.buckets[b], l)
    && forall i: nat :: 0 < i < |y.names| ==> (i in l <==> ElfHash(y.names[i]) % |t.buckets| == b)
  }

  ghost predicate SysvOk(t: Sysv, y: Symbols, lists: seq<seq<nat>>) {
    && 0 < |t.buckets| == |lists| && |t.chain| == |y.names| == |y.visible|
    && forall b: nat :: b < |lists| ==> ListOk(t, y, b, lists[b])
  }

  /** At most one visible symbol has the name. */
  ghost predicate Unique(y: Symbols, name: Name) {
    forall i: nat, j: nat :: Match(y, i, name) && Match(y, j, name) ==> i == j
  }

  /** sysv_lookup: some visible symbol of the name if there is one, the scanned one if names are unique. */
  method SysvLookup(name: Name, h: nat, t: Sysv, y: Symbols, ghost lists: seq<seq<nat>>) returns (r: Option<nat>)
    requires SysvOk(t, y, lists) && h == ElfHash(name)
    ensures r.Some? ==> 0 < r.value && Match(y, r.value, name)
    ensures r.None? ==> forall i: nat :: 0 < i ==> !Match(y, i, name)
    ensures Unique(y, name) ==> r == Scan(y, name, 1, |y.names|)
  {
    var b := h % |t.buckets|;
    assert ListOk(t, y, b, lists[b]);
    r := WalkChain(name, t.buckets[b], t, y, lists[b]);
    if r.None? {
      NoneInList(t, y, b, lists[b], name);
      ScanNone(y, name, 1, |y.names|);
    } else if Unique(y, name) {
      UniqueScan(y, name, r.value);
    }
  }

  /** The first match along the chain. */
  method WalkChain(name: Name, first: nat, t: Sysv, y: Symbols, ghost l: seq<nat>) returns (r: Option<nat>)
    requires Leads(t, first, l) && |t.chain| == |y.names| == |y.visible|
    ensures r.Some? ==> 0 < r.value && Match(y, r.value, name)
    ensures r.None? ==> forall m: nat :: m < |l| ==> !Match(y, l[m], name)
  {
    var i := first;
    ghost var j := 0;
    while i != 0
      invariant j <= |l| && i == (if j < |l| then l[j] else 0)
      invariant forall m: nat :: m < j ==> !Match(y, l[m], name)
      decreases |l| - j
    {
      if y.visible[i] && y.names[i] == name { return Some(i); }
      i := t.chain[i];
      j := j + 1;
    }
    return None;
  }

  lemma NoneInList(t: Sysv, y: Symbols, b: nat, l: seq<nat>, name: Name)
    requires |t.buckets| > 0 && ListOk(t, y, b, l) && b == ElfHash(name) % |t.buckets|
    requires forall m: nat :: m < |l| ==> !Match(y, l[m], name)
    ensures forall k: nat :: 0 < k ==> !Match(y, k, name)
  {
    forall k: nat | 0 < k ensures !Match(y, k, name) {
      if k < |y.names| && y.names[k] == name {
        assert k in l;
      }
    }
  }

  lemma UniqueScan(y: Symbols, name: Name, i: nat)
    requires Unique(y, name) && Match(y, i, name) && i > 0
    ensures Scan(y, name, 1, |y.names|) == Some(i)
  {
    ScanIs(y, name, 1, |y.names|, i);
  }

  // ---- Counting symbols ----

  /** count_syms without a System V table: the number of symbols, unless no bucket is in use. */
  method CountSyms(t: Gnu, y: Symbols) returns (nsym: nat)
    requires GnuOk(t, y)
    ensures nsym == if |t.hashvals| > 0 then |y.names| else 0
  {
    nsym := 0;
    var i := 0;
    while i < |t.buckets|
      invariant i <= |t.buckets|
      invariant forall b: nat :: b < i ==> t.buckets[b] <= nsym
      invariant nsym == 0 || exists b: nat :: b < |t.buckets| && t.buckets[b] == nsym
    {
      if t.buckets[i] > nsym { nsym := t.buckets[i]; }
      i := i + 1;
    }
    if nsym == 0 {
      NoneHashed(t, y);
      return;
    }
    ghost var hi := LastChain(t, y, nsym);
    ghost var lo: nat := nsym - t.off;
    var k := nsym - t.off;
    while t.hashvals[k] % 2 == 0
      invariant lo <= k < |t.hashvals| && nsym == t.off + k
      invariant forall m: nat :: lo <= m < |t.hashvals| ==> (t.hashvals[m] % 2 == 1 <==> m == |t.hashvals| - 1)
      decreases |t.hashvals| - k
    {
      nsym, k := nsym + 1, k + 1;
    }
    nsym := nsym + 1;
  }

  lemma FirstHashed(t: Gnu, y: Symbols)
    requires GnuOk(t, y) && |t.hashvals| > 0
    ensures t.buckets[BucketOf(t, HashOf(t, y, 0))] != 0
  {
    assert BucketOk(t, y, BucketOf(t, HashOf(t, y, 0)));
  }

  lemma NoneHashed(t: Gnu, y: Symbols)
    requires GnuOk(t, y) && forall b: nat :: b < |t.buckets| ==> t.buckets[b] == 0
    ensures |t.hashvals| == 0
  {
    if |t.hashvals| > 0 { FirstHashed(t, y); }
  }

  /** Every entry lies in the chain of its bucket. */
  lemma ItsChain(t: Gnu, y: Symbols, k: nat) returns (lo: nat, hi: nat)
    requires GnuOk(t, y) && k < |t.hashvals|
    ensures var b := BucketOf(t, HashOf(t, y, k)); Chain(t, y, b, lo, hi) && lo <= k < hi && t.buckets[b] == t.off + lo
  {
    var b := BucketOf(t, HashOf(t, y, k));
    assert BucketOk(t, y, b);
    lo := t.buckets[b] - t.off;
    assert HasChain(t, y, b, lo);
    hi :| Chain(t, y, b, lo, hi);
  }

  /** The chain that starts highest is the last one. */
  lemma LastChain(t: Gnu, y: Symbols, start: nat) returns (hi: nat)
    requires GnuOk(t, y) && start > 0 && (forall b: nat :: b < |t.buckets| ==> t.buckets[b] <= start)
    requires exists b: nat :: b < |t.buckets| && t.buckets[b] == start
    ensures t.off <= start && start - t.off < hi == |t.hashvals|
    ensures forall m: nat :: start - t.off <= m < hi ==> (t.hashvals[m] % 2 == 1 <==> m == hi - 1)
  {
    var b: nat :| b < |t.buckets| && t.buckets[b] == start;
    assert BucketOk(t, y, b);
    var lo: nat := start - t.off;
    assert HasChain(t, y, b, lo);
    hi :| Chain(t, y, b, lo, hi);
    // the last entry's chain starts no later than lo, so it contains lo and is this one
    var k := |t.hashvals| - 1;
    var lo', hi' := ItsChain(t, y, k);
    assert BucketOf(t, HashOf(t, y, lo)) == BucketOf(t, HashOf(t, y, k));
  }
}

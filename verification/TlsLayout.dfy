/** Thread-local storage: static offsets, reservations for running threads, layout of a new thread
    (libc/ldso/dynlink.c:1142-1183, 1567-1612, libc/src/env/__init_tls.c:39-72). */
module TlsLayout {
  import opened Basics
  import opened Words

  // ---- Alignments ----

  /** 64-bit negation of a word. */
  function Neg(x: nat): (r: nat) {
    (0 - x) % W64
  }

  /** MAXP2. */
  function MaxP2(a: nat, b: nat): (r: nat) {
    Neg(BitAnd(Neg(a), Neg(b)))
  }

  lemma NegPow2(i: nat)
    requires i < 64
    ensures 0 < Pow2(i) < W64 && Neg(Pow2(i)) == W64 - Pow2(i)
  {
    Pow2Word();
    Pow2Mono(i, 64);
    ModUnique(0 - Pow2(i), W64, -1, W64 - Pow2(i));
  }

  /** The words with exactly the bits from i, respectively j, upwards. */
  lemma AndHigh(i: nat, j: nat)
    requires i <= j < 64
    ensures Pow2(i) <= Pow2(j) < W64 && BitAnd(W64 - Pow2(i), W64 - Pow2(j)) == W64 - Pow2(j)
  {
    NegPow2(i);
    NegPow2(j);
    Pow2Mono(i, j);
    HighParts(W64 - Pow2(i), W64 - Pow2(j), Pow2(i), j);
  }

  lemma HighParts(x: nat, y: nat, p: nat, j: nat)
    requires j < 64 && 0 < p <= Pow2(j) && x == W64 - p && y == W64 - Pow2(j)
    ensures BitAnd(x, y) == y
  {
    var d, e := Pow2(j), Pow2(64 - j);
    WordSplit(j);
    HighDivs(x, y, p, d, e);
    assert BitAnd(x, y) % d == 0 by {
      BitAndMod(x, y, j);
      AndZero(x % d);
    }
    assert Quot(BitAnd(x, y), d) == e - 1 by {
      BitAndShr(x, y, j);
      BitAndMask(e - 1, 64 - j);
    }
    Recompose(BitAnd(x, y), d, e - 1);
  }

  lemma HighDivs(x: nat, y: nat, p: nat, d: nat, e: nat)
    requires d * e == W64 && 0 < p <= d && x == W64 - p && y == W64 - d && e >= 1
    ensures Quot(x, d) == e - 1 && Quot(y, d) == e - 1 && y % d == 0 && y == d * (e - 1)
  {
    assert d * (e - 1) == d * e - d;
    DivUnique(y, d, e - 1, 0);
    DivUnique(x, d, e - 1, d - p);
  }

  lemma Recompose(z: nat, d: nat, q: nat)
    requires d > 0 && z % d == 0 && Quot(z, d) == q
    ensures z == d * q
  {
  }

  /** MAXP2 of powers of two is their maximum. */
  lemma MaxP2IsMax(i: nat, j: nat)
    requires i < 64 && j < 64
    ensures MaxP2(Pow2(i), Pow2(j)) == if i <= j then Pow2(j) else Pow2(i)
  {
    if i <= j {
      MaxP2Le(i, j);
    } else {
      MaxP2Le(j, i);
      BitAndComm(Neg(Pow2(i)), Neg(Pow2(j)));
    }
  }

  lemma MaxP2Le(i: nat, j: nat)
    requires i <= j < 64
    ensures MaxP2(Pow2(i), Pow2(j)) == Pow2(j)
  {
    NegsMeet(i, j);
    NegBack(j);
  }

  lemma NegsMeet(i: nat, j: nat)
    requires i <= j < 64
    ensures Pow2(j) < W64 && BitAnd(Neg(Pow2(i)), Neg(Pow2(j))) == W64 - Pow2(j)
  {
    NegPow2(i);
    NegPow2(j);
    AndHigh(i, j);
  }

  lemma NegBack(i: nat)
    requires i < 64
    ensures Pow2(i) < W64 && Neg(W64 - Pow2(i)) == Pow2(i)
  {
    NegPow2(i);
    ModUnique(0 - (W64 - Pow2(i)), W64, -1, Pow2(i));
  }

  // ---- Padding ----

  /** The bytes to skip from an address so that it agrees with image modulo 2^k; 64-bit arithmetic. */
  function Pad(from: nat, image: nat, k: nat): (r: nat) {
    BitAnd(Pow2(k) - 1, (image - from) % W64)
  }

  lemma PadFits(from: nat, image: nat, k: nat)
    requires k < 64
    ensures Pad(from, image, k) < Pow2(k) && (from + Pad(from, image, k)) % Pow2(k) == image % Pow2(k)
  {
    WordSplit(k);
    var z: nat := (image - from) % W64;
    MaskMod(z, k);
    Congruence(from, image, Pow2(k), Pow2(64 - k), z);
  }

  lemma Congruence(from: nat, image: nat, d: nat, e: nat, z: nat)
    requires d > 0 && d * e == W64 && z == (image - from) % W64
    ensures (from + z % d) % d == image % d
  {
    var t, q := (image - from) / W64, z / d;
    assert image - from == W64 * t + z && z == d * q + z % d;
    var i, r := image / d, image % d;
    assert image == d * i + r;
    assert from + z % d == d * (i - e * t - q) + r by {
      assert d * (i - e * t - q) == d * i - d * (e * t) - d * q;
      assert d * (e * t) == d * e * t;
    }
    ModUnique(from + z % d, d, i - e * t - q, r);
  }

  // ---- Static offsets ----

  /** A module with thread-local storage: its image, size, alignment 2^k, and offset from the thread pointer. */
  datatype Placed = Placed(image: nat, size: nat, k: nat, offset: nat)

  /** Modules lie one after the other from base up to top, each agreeing with its image modulo its
      alignment; 2^a is the largest alignment, and at least 2^a0. */
  ghost predicate LayoutOk(ms: seq<Placed>, base: nat, top: nat, a0: nat, a: nat) {
    && base <= top && a0 <= a < 64
    && (forall i :: 0 <= i < |ms| ==> base <= ms[i].offset && ms[i].offset + ms[i].size <= top)
    && (forall i, j :: 0 <= i < j < |ms| ==> ms[i].offset + ms[i].size <= ms[j].offset)
    && (forall i :: 0 <= i < |ms| ==> ms[i].k <= a && ms[i].offset % Pow2(ms[i].k) == ms[i].image % Pow2(ms[i].k))
    && (a == a0 || exists i :: 0 <= i < |ms| && ms[i].k == a)
  }

  lemma Extend(ms: seq<Placed>, base: nat, top: nat, a0: nat, a: nat, m: Placed)
    requires LayoutOk(ms, base, top, a0, a) && m.k < 64 && m.offset >= top
    requires m.offset % Pow2(m.k) == m.image % Pow2(m.k)
    ensures LayoutOk(ms + [m], base, m.offset + m.size, a0, if a <= m.k then m.k else a)
  {
    var ms' := ms + [m];
    if a <= m.k {
      assert ms'[|ms|].k == m.k;
    } else if a != a0 {
      var i :| 0 <= i < |ms| && ms[i].k == a;
      assert ms'[i].k == a;
    }
  }

  class TlsState {
    var cnt: nat                      // tls_cnt
    var offset: nat                   // tls_offset
    var align: nat                    // tls_align
    ghost var modules: seq<Placed>
    ghost var base: nat
    ghost var a0: nat
    ghost var a: nat

    ghost predicate Valid()
      reads this
    {
      cnt == |modules| && LayoutOk(modules, base, offset, a0, a) && align == Pow2(a)
    }

    /** Before the first module; the main program's storage starts GAP_ABOVE_TP bytes up, others at 0. */
    constructor (gap: nat, minAlign: nat)
      requires minAlign < 64
      ensures Valid() && modules == [] && base == gap == offset && a0 == minAlign
    {
      cnt, offset, align, modules, base, a0, a := 0, gap, Pow2(minAlign), [], gap, minAlign, minAlign;
    }

    /** load_library's part for a module with an image. */
    method AddModule(image: nat, size: nat, k: nat) returns (id: nat, off: nat)
      requires Valid() && k < 64 && offset + Pow2(k) + size < W64
      modifies this
      ensures Valid() && base == old(base) && a0 == old(a0)
      ensures id == cnt == old(cnt) + 1 && modules == old(modules) + [Placed(image, size, k, off)]
      ensures old(offset) <= off < old(offset) + Pow2(k) && offset == off + size
    {
      PadFits(offset, image, k);
      MaxP2IsMax(a, k);
      off := offset + Pad(offset, image, k);
      Extend(modules, base, offset, a0, a, Placed(image, size, k, off));
      cnt, id := cnt + 1, cnt + 1;
      align := MaxP2(align, Pow2(k));
      offset := off + size;
      modules := modules + [Placed(image, size, k, off)];
      a := if a <= k then k else a;
    }
  }

  // ---- A new thread ----

  /** update_tls_size: room for the DTV, all modules and the thread structure of td bytes. */
  function TlsSize(cnt: nat, offset: nat, td: nat, align: nat): (r: nat)
    requires align > 0
  {
    ((1 + cnt) * 8 + offset + td + align * 2 + align - 1) / align * align
  }

  /** The least multiple of the alignment with room for a DTV, the modules, the thread structure and twice the
      alignment. */
  lemma TlsSizeExactly(cnt: nat, offset: nat, td: nat, align: nat)
    requires align > 0
    ensures var x, r := 8 + 8 * cnt + offset + td + align + align, TlsSize(cnt, offset, td, align); x <= r < x + align && r % align == 0
  {
    var x := 8 + 8 * cnt + offset + td + align + align;
    var q := (x + align - 1) / align;
    assert x + align - 1 == align * q + (x + align - 1) % align;
    ModUnique(q * align, align, q, 0);
  }

  /** The thread pointer __copy_tls derives from mem: mem plus padding plus the thread structure. */
  function ThreadPointer(mem: nat, td: nat, a: nat): (tp: nat) {
    mem + Pad(mem + td, 0, a) + td
  }

  lemma Divides(x: nat, i: nat, a: nat)
    requires i <= a && x % Pow2(a) == 0
    ensures x % Pow2(i) == 0
  {
    Pow2Add(i, a - i);
    MultipleOf(x, Pow2(i), Pow2(a - i));
  }

  lemma MultipleOf(x: nat, d: nat, e: nat)
    requires d > 0 && e > 0 && d * e > 0 && x % (d * e) == 0
    ensures x % d == 0
  {
    var q := x / (d * e);
    assert x == d * e * q;
    MulSwap(q, e, d);
    ModUnique(x, d, e * q, 0);
  }

  lemma AddAligned(tp: nat, off: nat, d: nat)
    requires d > 0 && tp % d == 0
    ensures (tp + off) % d == off % d
  {
    var q, i, r := tp / d, off / d, off % d;
    assert tp + off == d * (q + i) + r by { assert d * (q + i) == d * q + d * i; }
    ModUnique(tp + off, d, q + i, r);
  }

  /** In the block of tls_size bytes at mem, every module's copy lies between the thread structure and
      the DTV, apart from the others, and agrees with its image modulo its alignment. */
  lemma NewThreadFits(ms: seq<Placed>, base: nat, top: nat, a0: nat, a: nat, td: nat, mem: nat, i: nat)
    requires LayoutOk(ms, base, top, a0, a) && i < |ms|
    ensures var tp, dtv := ThreadPointer(mem, td, a), mem + TlsSize(|ms|, top, td, Pow2(a)) - 8 * (|ms| + 1);
      && mem + td <= tp < mem + td + Pow2(a) && tp % Pow2(a) == 0
      && tp + ms[i].offset + ms[i].size <= dtv
      && (tp + ms[i].offset) % Pow2(ms[i].k) == ms[i].image % Pow2(ms[i].k)
  {
    PadFits(mem + td, 0, a);
    TlsSizeExactly(|ms|, top, td, Pow2(a));
    var tp := ThreadPointer(mem, td, a);
    DivUnique(0, Pow2(a), 0, 0);
    Divides(tp, ms[i].k, a);
    AddAligned(tp, ms[i].offset, Pow2(ms[i].k));
  }

  // ---- Reservations for running threads ----

  /** What load_library allocates for a new object: its structure and name, and for each of n threads
      an aligned copy of the storage and a DTV with one slot more; none if that overflows. */
  function PerThread(size: nat, align: nat, cnt: nat): (r: nat) {
    size + align + 8 * (cnt + 3)
  }

  function AllocSize(dso: nat, len: nat, n: nat, size: nat, align: nat, cnt: nat): (r: Option<nat>) {
    if n > 0x7fff_ffff_ffff_ffff / PerThread(size, align, cnt) then None
    else Some(dso + len + 1 + n * PerThread(size, align, cnt))
  }

  /** The reservation is made exactly when it fits a signed word, and is exactly so long. */
  lemma AllocExactly(dso: nat, len: nat, n: nat, size: nat, align: nat, cnt: nat)
    ensures AllocSize(dso, len, n, size, align, cnt) ==
      if n * (size + align + 8 * cnt + 24) <= 0x7fff_ffff_ffff_ffff then Some(dso + len + 1 + n * (size + align + 8 * cnt + 24)) else None
  {
    var per := size + align + 8 * cnt + 24;
    assert PerThread(size, align, cnt) == per;
    AtMostQuotient(n, 0x7fff_ffff_ffff_ffff, per);
  }

  lemma AtMostQuotient(n: nat, m: nat, d: nat)
    requires d > 0
    ensures n <= m / d <==> n * d <= m
  {
    var q, r := m / d, m % d;
    assert m == d * q + r;
    if n <= q {
      MulLe(d, n, q);
    } else {
      MulLe(d, q + 1, n);
      assert d * (q + 1) == d * q + d;
    }
  }

  /** Where the new DTVs start, after the name of len bytes; cnt is tls_cnt before the new object. */
  function NewDtv(name: nat, len: nat): (r: nat) {
    (name + len + 8) / 8 * 8
  }

  function NewTls(name: nat, len: nat, n: nat, cnt: nat): (r: nat) {
    NewDtv(name, len) + 8 * (n * (cnt + 2))
  }

  function ThreadMem(name: nat, len: nat, n: nat, cnt: nat, size: nat, align: nat, j: nat): (r: nat) {
    NewTls(name, len, n, cnt) + j * (size + align)
  }

  /** The first word boundary behind the name and its null. */
  lemma DtvExactly(name: nat, len: nat)
    ensures NewDtv(name, len) % 8 == 0 && name + len + 1 <= NewDtv(name, len) < name + len + 9
  {
  }

  lemma MulLess(j: nat, n: nat, x: nat)
    requires j < n
    ensures j * x + x <= n * x
  {
    assert (j + 1) * x <= n * x;
  }

  lemma PerThreadSum(n: nat, size: nat, align: nat, cnt: nat)
    ensures n * PerThread(size, align, cnt) == n * (size + align) + 8 * (n * (cnt + 2)) + 8 * n
  {
    assert n * (size + align + 8 * (cnt + 3)) == n * (size + align) + n * (8 * (cnt + 2)) + n * 8;
  }

  /** Each thread's copy, padded to agree with the image, and its DTV fit in the allocation, after the
      name and apart from all others. */
  lemma ReservationFits(p: nat, dso: nat, name: nat, len: nat, n: nat, size: nat, k: nat, cnt: nat, image: nat, j: nat)
    requires k < 64 && p <= name <= p + dso && j < n
    requires AllocSize(dso, len, n, size, Pow2(k), cnt).Some?
    ensures var mem := ThreadMem(name, len, n, cnt, size, Pow2(k), j);
      var new' := mem + Pad(mem, image, k);
      && name + len + 1 <= NewDtv(name, len)
      && NewDtv(name, len) + 8 * (j * (cnt + 2)) + 8 * (cnt + 2) <= NewTls(name, len, n, cnt)
      && mem <= new' && new' + size < ThreadMem(name, len, n, cnt, size, Pow2(k), j + 1)
      && ThreadMem(name, len, n, cnt, size, Pow2(k), j + 1) <= p + AllocSize(dso, len, n, size, Pow2(k), cnt).value
      && new' % Pow2(k) == image % Pow2(k)
  {
    var mem := ThreadMem(name, len, n, cnt, size, Pow2(k), j);
    PadFits(mem, image, k);
    MulLess(j, n, cnt + 2);
    MulLess(j, n, size + Pow2(k));
    PerThreadSum(n, size, Pow2(k), cnt);
    assert (j + 1) * (size + Pow2(k)) == j * (size + Pow2(k)) + (size + Pow2(k));
  }
}

/** 64-bit word bitmaps and their searches (ukern/inc/bitmap.h). Positions are C ints. */
module Bitmap {
  import opened Words

  const FULL: nat := 0xffff_ffff_ffff_ffff
  const INT_MAX: nat := 0x7fff_ffff

  predicate Wordy(ws: seq<nat>) {
    forall k :: 0 <= k < |ws| ==> ws[k] <= FULL
  }

  function BitAt(ws: seq<nat>, i: nat): (b: bool)
    requires i / 64 < |ws|
  {
    Bit(ws[i / 64], i % 64)
  }

  /** All bits from a up to b are set. */
  ghost predicate AllSet(ws: seq<nat>, a: nat, b: nat)
    requires b <= 64 * |ws|
  {
    forall i: nat :: a <= i < b ==> BitAt(ws, i)
  }

  ghost predicate AllClear(ws: seq<nat>, a: nat, b: nat)
    requires b <= 64 * |ws|
  {
    forall i: nat :: a <= i < b ==> !BitAt(ws, i)
  }

  // ---- Setting and clearing ----

  /** ws' is ws with the bits from a up to b set to v. */
  ghost predicate Updated(ws: seq<nat>, ws': seq<nat>, a: nat, b: nat, v: bool) {
    && |ws'| == |ws| && Wordy(ws')
    && forall i: nat :: i < 64 * |ws| ==> BitAt(ws', i) == if a <= i < b then v else BitAt(ws, i)
  }

  lemma OrBit(x: nat, b: nat)
    requires x <= FULL && b < 64
    ensures BitOr(x, Pow2(b)) <= FULL
    ensures forall i: nat :: i < 64 ==> Bit(BitOr(x, Pow2(b)), i) == (i == b || Bit(x, i))
  {
    Pow2Word();
    Pow2Mono(b, 64);
    BitOrBelow(x, Pow2(b), 64);
    forall i: nat | i < 64 ensures Bit(BitOr(x, Pow2(b)), i) == (i == b || Bit(x, i)) {
      BitOfOr(x, Pow2(b), i);
      BitPow2(b, i);
    }
  }

  /** ~BIT(b). */
  function NotBit(b: nat): (r: nat)
    requires b < 64
  {
    Pow2Word();
    Pow2Mono(b, 64);
    FULL - Pow2(b)
  }

  lemma AndNotBit(x: nat, b: nat)
    requires x <= FULL && b < 64
    ensures BitAnd(x, NotBit(b)) <= FULL
    ensures forall i: nat :: i < 64 ==> Bit(BitAnd(x, NotBit(b)), i) == (i != b && Bit(x, i))
  {
    Pow2Word();
    Pow2Mono(b, 64);
    BitAndComm(x, NotBit(b));
    BitAndAtMost(NotBit(b), x);
    forall i: nat | i < 64 ensures Bit(BitAnd(x, NotBit(b)), i) == (i != b && Bit(x, i)) {
      BitOfAnd(x, NotBit(b), i);
      BitOfNot(Pow2(b), 64, i);
      BitPow2(b, i);
    }
  }

  lemma WordUpdated(ws: seq<nat>, p: nat, w: nat, v: bool)
    requires Wordy(ws) && p < 64 * |ws| && w <= FULL
    requires forall i: nat :: i < 64 ==> Bit(w, i) == if i == p % 64 then v else Bit(ws[p / 64], i)
    ensures Updated(ws, ws[p / 64 := w], p, p + 1, v)
  {
    var ws' := ws[p / 64 := w];
    forall i: nat | i < 64 * |ws| ensures BitAt(ws', i) == if p <= i < p + 1 then v else BitAt(ws, i) {
      assert i / 64 < |ws|;
    }
  }

  method SetBit(bm: array<nat>, index: nat)
    requires Wordy(bm[..]) && index < 64 * bm.Length
    modifies bm
    ensures Updated(old(bm[..]), bm[..], index, index + 1, true)
  {
    var wi, bi := index / 64, index % 64;
    OrBit(bm[wi], bi);
    WordUpdated(bm[..], index, BitOr(bm[wi], Pow2(bi)), true);
    ghost var ws := bm[..];
    bm[wi] := BitOr(bm[wi], Pow2(bi));
    assert bm[..] == ws[wi := BitOr(ws[wi], Pow2(bi))];
  }

  method ClearBit(bm: array<nat>, index: nat)
    requires Wordy(bm[..]) && index < 64 * bm.Length
    modifies bm
    ensures Updated(old(bm[..]), bm[..], index, index + 1, false)
  {
    var wi, bi := index / 64, index % 64;
    AndNotBit(bm[wi], bi);
    WordUpdated(bm[..], index, BitAnd(bm[wi], NotBit(bi)), false);
    ghost var ws := bm[..];
    bm[wi] := BitAnd(bm[wi], NotBit(bi));
    assert bm[..] == ws[wi := BitAnd(ws[wi], NotBit(bi))];
  }

  method SetBits(bm: array<nat>, index: nat, len: nat)
    requires Wordy(bm[..]) && index + len <= 64 * bm.Length
    modifies bm
    ensures Updated(old(bm[..]), bm[..], index, index + len, true)
  {
    var i := 0;
    while i < len
      invariant i <= len && Updated(old(bm[..]), bm[..], index, index + i, true)
    {
      SetBit(bm, index + i);
      i := i + 1;
    }
  }

  // ---- Searching ----

  lemma FullWord(ws: seq<nat>, k: nat)
    requires Wordy(ws) && k < |ws|
    ensures ws[k] == FULL <==> AllSet(ws, 64 * k, 64 * k + 64)
    ensures ws[k] == 0 <==> AllClear(ws, 64 * k, 64 * k + 64)
  {
    Pow2Word();
    FullBits(ws[k], 64);
    forall p: nat | 64 * k <= p < 64 * k + 64 ensures BitAt(ws, p) == Bit(ws[k], p - 64 * k) {
      InWord(ws, k, p - 64 * k);
    }
    forall i: nat | i < 64 ensures Bit(ws[k], i) == BitAt(ws, 64 * k + i) {
      InWord(ws, k, i);
    }
  }

  /** Counts the set bits of w from b upwards by shifting them out. */
  method SkipOnes(w: nat, b: nat) returns (n: nat)
    requires w <= FULL && b < 64
    ensures b + n <= 64 && (forall i: nat :: b <= i < b + n ==> Bit(w, i)) && (b + n < 64 ==> !Bit(w, b + n))
  {
    var word := WordShr(w, b);
    n := 0;
    Pow2Word();
    while word % 2 == 1
      invariant word == WordShr(w, b + n) && b + n <= 64
      invariant forall i: nat :: b <= i < b + n ==> Bit(w, i)
      decreases word
    {
      if b + n == 64 { BitAbove(w, 64, 64); }
      assert Bit(w, b + n);
      ShrMore(w, b + n);
      word := WordShr(word, 1);
      n := n + 1;
    }
  }

  lemma ShrMore(w: nat, m: nat)
    ensures WordShr(WordShr(w, m), 1) == WordShr(w, m + 1)
    ensures WordShr(w, m) > 0 ==> WordShr(WordShr(w, m), 1) < WordShr(w, m)
  {
    Pow2Add(m, 1);
    assert Pow2(1) == 2;
    QuotQuot(w, Pow2(m), 2);
  }

  /** pos is the first clear bit from start on, or -1 if there is none below cap. */
  ghost predicate FirstClear(ws: seq<nat>, start: nat, cap: nat, pos: int)
    requires cap <= 64 * |ws|
  {
    if pos == -1 then AllSet(ws, start, cap)
    else start <= pos < cap && AllSet(ws, start, pos) && !BitAt(ws, pos)
  }

  ghost predicate FirstSet(ws: seq<nat>, start: nat, cap: nat, pos: int)
    requires cap <= 64 * |ws|
  {
    if pos == -1 then AllClear(ws, start, cap)
    else start <= pos < cap && AllClear(ws, start, pos) && BitAt(ws, pos)
  }

  /** The rest of start's word is all ones, but the word is not and start is not its first bit. */
  ghost predicate TailOnes(ws: seq<nat>, start: nat, cap: nat)
    requires cap <= 64 * |ws|
  {
    start < cap && start % 64 != 0 && ws[start / 64] != FULL &&
    forall i: nat :: start <= i < 64 * (start / 64) + 64 ==> Bit(ws[start / 64], i % 64)
  }

  /** What bitmap_find_next_0 promises of its result. */
  ghost predicate Next0(ws: seq<nat>, start: nat, cap: nat, pos: int)
    requires cap <= 64 * |ws|
  {
    if TailOnes(ws, start, cap) then pos == 64 * (start / 64) + 64 else FirstClear(ws, start, cap, pos)
  }

  /** The n ones found in word k from its bit b on, seen as positions. */
  lemma OnesFound(ws: seq<nat>, k: nat, b: nat, n: nat)
    requires Wordy(ws) && k < |ws| && b < 64 && b + n <= 64 && ws[k] != FULL
    requires (forall i: nat :: b <= i < b + n ==> Bit(ws[k], i)) && (b + n < 64 ==> !Bit(ws[k], b + n))
    ensures AllSet(ws, 64 * k + b, 64 * k + b + n)
    ensures b + n < 64 ==> !BitAt(ws, 64 * k + b + n)
    ensures b == 0 ==> n < 64
  {
    forall p: nat | 64 * k + b <= p < 64 * k + b + n ensures BitAt(ws, p) {
      InWord(ws, k, p - 64 * k);
    }
    if b + n < 64 { InWord(ws, k, b + n); }
    if b == 0 && n == 64 {
      Pow2Word();
      FullBits(ws[k], 64);
    }
  }

  lemma InWord(ws: seq<nat>, k: nat, i: nat)
    requires k < |ws| && i < 64
    ensures BitAt(ws, 64 * k + i) == Bit(ws[k], i)
  {
    assert (64 * k + i) / 64 == k && (64 * k + i) % 64 == i;
  }

  /** The tail of start's word is all ones exactly when the count of ones reaches the word's end. */
  lemma TailReached(ws: seq<nat>, start: nat, cap: nat, n: nat)
    requires Wordy(ws) && cap <= 64 * |ws| && start < cap
    requires var k, b := start / 64, start % 64;
      && ws[k] != FULL && b + n <= 64
      && (forall i: nat :: b <= i < b + n ==> Bit(ws[k], i)) && (b + n < 64 ==> !Bit(ws[k], b + n))
    ensures TailOnes(ws, start, cap) <==> start % 64 + n == 64
  {
    var k, b := start / 64, start % 64;
    if b + n < 64 {
      assert (start + n) % 64 == b + n;
      assert !Bit(ws[k], (start + n) % 64);
    } else {
      OnesFound(ws, k, b, n);
      forall i: nat | start <= i < 64 * k + 64 ensures Bit(ws[k], i % 64) {
        assert i % 64 == i - 64 * k;
      }
    }
  }

  lemma Found0(ws: seq<nat>, start: nat, cap: nat, k: nat, n: nat)
    requires Wordy(ws) && cap <= 64 * |ws| && 64 * k + 64 <= cap && start / 64 <= k && ws[k] != FULL
    requires var b := if k == start / 64 then start % 64 else 0;
      && b + n <= 64 && (forall i: nat :: b <= i < b + n ==> Bit(ws[k], i)) && (b + n < 64 ==> !Bit(ws[k], b + n))
    requires k > start / 64 ==> AllSet(ws, start, 64 * k) && !TailOnes(ws, start, cap)
    ensures Next0(ws, start, cap, (if k == start / 64 then start else 64 * k) + n)
  {
    if k == start / 64 {
      OnesFound(ws, k, start % 64, n);
      TailReached(ws, start, cap, n);
    } else {
      OnesFound(ws, k, 0, n);
    }
  }

  /** bitmap_find_next_0: exact, except that it stops at the next word when the tail of the first is all ones. */
  method FindNext0(bm: array<nat>, size: nat, start: nat) returns (pos: int)
    requires Wordy(bm[..]) && size / 8 <= bm.Length && 64 * (size / 8) <= INT_MAX
    ensures Next0(bm[..], start, 64 * (size / 8), pos)
  {
    var wsize, wi, bi := size / 8, start / 64, start % 64;
    ghost var ws := bm[..];
    pos := start;
    var i := wi;
    while i < wsize
      invariant wi <= i && (i <= wsize || i == wi)
      invariant pos == if i == wi then start else 64 * i
      invariant i > wi ==> AllSet(ws, start, 64 * i) && !TailOnes(ws, start, 64 * wsize)
    {
      var word := bm[i];
      FullWord(ws, i);
      ShrFull(word, bi);
      // The source makes these two tests one after the other, with the same effect.
      if word == FULL || (i == wi && WordShr(word, bi) == FULL) {
        pos := 64 * (i + 1);
        i := i + 1;
        continue;
      }
      var n := SkipOnes(word, if i == wi then bi else 0);
      Found0(ws, start, 64 * wsize, i, n);
      pos := pos + n;
      return;
    }
    return -1;
  }

  /** A word shifted right is all ones only if the word is. */
  lemma ShrFull(w: nat, b: nat)
    requires w <= FULL
    ensures WordShr(w, b) == FULL ==> w == FULL
  {
    if WordShr(w, b) == FULL {
      assert w == Pow2(b) * FULL + w % Pow2(b);
      MulMono(FULL, Pow2(b));
    }
  }

  lemma {:induction false} CtzBits(x: nat, n: nat)
    requires 0 < x < Pow2(n)
    ensures Ctz(x) < n && Bit(x, Ctz(x)) && forall i: nat :: i < Ctz(x) ==> !Bit(x, i)
    decreases n
  {
    BitZero(x);
    if x % 2 == 0 {
      CtzBits(x / 2, n - 1);
      BitNext(x, Ctz(x / 2));
      forall i: nat | i < Ctz(x) ensures !Bit(x, i) {
        if i > 0 { BitNext(x, i - 1); }
      }
    }
  }

  /** The first set bit of word k from its bit b on, seen as a position. */
  lemma Found1(ws: seq<nat>, k: nat, b: nat)
    requires Wordy(ws) && k < |ws| && b < 64 && WordShr(ws[k], b) != 0
    ensures var pos := 64 * k + b + Ctz(WordShr(ws[k], b));
      pos < 64 * k + 64 && AllClear(ws, 64 * k + b, pos) && BitAt(ws, pos)
  {
    var c := Ctz(WordShr(ws[k], b));
    FirstInWord(ws[k], b);
    InWord(ws, k, b + c);
    forall p: nat | 64 * k + b <= p < 64 * k + b + c ensures !BitAt(ws, p) {
      InWord(ws, k, p - 64 * k);
    }
  }

  lemma FirstInWord(w: nat, b: nat)
    requires w <= FULL && b < 64 && WordShr(w, b) != 0
    ensures var c := Ctz(WordShr(w, b));
      b + c < 64 && Bit(w, b + c) && forall i: nat :: b <= i < b + c ==> !Bit(w, i)
  {
    var v := WordShr(w, b);
    Pow2Word();
    ShrBelow(w, b);
    CtzBits(v, 64);
    var c := Ctz(v);
    BitShr(w, b, c);
    if b + c >= 64 { BitAbove(w, 64, b + c); }
    forall i: nat | b <= i < b + c ensures !Bit(w, i) { BitShr(w, b, i - b); }
  }

  lemma ShrBelow(w: nat, b: nat)
    ensures WordShr(w, b) <= w
  {
    assert w == Pow2(b) * WordShr(w, b) + w % Pow2(b);
    MulMono(WordShr(w, b), Pow2(b));
  }

  lemma None1(ws: seq<nat>, k: nat, b: nat)
    requires Wordy(ws) && k < |ws| && b < 64 && WordShr(ws[k], b) == 0
    ensures AllClear(ws, 64 * k + b, 64 * k + 64)
  {
    forall p: nat | 64 * k + b <= p < 64 * k + 64 ensures !BitAt(ws, p) {
      BitShr(ws[k], b, p - 64 * k - b);
      assert WordShr(0, p - 64 * k - b) == 0 by { QuotZero(0, Pow2(p - 64 * k - b)); }
    }
  }

  /** bitmap_find_next_1: exact. */
  method FindNext1(bm: array<nat>, size: nat, start: nat) returns (pos: int)
    requires Wordy(bm[..]) && size / 8 <= bm.Length && 64 * (size / 8) <= INT_MAX
    ensures FirstSet(bm[..], start, 64 * (size / 8), pos)
  {
    var wsize, wi, bi := size / 8, start / 64, start % 64;
    ghost var ws := bm[..];
    pos := start;
    var i := wi;
    while i < wsize
      invariant wi <= i && (i <= wsize || i == wi)
      invariant pos == if i == wi then start else 64 * i
      invariant i > wi ==> AllClear(ws, start, 64 * i)
    {
      var word := bm[i];
      FullWord(ws, i);
      if word == 0 {
        pos := 64 * (i + 1);
        i := i + 1;
        continue;
      }
      var b := if i == wi then bi else 0;
      if i == wi {
        word := WordShr(word, bi);
        if word == 0 {
          None1(ws, i, bi);
          pos := 64 * (i + 1);
          i := i + 1;
          continue;
        }
      }
      QuotOne(ws[i]);
      Found1(ws, i, b);
      pos := pos + Ctz(word);
      return;
    }
    return -1;
  }

  /** Its result is the first clear bit exactly when the odd tail is absent or the next word starts clear. */
  lemma Next0Exact(ws: seq<nat>, start: nat, cap: nat, pos: int)
    requires Wordy(ws) && cap <= 64 * |ws| && cap % 64 == 0 && Next0(ws, start, cap, pos)
    ensures FirstClear(ws, start, cap, pos) <==>
      !TailOnes(ws, start, cap) || (64 * (start / 64) + 64 < cap && !BitAt(ws, 64 * (start / 64) + 64))
  {
    if TailOnes(ws, start, cap) {
      TailSet(ws, start, cap);
    }
  }

  lemma TailSet(ws: seq<nat>, start: nat, cap: nat)
    requires cap <= 64 * |ws| && cap % 64 == 0 && TailOnes(ws, start, cap)
    ensures 64 * (start / 64) + 64 <= cap && AllSet(ws, start, 64 * (start / 64) + 64)
  {
    forall p: nat | start <= p < 64 * (start / 64) + 64 ensures BitAt(ws, p) {
      assert p / 64 == start / 64;
      assert Bit(ws[start / 64], p % 64);
    }
  }

  /** The last bit of the first word and the first of the second are set: the answer is that set bit. */
  lemma BoundaryTaken(ws: seq<nat>)
    requires ws == [0x8000_0000_0000_0000, 1]
    ensures Next0(ws, 63, 128, 64) && BitAt(ws, 64) && !FirstClear(ws, 63, 128, 64)
  {
    Pow2Word();
    assert Pow2(63) == 0x8000_0000_0000_0000;
    BitPow2(63, 63);
    BitZero(1);
    assert 63 / 64 == 0 && 64 / 64 == 1 && 64 % 64 == 0;
  }

  /** In every case no clear bit from start on is missed. */
  lemma Next0Skips(ws: seq<nat>, start: nat, cap: nat, pos: int, q: nat)
    requires Wordy(ws) && cap <= 64 * |ws| && cap % 64 == 0 && Next0(ws, start, cap, pos)
    requires start <= q < cap && !BitAt(ws, q)
    ensures pos != -1 && pos <= q
  {
    if TailOnes(ws, start, cap) {
      TailSet(ws, start, cap);
    }
  }

  /** count bits from q on are clear (one at least) and end before cap. */
  ghost predicate FreeArea(ws: seq<nat>, q: nat, count: nat, cap: nat)
    requires cap <= 64 * |ws|
  {
    q + count < cap && !BitAt(ws, q) && AllClear(ws, q, q + count)
  }

  /** bitmap_find_next_0_area: the least free area from start on, or -1 exactly when there is none. */
  method FindNext0Area(bm: array<nat>, size: nat, start0: nat, count: nat) returns (pos: int)
    requires Wordy(bm[..]) && size / 8 <= bm.Length && 64 * (size / 8) + count <= INT_MAX
    ensures pos == -1 || (pos >= start0 && FreeArea(bm[..], pos, count, 64 * (size / 8)))
    ensures forall q: nat :: start0 <= q && (pos == -1 || q < pos) ==> !FreeArea(bm[..], q, count, 64 * (size / 8))
  {
    var start := start0;
    ghost var ws, cap := bm[..], 64 * (size / 8);
    ModUnique(cap, 64, size / 8, 0);
    while true
      invariant start0 <= start && (start <= cap || start == start0)
      invariant forall q: nat :: start0 <= q < start ==> !FreeArea(ws, q, count, cap)
      decreases cap - start
    {
      pos := FindNext0(bm, size, start);
      if pos == -1 { return; }
      var end := pos + count;
      if end >= 64 * (size / 8) {
        NoneLeft(ws, start, cap, pos, count);
        return -1;
      }
      var i := FindNext1(bm, size, start);
      if i != -1 && i < end {
        SkipTo(ws, start, cap, pos, count, i);
        start := i + 1;
      } else {
        FoundArea(ws, start, cap, pos, count, i);
        return;
      }
    }
  }

  lemma NoneLeft(ws: seq<nat>, start: nat, cap: nat, pos: nat, count: nat)
    requires Wordy(ws) && cap <= 64 * |ws| && cap % 64 == 0 && Next0(ws, start, cap, pos) && pos + count >= cap
    ensures forall q: nat :: start <= q ==> !FreeArea(ws, q, count, cap)
  {
    forall q: nat | start <= q ensures !FreeArea(ws, q, count, cap) {
      if FreeArea(ws, q, count, cap) { Next0Skips(ws, start, cap, pos, q); }
    }
  }

  lemma SkipTo(ws: seq<nat>, start: nat, cap: nat, pos: nat, count: nat, i: nat)
    requires Wordy(ws) && cap <= 64 * |ws| && cap % 64 == 0 && Next0(ws, start, cap, pos)
    requires FirstSet(ws, start, cap, i) && i < pos + count
    ensures forall q: nat :: start <= q <= i ==> !FreeArea(ws, q, count, cap)
  {
    forall q: nat | start <= q <= i ensures !FreeArea(ws, q, count, cap) {
      if FreeArea(ws, q, count, cap) {
        Next0Skips(ws, start, cap, pos, q);
      }
    }
  }

  lemma FoundArea(ws: seq<nat>, start: nat, cap: nat, pos: nat, count: nat, i: int)
    requires Wordy(ws) && cap <= 64 * |ws| && cap % 64 == 0 && Next0(ws, start, cap, pos)
    requires FirstSet(ws, start, cap, i) && (i == -1 || i >= pos + count) && pos + count < cap
    ensures pos == start && FreeArea(ws, pos, count, cap)
  {
    if i == -1 || i > start {
      assert !BitAt(ws, start);
      Next0Skips(ws, start, cap, pos, start);
      Next0From(ws, start, cap, pos);
    } else {
      // start itself is set, so pos lies beyond it and i is below pos + count
      Next0Beyond(ws, start, cap, pos);
    }
  }

  lemma Next0From(ws: seq<nat>, start: nat, cap: nat, pos: nat)
    requires Wordy(ws) && cap <= 64 * |ws| && Next0(ws, start, cap, pos)
    ensures pos >= start
  {
  }

  lemma Next0Beyond(ws: seq<nat>, start: nat, cap: nat, pos: nat)
    requires Wordy(ws) && cap <= 64 * |ws| && Next0(ws, start, cap, pos) && start < cap && BitAt(ws, start)
    ensures pos > start
  {
  }
}

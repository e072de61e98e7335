/** Machine words as natural numbers: powers of two, bitwise operators, fields. */
module Words {
  const W64: nat := 0x1_0000_0000_0000_0000

  function Pow2(n: nat): (r: nat)
    ensures r > 0
  {
    if n == 0 then 1 else 2 * Pow2(n - 1)
  }

  /** Bit i of a word. */
  function Bit(x: nat, i: nat): (b: bool) {
    WordShr(x, i) % 2 == 1
  }

  /** x << n on a 64-bit word. */
  function WordShl(x: nat, n: nat): (r: nat)
    ensures r < W64
  {
    x * Pow2(n) % W64
  }

  /** x >> n on an unsigned word. */
  function WordShr(x: nat, n: nat): (r: nat) {
    Quot(x, Pow2(n))
  }

  function Quot(x: nat, d: nat): (r: nat)
    requires d > 0
  {
    x / d
  }

  /** Count of trailing zeros as the rbit/clz pair computes it: 64 for the zero word. */
  function Ctz(x: nat): (r: nat) {
    if x == 0 then 64 else if x % 2 == 1 then 0 else 1 + Ctz(x / 2)
  }

  // The three bitwise operators, bit by bit from the low end.

  function BitOr(x: nat, y: nat): (r: nat) {
    if x == 0 && y == 0 then 0
    else (if x % 2 == 1 || y % 2 == 1 then 1 else 0) + 2 * BitOr(x / 2, y / 2)
  }

  function BitAnd(x: nat, y: nat): (r: nat) {
    if x == 0 || y == 0 then 0
    else (if x % 2 == 1 && y % 2 == 1 then 1 else 0) + 2 * BitAnd(x / 2, y / 2)
  }

  function BitXor(x: nat, y: nat): (r: nat) {
    if x == 0 && y == 0 then 0
    else (if x % 2 != y % 2 then 1 else 0) + 2 * BitXor(x / 2, y / 2)
  }

  lemma {:induction false} Pow2Add(m: nat, n: nat)
    ensures Pow2(m + n) == Pow2(m) * Pow2(n)
  {
    if m > 0 { Pow2Add(m - 1, n); }
  }

  lemma {:induction false} Pow2Mono(m: nat, n: nat)
    requires m <= n
    ensures Pow2(m) <= Pow2(n)
    ensures m < n ==> Pow2(m) < Pow2(n)
  {
    if m < n { Pow2Mono(m, n - 1); }
  }

  lemma Pow2Word()
    ensures Pow2(32) == 0x1_0000_0000 && Pow2(64) == W64
  {
    assert Pow2(8) == 0x100;
    Pow2Add(8, 8);
    Pow2Add(16, 16);
    Pow2Add(32, 32);
  }

  lemma MulSwap(x: int, w: int, e: int)
    ensures e * (w * x) == (w * e) * x
  {
  }

  lemma Pow2Above(n: nat)
    requires n >= 64
    ensures Pow2(n) == W64 * Pow2(n - 64)
  {
    Pow2Word();
    Pow2Add(64, n - 64);
  }

  lemma MulDist(a: int, w: int, b: int, m: int)
    ensures m * (a + w * b) == m * a + w * (m * b)
  {
  }

  lemma MulDist2(a: int, b: int, t: int, u: int)
    ensures a * (b * t + u) == a * b * t + a * u
  {
  }

  lemma MulLe(a: nat, x: int, y: int)
    requires x <= y
    ensures a * x <= a * y
  {
  }

  lemma DivMod(x: nat, d: nat)
    requires d > 0
    ensures x == d * (x / d) + x % d && 0 <= x % d < d
  {
  }

  lemma ModFactor(x: nat, a: nat, b: nat)
    requires a > 0 && b > 0 && a * b > 0 && x % (a * b) == 0
    ensures x % a == 0
  {
    var q := x / (a * b);
    DivMod(x, a * b);
    assert a * b * q == a * (b * q);
    DivUnique(x, a, b * q, 0);
  }

  lemma DivTwice(x: nat, a: nat, b: nat, q: nat, r: nat, t: nat, u: nat)
    requires x == a * q + r && r < a && q == b * t + u && u < b
    ensures x == a * b * t + (a * u + r) && a * u + r < a * b
  {
    MulDist2(a, b, t, u);
    MulLe(a, u + 1, b);
  }

  lemma DivDiv(x: nat, a: nat, b: nat)
    requires a > 0 && b > 0
    ensures a * b > 0 && x / a / b == x / (a * b)
  {
    var q, r := x / a, x % a;
    var t, u := q / b, q % b;
    DivMod(x, a);
    DivMod(q, b);
    DivTwice(x, a, b, q, r, t, u);
    DivUnique(x, a * b, t, a * u + r);
  }

  lemma QuotQuot(x: nat, a: nat, b: nat)
    requires a > 0 && b > 0
    ensures a * b > 0 && Quot(Quot(x, a), b) == Quot(x, a * b)
  {
    DivDiv(x, a, b);
  }

  lemma QuotZero(x: nat, d: nat)
    requires x < d
    ensures Quot(x, d) == 0
  {
    DivUnique(x, d, 0, x);
  }

  lemma DivUnique(x: nat, d: nat, q: nat, r: nat)
    requires d > 0 && r < d && x == d * q + r
    ensures x / d == q && x % d == r
  {
    var q', r' := x / d, x % d;
    assert x == d * q' + r';
    SmallMultiple(d, q' - q, r - r');
  }

  lemma ModUnique(x: int, d: nat, q: int, r: int)
    requires d > 0 && 0 <= r < d && x == d * q + r
    ensures x % d == r
  {
    var q', r' := x / d, x % d;
    assert x == d * q' + r';
    SmallMultiple(d, q' - q, r - r');
  }

  lemma SmallMultiple(d: int, k: int, e: int)
    requires d * k == e && -d < e < d
    ensures k == 0
  {
    MulMono(d, k);
  }

  lemma WordSplit(n: nat)
    requires n <= 64
    ensures Pow2(n) * Pow2(64 - n) == W64
  {
    Pow2Word();
    Pow2Add(n, 64 - n);
  }

  lemma QuotLess(x: nat, d: nat, w: int)
    requires d > 0 && x < d * w
    ensures x / d < w
  {
    var t := x / d;
    assert x == d * t + x % d;
    MulMono(d, t - w + 1);
    assert d * (t - w + 1) == d * t - d * w + d;
  }

  lemma MulMono(d: int, k: int)
    requires d >= 0
    ensures k >= 1 ==> d * k >= d
    ensures k <= -1 ==> d * k <= -d
  {
  }

  lemma {:induction false} BitOrZero(x: nat)
    ensures BitOr(x, 0) == x && BitOr(0, x) == x && BitXor(x, 0) == x
  {
    if x > 0 { BitOrZero(x / 2); }
  }

  /** Or of a multiple of 2^n with a number below 2^n is their sum. */
  lemma {:induction false} BitOrDisjoint(x: nat, y: nat, n: nat)
    requires x % Pow2(n) == 0 && y < Pow2(n)
    ensures BitOr(x, y) == x + y && BitOr(y, x) == x + y
  {
    if n == 0 {
      BitOrZero(x);
    } else {
      var q := x / Pow2(n);
      assert x == Pow2(n) * q;
      assert x == 2 * (Pow2(n - 1) * q);
      DivUnique(x / 2, Pow2(n - 1), q, 0);
      BitOrDisjoint(x / 2, y / 2, n - 1);
    }
  }

  lemma {:induction false} BitOrShr(x: nat, y: nat, n: nat)
    ensures WordShr(BitOr(x, y), n) == BitOr(WordShr(x, n), WordShr(y, n))
  {
    if n > 0 {
      ShrStep(x, n);
      ShrStep(y, n);
      ShrStep(BitOr(x, y), n);
      OrHalf(x, y);
      BitOrShr(x / 2, y / 2, n - 1);
    } else {
      QuotOne(x);
      QuotOne(y);
      QuotOne(BitOr(x, y));
    }
  }

  lemma OrHalf(x: nat, y: nat)
    ensures BitOr(x, y) / 2 == BitOr(x / 2, y / 2)
  {
  }

  lemma ShrStep(x: nat, n: nat)
    requires n > 0
    ensures WordShr(x, n) == WordShr(x / 2, n - 1)
  {
    DivDiv(x, 2, Pow2(n - 1));
  }

  /** The low n bits of a word. */
  function LowBitsOf(x: nat, n: nat): (r: nat)
    decreases n
  {
    if n == 0 then 0 else x % 2 + 2 * LowBitsOf(x / 2, n - 1)
  }

  lemma {:induction false} LowBitsMod(x: nat, n: nat)
    ensures LowBitsOf(x, n) == x % Pow2(n)
  {
    if n > 0 {
      LowBitsMod(x / 2, n - 1);
      ModStep(x, Pow2(n - 1));
    }
  }

  lemma ModStep(x: nat, h: nat)
    requires h > 0
    ensures x % (2 * h) == x % 2 + 2 * (x / 2 % h)
  {
    var q, r := x / 2 / h, x / 2 % h;
    assert x / 2 == h * q + r;
    MulSwap(q, h, 2);
    DivUnique(x, 2 * h, q, x % 2 + 2 * r);
  }

  lemma {:induction false} BitOrLow(x: nat, y: nat, n: nat)
    ensures LowBitsOf(BitOr(x, y), n) == BitOr(LowBitsOf(x, n), LowBitsOf(y, n))
  {
    if n > 0 {
      BitOrLow(x / 2, y / 2, n - 1);
      OrHalf(x, y);
      BitOrJoin(x % 2, y % 2, LowBitsOf(x / 2, n - 1), LowBitsOf(y / 2, n - 1));
    }
  }

  lemma BitOrJoin(a: nat, b: nat, x: nat, y: nat)
    requires a < 2 && b < 2
    ensures BitOr(a + 2 * x, b + 2 * y) == (if a == 1 || b == 1 then 1 else 0) + 2 * BitOr(x, y)
  {
    assert (a + 2 * x) / 2 == x && (b + 2 * y) / 2 == y;
  }

  lemma BitOrMod(x: nat, y: nat, n: nat)
    ensures BitOr(x, y) % Pow2(n) == BitOr(x % Pow2(n), y % Pow2(n))
  {
    BitOrLow(x, y, n);
    LowBitsMod(x, n);
    LowBitsMod(y, n);
    LowBitsMod(BitOr(x, y), n);
  }

  lemma {:induction false} BitXorShr(x: nat, y: nat, n: nat)
    ensures WordShr(BitXor(x, y), n) == BitXor(WordShr(x, n), WordShr(y, n))
  {
    if n > 0 {
      ShrStep(x, n);
      ShrStep(y, n);
      ShrStep(BitXor(x, y), n);
      XorHalf(x, y);
      BitXorShr(x / 2, y / 2, n - 1);
    } else {
      QuotOne(x);
      QuotOne(y);
      QuotOne(BitXor(x, y));
    }
  }

  lemma XorHalf(x: nat, y: nat)
    ensures BitXor(x, y) / 2 == BitXor(x / 2, y / 2)
  {
  }

  lemma QuotOne(x: nat)
    ensures WordShr(x, 0) == x
  {
    DivUnique(x, 1, x, 0);
  }

  lemma AndStep(x: nat, y: nat)
    ensures BitAnd(x, y) == (if x % 2 == 1 && y % 2 == 1 then 1 else 0) + 2 * BitAnd(x / 2, y / 2)
  {
  }

  lemma AndHalf(x: nat, y: nat)
    ensures BitAnd(x, y) / 2 == BitAnd(x / 2, y / 2)
    ensures BitAnd(x, y) % 2 == if x % 2 == 1 && y % 2 == 1 then 1 else 0
  {
  }

  lemma {:induction false} BitAndShr(x: nat, y: nat, n: nat)
    ensures WordShr(BitAnd(x, y), n) == BitAnd(WordShr(x, n), WordShr(y, n))
  {
    if n > 0 {
      ShrStep(x, n);
      ShrStep(y, n);
      ShrStep(BitAnd(x, y), n);
      AndHalf(x, y);
      BitAndShr(x / 2, y / 2, n - 1);
    } else {
      QuotOne(x);
      QuotOne(y);
      QuotOne(BitAnd(x, y));
    }
  }

  lemma {:induction false} BitAndLow(x: nat, y: nat, n: nat)
    ensures LowBitsOf(BitAnd(x, y), n) == BitAnd(LowBitsOf(x, n), LowBitsOf(y, n))
  {
    if n > 0 {
      BitAndLow(x / 2, y / 2, n - 1);
      AndHalf(x, y);
      AndStep(LowBitsOf(x, n), LowBitsOf(y, n));
    }
  }

  lemma BitAndMod(x: nat, y: nat, n: nat)
    ensures BitAnd(x, y) % Pow2(n) == BitAnd(x % Pow2(n), y % Pow2(n))
  {
    BitAndLow(x, y, n);
    LowBitsMod(x, n);
    LowBitsMod(y, n);
    LowBitsMod(BitAnd(x, y), n);
  }

  lemma {:induction false} BitAndMask(x: nat, n: nat)
    requires x < Pow2(n)
    ensures BitAnd(x, Pow2(n) - 1) == x
  {
    if n > 0 {
      var h := Pow2(n - 1);
      assert (2 * h - 1) / 2 == h - 1 && (2 * h - 1) % 2 == 1;
      AndStep(x, 2 * h - 1);
      BitAndMask(x / 2, n - 1);
    }
  }

  lemma {:induction false} BitAndNot(x: nat, n: nat)
    requires x < Pow2(n)
    ensures BitAnd(x, Pow2(n) - 1 - x) == 0
  {
    if n > 0 {
      var h := Pow2(n - 1);
      assert (2 * h - 1 - x) / 2 == h - 1 - x / 2 && (2 * h - 1 - x) % 2 == 1 - x % 2;
      AndStep(x, 2 * h - 1 - x);
      BitAndNot(x / 2, n - 1);
    }
  }

  // ---- Masks ----

  /** Anding with 2^k - 1 takes the remainder. */
  lemma MaskMod(x: nat, k: nat)
    ensures BitAnd(Pow2(k) - 1, x) == x % Pow2(k)
  {
    BitAndComm(Pow2(k) - 1, x);
    var m := Pow2(k) - 1;
    BitAndMod(x, m, k);
    DivUnique(m, Pow2(k), 0, m);
    BitAndMask(x % Pow2(k), k);
    BitAndShr(x, m, k);
    QuotZero(m, Pow2(k));
    AndZero(WordShr(x, k));
    SmallQuot(BitAnd(x, m), Pow2(k));
  }

  lemma AndZero(x: nat)
    ensures BitAnd(x, 0) == 0
  {
  }

  lemma SmallQuot(x: nat, d: nat)
    requires d > 0 && Quot(x, d) == 0
    ensures x % d == x
  {
    assert x == d * (x / d) + x % d;
  }

  lemma {:induction false} BitAndComm(x: nat, y: nat)
    ensures BitAnd(x, y) == BitAnd(y, x)
  {
    if x > 0 && y > 0 { BitAndComm(x / 2, y / 2); }
  }

  lemma {:induction false} BitAndAtMost(x: nat, y: nat)
    ensures BitAnd(x, y) <= y
  {
    if x > 0 && y > 0 { BitAndAtMost(x / 2, y / 2); }
  }

  // ---- C ints ----

  /** An int, as a 64-bit word: 32 bits, the sign bit copied upwards. */
  function SignExtended(x: int): (r: nat) {
    var low := x % 0x1_0000_0000;
    if low < 0x8000_0000 then low else low + 0xffff_ffff_0000_0000
  }

  /** The low 32 bits are those of x, and all others copies of bit 31. */
  lemma SignExtendedIs(x: nat)
    ensures var r := SignExtended(x);
      r < W64 && r % 0x1_0000_0000 == x % 0x1_0000_0000 && (r < 0x8000_0000 || r >= W64 - 0x8000_0000)
  {
    var low := x % 0x1_0000_0000;
    if low >= 0x8000_0000 {
      ModUnique(low + 0xffff_ffff_0000_0000, 0x1_0000_0000, 0xffff_ffff, low);
    } else {
      ModUnique(low, 0x1_0000_0000, 0, low);
    }
  }

  lemma SignExtendedExactly(x: nat)
    requires x < 0x1_0000_0000_0000
    ensures SignExtended(x) == x <==> x < 0x8000_0000
    ensures SignExtended(x) % 0x1_0000_0000 == x % 0x1_0000_0000
  {
    var low := x % 0x1_0000_0000;
    ModUnique(low + 0xffff_ffff_0000_0000, 0x1_0000_0000, 0xffff_ffff, low);
  }

  // ---- Bits of one word ----

  lemma BitZero(x: nat)
    ensures Bit(x, 0) == (x % 2 == 1)
  {
    assert Pow2(0) == 1;
    DivUnique(x, 1, x, 0);
  }

  lemma BitNext(x: nat, i: nat)
    ensures Bit(x, i + 1) == Bit(x / 2, i)
  {
    ShrStep(x, i + 1);
  }

  lemma BitShr(x: nat, b: nat, i: nat)
    ensures Bit(WordShr(x, b), i) == Bit(x, b + i)
  {
    Pow2Add(b, i);
    QuotQuot(x, Pow2(b), Pow2(i));
  }

  lemma {:induction false} BitOrBelow(x: nat, y: nat, n: nat)
    requires x < Pow2(n) && y < Pow2(n)
    ensures BitOr(x, y) < Pow2(n)
  {
    if n > 0 { BitOrBelow(x / 2, y / 2, n - 1); }
  }

  lemma BitAbove(x: nat, n: nat, i: nat)
    requires x < Pow2(n) && n <= i
    ensures !Bit(x, i)
  {
    Pow2Mono(n, i);
    QuotZero(x, Pow2(i));
  }

  lemma BitPow2(b: nat, i: nat)
    ensures Bit(Pow2(b), i) <==> i == b
  {
    if i <= b {
      Pow2Add(i, b - i);
      DivUnique(Pow2(b), Pow2(i), Pow2(b - i), 0);
      if i < b { assert Pow2(b - i) == 2 * Pow2(b - i - 1); }
    } else {
      Pow2Mono(b, i);
      BitAbove(Pow2(b), i, i);
    }
  }

  lemma OddOr(x: nat, y: nat)
    ensures BitOr(x, y) % 2 == 1 <==> x % 2 == 1 || y % 2 == 1
    ensures BitAnd(x, y) % 2 == 1 <==> x % 2 == 1 && y % 2 == 1
  {
  }

  lemma BitOfOr(x: nat, y: nat, i: nat)
    ensures Bit(BitOr(x, y), i) <==> Bit(x, i) || Bit(y, i)
  {
    BitOrShr(x, y, i);
    OddOr(WordShr(x, i), WordShr(y, i));
  }

  lemma {:induction false} BitOfAnd(x: nat, y: nat, i: nat)
    ensures Bit(BitAnd(x, y), i) <==> Bit(x, i) && Bit(y, i)
    decreases i
  {
    if i == 0 {
      BitZero(x);
      BitZero(y);
      BitZero(BitAnd(x, y));
      OddOr(x, y);
    } else {
      BitNext(x, i - 1);
      BitNext(y, i - 1);
      BitNext(BitAnd(x, y), i - 1);
      BitOfAnd(x / 2, y / 2, i - 1);
      AndHalf(x, y);
    }
  }

  /** The complement in n bits. */
  lemma {:induction false} BitOfNot(x: nat, n: nat, i: nat)
    requires x < Pow2(n) && i < n
    ensures Bit(Pow2(n) - 1 - x, i) <==> !Bit(x, i)
    decreases i
  {
    var y := Pow2(n) - 1 - x;
    assert Pow2(n) == 2 * Pow2(n - 1);
    BitZero(x);
    BitZero(y);
    if i > 0 {
      BitNext(x, i - 1);
      BitNext(y, i - 1);
      assert y / 2 == Pow2(n - 1) - 1 - x / 2;
      BitOfNot(x / 2, n - 1, i - 1);
    }
  }

  lemma {:induction false} FullBits(x: nat, n: nat)
    requires x < Pow2(n)
    ensures x == Pow2(n) - 1 <==> forall i: nat :: i < n ==> Bit(x, i)
    ensures x == 0 <==> forall i: nat :: i < n ==> !Bit(x, i)
    decreases n
  {
    if n > 0 {
      FullBits(x / 2, n - 1);
      BitZero(x);
      forall i: nat | i < n ensures i > 0 ==> Bit(x, i) == Bit(x / 2, i - 1) {
        if i > 0 { BitNext(x, i - 1); }
      }
      assert forall i: nat :: i < n - 1 ==> Bit(x / 2, i) == Bit(x, i + 1) by {
        forall i: nat | i < n - 1 ensures Bit(x / 2, i) == Bit(x, i + 1) { BitNext(x, i); }
      }
    }
  }

  lemma AndDouble(x: nat, y: nat)
    ensures BitAnd(x, 2 * y) == 2 * BitAnd(x / 2, y)
  {
    AndStep(x, 2 * y);
  }

  /** Masking with m * 2^k looks at the bits from k on. */
  lemma {:induction false} AndScaled(x: nat, m: nat, k: nat)
    ensures BitAnd(x, m * Pow2(k)) == Pow2(k) * BitAnd(WordShr(x, k), m)
    decreases k
  {
    if k == 0 {
      QuotOne(x);
    } else {
      var h := Pow2(k - 1);
      assert m * Pow2(k) == 2 * (m * h) by { MulSwap(h, m, 2); }
      AndDouble(x, m * h);
      AndScaled(x / 2, m, k - 1);
      ShrStep(x, k);
      assert 2 * (h * BitAnd(WordShr(x, k), m)) == Pow2(k) * BitAnd(WordShr(x, k), m) by {
        MulSwap(BitAnd(WordShr(x, k), m), h, 2);
      }
    }
  }
}

/** The two-word bit vector p and its shift: which tree orders are present (ukern/src/qsort.c:49-102). */
module OrderBits {
  import opened Words

  datatype Bits = Bits(lo: nat, hi: nat)

  predicate Valid(p: Bits) {
    p.lo < W64 && p.hi < W64
  }

  function Val(p: Bits): nat {
    p.lo + W64 * p.hi
  }

  function PNtz(p: Bits): (r: nat) {
    var r := Ctz((p.lo - 1) % W64);
    if r != 0 then r
    else if 64 + Ctz(p.hi) != 64 then 64 + Ctz(p.hi)
    else 0
  }

  function Shl(p: Bits, n: nat): (r: Bits)
    requires 0 < n < 128
  {
    var q := if n >= 64 then Bits(0, p.lo) else p;
    var m := if n >= 64 then n - 64 else n;
    ShlWords(q, m)
  }

  function Shr(p: Bits, n: nat): (r: Bits)
    requires 0 < n < 128
  {
    var q := if n >= 64 then Bits(p.hi, 0) else p;
    var m := if n >= 64 then n - 64 else n;
    ShrWords(q, m)
  }

  function ShlWords(p: Bits, n: nat): (r: Bits)
    requires n < 64
  {
    Bits(WordShl(p.lo, n), BitOr(WordShl(p.hi, n), WordShr(p.lo, 64 - n)))
  }

  function ShrWords(p: Bits, n: nat): (r: Bits)
    requires n < 64
  {
    Bits(BitOr(WordShr(p.lo, n), WordShl(p.hi, 64 - n)), WordShr(p.hi, n))
  }

  // ---- What the word operations compute ----

  /** Multiplying by M modulo M * N keeps the low digits of x in base N. */
  lemma ScaleMod(x: nat, m: nat, n: nat)
    requires m > 0 && n > 0
    ensures m * n > 0 && x * m % (m * n) == (x % n) * m && x % n * m + m <= m * n
  {
    var q, r := x / n, x % n;
    assert x == n * q + r;
    assert x * m == (m * n) * q + r * m by {
      assert x * m == n * q * m + r * m;
      assert n * q * m == (m * n) * q;
    }
    assert r * m + m <= m * n by {
      assert (r + 1) * m <= n * m;
    }
    DivUnique(x * m, m * n, q, r * m);
  }

  lemma ScaleDiv(x: nat, m: nat, n: nat)
    requires m > 0 && n > 0
    ensures m * n > 0 && x * m / (m * n) == x / n
  {
    ScaleMod(x, m, n);
    var q := x * m / (m * n);
    assert x * m == (m * n) * q + (x % n) * m;
    assert (m * n) * q == m * (n * q);
    assert m * x == m * (n * q + x % n);
    SmallMultiple(m, x - (n * q + x % n), 0);
    DivUnique(x, n, q, x % n);
  }

  /** Shifting a word left by n and the bits it loses, as high and low digits. */
  lemma WordShlSplit(x: nat, n: nat)
    requires x < W64 && n < 64
    ensures Pow2(n) * x == WordShl(x, n) + W64 * WordShr(x, 64 - n)
    ensures WordShl(x, n) % Pow2(n) == 0 && WordShl(x, n) + Pow2(n) <= W64
    ensures WordShr(x, 64 - n) < Pow2(n)
  {
    var m, k := Pow2(n), Pow2(64 - n);
    WordSplit(n);
    ScaleMod(x, m, k);
    ScaleDiv(x, m, k);
    DivUnique((x % k) * m, m, x % k, 0);
    QuotLess(x, k, m);
  }

  lemma ShlSmall(p: Bits, n: nat)
    requires Valid(p) && n < 64
    requires WordShr(p.hi, 64 - n) == 0
    ensures Valid(ShlWords(p, n)) && Val(ShlWords(p, n)) == Pow2(n) * Val(p)
  {
    WordShlSplit(p.lo, n);
    WordShlSplit(p.hi, n);
    BitOrDisjoint(WordShl(p.hi, n), WordShr(p.lo, 64 - n), n);
    MulDist(p.lo, W64, p.hi, Pow2(n));
  }

  /** shl multiplies by 2^n while the result fits the two words. */
  lemma ShlValue(p: Bits, n: nat, v: nat)
    requires Valid(p) && 0 < n < 128 && Val(p) == v < Pow2(128 - n)
    ensures Valid(Shl(p, n)) && Val(Shl(p, n)) == Pow2(n) * v
  {
    if n < 64 {
      assert p.hi < Pow2(64 - n) by {
        Pow2Add(64, 64 - n);
        Pow2Word();
        ProductBelow(p.hi, W64, Pow2(64 - n));
      }
      QuotZero(p.hi, Pow2(64 - n));
      ShlSmall(p, n);
    } else {
      assert p.hi == 0 by {
        Pow2Mono(128 - n, 64);
        Pow2Word();
        ProductBelow(p.hi, W64, 1);
      }
      ShlWide(p.lo, n);
    }
  }

  lemma ShlWide(x: nat, n: nat)
    requires 64 <= n < 128 && x < W64 && x < Pow2(128 - n)
    ensures Valid(Shl(Bits(x, 0), n)) && Val(Shl(Bits(x, 0), n)) == Pow2(n) * x
  {
    QuotZero(x, Pow2(128 - n));
    ShlSmall(Bits(0, x), n - 64);
    Pow2Above(n);
    MulSwap(x, W64, Pow2(n - 64));
  }

  lemma ProductBelow(h: nat, w: nat, b: nat)
    requires w * h < w * b
    ensures h < b
  {
    MulMono(w, h - b);
    assert w * (h - b) == w * h - w * b;
  }

  lemma ShrSmall(p: Bits, n: nat)
    requires Valid(p) && n < 64 && (n == 0 ==> p.hi == 0)
    ensures Valid(ShrWords(p, n)) && Val(ShrWords(p, n)) == Quot(Val(p), Pow2(n))
  {
    if n == 0 {
      ShrNone(p);
    } else {
      var m, k := Pow2(n), Pow2(64 - n);
      WordSplit(n);
      WordShlSplit(p.hi, 64 - n);
      QuotLess(p.lo, m, k);
      BitOrDisjoint(WordShl(p.hi, 64 - n), WordShr(p.lo, n), 64 - n);
      ShrQuot(p.lo, p.hi, m, k);
    }
  }

  lemma ShrNone(p: Bits)
    requires Valid(p) && p.hi == 0
    ensures ShrWords(p, 0) == p && Quot(Val(p), Pow2(0)) == Val(p)
  {
    QuotOne(p.lo);
    QuotOne(0);
    QuotOne(Val(p));
    assert WordShl(0, 64) == 0;
    BitOrZero(p.lo);
  }

  lemma ShrQuot(lo: nat, hi: nat, m: nat, k: nat)
    requires m > 0 && m * k == W64
    ensures Quot(lo + W64 * hi, m) == Quot(lo, m) + k * hi
  {
    var q, r := lo / m, lo % m;
    assert lo + W64 * hi == m * (q + hi * k) + r by {
      assert m * (q + hi * k) == m * q + m * (hi * k);
      assert m * (hi * k) == m * k * hi;
    }
    DivUnique(lo + W64 * hi, m, q + hi * k, r);
  }

  /** shr divides by 2^n. */
  lemma ShrValue(p: Bits, n: nat)
    requires Valid(p) && 0 < n < 128
    ensures Valid(Shr(p, n)) && Val(Shr(p, n)) == Quot(Val(p), Pow2(n))
  {
    if n < 64 {
      ShrSmall(p, n);
    } else {
      ShrSmall(Bits(p.hi, 0), n - 64);
      assert Quot(p.hi, Pow2(n - 64)) == Quot(Val(p), Pow2(n)) by {
        Pow2Above(n);
        DivUnique(Val(p), W64, p.hi, p.lo);
        QuotQuot(Val(p), W64, Pow2(n - 64));
      }
    }
  }

  // ---- Trailing zeros ----

  lemma {:induction false} CtzExact(g: nat, m: nat)
    requires m % 2 == 1
    ensures Ctz(Pow2(g) * m) == g
  {
    if g > 0 {
      CtzExact(g - 1, m);
      assert Pow2(g) * m == 2 * (Pow2(g - 1) * m);
    }
  }

  /** pntz finds the distance g to the next tree exactly when that distance is at most 64:
      beyond it, the count of trailing zeros of the zero word stands in for g. */
  lemma PNtzExact(p: Bits, g: nat, m: nat)
    requires Valid(p) && m % 2 == 1 && g >= 1 && Val(p) == 1 + Pow2(g) * m
    ensures PNtz(p) == g <==> g <= 64
    ensures g > 64 <==> p.lo == 1 && p.hi != 0 && p.hi % 2 == 0
  {
    if g < 64 {
      PNtzNear(p, g, m);
    } else {
      PNtzFar(p, g, m);
    }
  }

  lemma PNtzNear(p: Bits, g: nat, m: nat)
    requires Valid(p) && m % 2 == 1 && 1 <= g < 64 && Val(p) == 1 + Pow2(g) * m
    ensures PNtz(p) == g && p.lo != 1
  {
    WordSplit(g);
    OddMod(m, Pow2(63 - g));
    LowWord(p, Pow2(g), Pow2(64 - g), m);
    CtzExact(g, m % Pow2(64 - g));
  }

  /** The low word of 1 + e * m, for e * k the word size. */
  lemma LowWord(p: Bits, e: nat, k: nat, m: nat)
    requires Valid(p) && e > 1 && k > 0 && e * k == W64 && Val(p) == 1 + e * m && m % k > 0
    ensures p.lo - 1 == e * (m % k) && 0 < p.lo - 1 < W64 && (p.lo - 1) % W64 == p.lo - 1
  {
    ScaleMod(m, e, k);
    var low, q := m % k * e, e * m / W64;
    assert e * m == W64 * q + low;
    MulMono(e, m % k);
    DivUnique(Val(p), W64, q, 1 + low);
    DivUnique(Val(p), W64, p.hi, p.lo);
  }

  lemma PNtzFar(p: Bits, g: nat, m: nat)
    requires Valid(p) && m % 2 == 1 && g >= 64 && Val(p) == 1 + Pow2(g) * m
    ensures PNtz(p) == 64 && p.lo == 1 && p.hi == Pow2(g - 64) * m
    ensures p.hi != 0 && (p.hi % 2 == 0 <==> g > 64)
  {
    Pow2Above(g);
    var h := Pow2(g - 64) * m;
    MulSwap(m, Pow2(g - 64), W64);
    DivUnique(Val(p), W64, h, 1);
    DivUnique(Val(p), W64, p.hi, p.lo);
    CtzExact(g - 64, m);
    MulMono(m, Pow2(g - 64));
  }

  lemma OddMod(m: nat, h: nat)
    requires m % 2 == 1 && h > 0
    ensures m % (2 * h) % 2 == 1
  {
    var q := m / (2 * h);
    assert m == 2 * h * q + m % (2 * h);
    assert 2 * h * q == 2 * (h * q);
  }
}

/** 96-bit multiply-divide and the tick conversions (ukern/src/math.c, ukern/inc/time.h). */
module MulDiv {
  import opened Words

  // Sums and products are taken modulo 2^64, the two halves of the result modulo 2^32.

  function LowProduct(a: nat, b: nat): (rl: nat) {
    a % 0x1_0000_0000 * b % 0x1_0000_0000_0000_0000
  }

  function HighProduct(a: nat, b: nat): (rh: nat) {
    (a / 0x1_0000_0000 * b % 0x1_0000_0000_0000_0000 + LowProduct(a, b) / 0x1_0000_0000) % 0x1_0000_0000_0000_0000
  }

  function Divided(rl: nat, rh: nat, c: nat): (r: nat)
    requires c > 0
  {
    var high := rh / c % 0x1_0000_0000;
    var low := (rh % c * 0x1_0000_0000 % 0x1_0000_0000_0000_0000 + rl % 0x1_0000_0000) % 0x1_0000_0000_0000_0000 / c % 0x1_0000_0000;
    high * 0x1_0000_0000 + low
  }

  /** muldiv64 step by step. */
  function MulDiv64(a: nat, b: nat, c: nat): (r: nat)
    requires c > 0
  {
    Divided(LowProduct(a, b), HighProduct(a, b), c)
  }

  lemma MulBound(x: nat, y: nat, m: nat)
    requires x <= m && y <= m
    ensures x * y <= m * m
  {
    assert x * y <= m * y <= m * m;
  }

  /** Long division: the quotient of m + c * p is the quotient of m plus p. */
  lemma QuotPlus(m: nat, c: nat, p: nat)
    requires c > 0
    ensures (m + c * p) / c == m / c + p
  {
    var t, u := m / c, m % c;
    assert m == c * t + u;
    assert m + c * p == c * (t + p) + u by { assert c * (t + p) == c * t + c * p; }
    DivUnique(m + c * p, c, t + p, u);
  }

  /** One digit of 32 bits: dividing rh * 2^32 + r by c. */
  lemma Digit(rh: nat, r: nat, c: nat)
    requires 0 < c && r < 0x1_0000_0000
    ensures (rh * 0x1_0000_0000 + r) / c == rh / c * 0x1_0000_0000 + (rh % c * 0x1_0000_0000 + r) / c
    ensures (rh % c * 0x1_0000_0000 + r) / c < 0x1_0000_0000
  {
    var q, s := rh / c, rh % c;
    var m := s * 0x1_0000_0000 + r;
    assert rh == c * q + s;
    assert rh * 0x1_0000_0000 + r == m + c * (q * 0x1_0000_0000) by {
      assert c * (q * 0x1_0000_0000) == c * q * 0x1_0000_0000;
    }
    QuotPlus(m, c, q * 0x1_0000_0000);
    assert m < c * 0x1_0000_0000;
    QuotLess(m, c, 0x1_0000_0000);
  }

  /** The two partial products make up a * b. */
  lemma Partial(a: nat, b: nat)
    requires a < 0x1_0000_0000_0000_0000 && b < 0x1_0000_0000
    ensures var rl, h := a % 0x1_0000_0000 * b, a / 0x1_0000_0000 * b;
      && rl < 0x1_0000_0000_0000_0000 && h + rl / 0x1_0000_0000 < 0x1_0000_0000_0000_0000
      && a * b == (h + rl / 0x1_0000_0000) * 0x1_0000_0000 + rl % 0x1_0000_0000
  {
    var low, high := a % 0x1_0000_0000, a / 0x1_0000_0000;
    MulBound(low, b, 0xffff_ffff);
    MulBound(high, b, 0xffff_ffff);
    assert a * b == high * b * 0x1_0000_0000 + low * b by {
      assert a == high * 0x1_0000_0000 + low;
      assert (high * 0x1_0000_0000 + low) * b == high * 0x1_0000_0000 * b + low * b;
    }
  }

  lemma ModSmall(x: nat, m: nat)
    requires x < m
    ensures x % m == x
  {
    ModUnique(x, m, 0, x);
  }

  lemma ProductsExact(a: nat, b: nat)
    requires a < 0x1_0000_0000_0000_0000 && b < 0x1_0000_0000
    ensures a * b == HighProduct(a, b) * 0x1_0000_0000 + LowProduct(a, b) % 0x1_0000_0000
    ensures HighProduct(a, b) < 0x1_0000_0000_0000_0000
  {
    Partial(a, b);
    var rl, h := a % 0x1_0000_0000 * b, a / 0x1_0000_0000 * b;
    ModSmall(rl, 0x1_0000_0000_0000_0000);
    ModSmall(h, 0x1_0000_0000_0000_0000);
    ModSmall(h + rl / 0x1_0000_0000, 0x1_0000_0000_0000_0000);
  }

  lemma DividedExact(rl: nat, rh: nat, c: nat)
    requires 0 < c < 0x1_0000_0000
    ensures Divided(rl, rh, c) == (rh * 0x1_0000_0000 + rl % 0x1_0000_0000) / c % 0x1_0000_0000_0000_0000
  {
    var r, s := rl % 0x1_0000_0000, rh % c;
    var m := s * 0x1_0000_0000;
    Digit(rh, r, c);
    ModSmall(m, 0x1_0000_0000_0000_0000);
    ModSmall(m + r, 0x1_0000_0000_0000_0000);
    ModSmall((m + r) / c, 0x1_0000_0000);
    Join(rh / c, (m + r) / c);
  }

  /** muldiv64 is floor(a * b / c) modulo 2^64; nothing overflows on the way. */
  lemma MulDivExact(a: nat, b: nat, c: nat)
    requires a < 0x1_0000_0000_0000_0000 && b < 0x1_0000_0000 && 0 < c < 0x1_0000_0000
    ensures MulDiv64(a, b, c) == a * b / c % 0x1_0000_0000_0000_0000
  {
    ProductsExact(a, b);
    DividedExact(LowProduct(a, b), HighProduct(a, b), c);
  }

  lemma Join(q: nat, low: nat)
    requires low < 0x1_0000_0000
    ensures (q * 0x1_0000_0000 + low) % 0x1_0000_0000_0000_0000 == q % 0x1_0000_0000 * 0x1_0000_0000 + low
  {
    ModUnique(q * 0x1_0000_0000 + low, 0x1_0000_0000_0000_0000, q / 0x1_0000_0000, q % 0x1_0000_0000 * 0x1_0000_0000 + low);
  }

  // ---- Ticks and nanoseconds ----

  /** tick2ns and ns2tick at freq = 1000 * cpukhz ticks per second, which must fit the 32-bit parameter. */
  function Tick2Ns(t: nat, freq: nat): (r: nat)
    requires freq > 0
  {
    MulDiv64(t, 1000000000, freq)
  }

  function Ns2Tick(n: nat, freq: nat): (r: nat) {
    MulDiv64(n, freq, 1000000000)
  }

  lemma FloorBack(t: nat, f: nat, g: nat, n: nat, s: nat)
    requires f > 0 && g > 0 && t * g == f * n + s && 0 <= s < f
    ensures s == 0 ==> n * f / g == t
    ensures 0 < s <= g ==> n * f / g == t - 1
    ensures s > g ==> n * f / g < t - 1
  {
    assert n * f == g * t - s;
    if s == 0 {
      DivUnique(n * f, g, t, 0);
    } else if s <= g {
      PositiveT(t, g, s);
      assert g * (t - 1) == g * t - g;
      DivUnique(n * f, g, t - 1, g - s);
    } else {
      assert n * f < g * (t - 1) by { assert g * (t - 1) == g * t - g; }
      QuotLess(n * f, g, t - 1);
    }
  }

  lemma PositiveT(t: nat, g: nat, s: nat)
    requires g * t >= s > 0
    ensures t > 0
  {
  }

  /** back is t exactly when freq divides t * 10^9; it is t or t - 1 exactly when the remainder is at
      most 10^9, so for all t up to 1 GHz. */
  ghost predicate WithinOne(t: nat, freq: nat, back: nat)
    requires freq > 0
  {
    && (back == t <==> t * 1000000000 % freq == 0)
    && (back == t || back == t - 1 <==> t * 1000000000 % freq <= 1000000000)
    && (freq <= 1000000000 ==> back == t || back == t - 1)
  }

  lemma FloorWithin(t: nat, freq: nat)
    requires freq > 0
    ensures WithinOne(t, freq, t * 1000000000 / freq * freq / 1000000000)
  {
    var p := t * 1000000000;
    DivMod(p, freq);
    FloorBack(t, freq, 1000000000, p / freq, p % freq);
  }

  /** A clock of 3 GHz: two ticks come back as none. */
  lemma FastClock(t: nat, freq: nat)
    requires t == 2 && freq == 3000000000
    ensures Ns2Tick(Tick2Ns(t, freq), freq) == 0
  {
    DivUnique(t * 1000000000, freq, 0, 2000000000);
    There(t, freq);
    Back(t, freq);
  }

  /** From ticks to nanoseconds and back. */
  lemma RoundTrip(t: nat, freq: nat)
    requires 0 < freq < 0x1_0000_0000 && t < 0x1_0000_0000_0000_0000
    requires t * 1000000000 / freq < 0x1_0000_0000_0000_0000
    ensures WithinOne(t, freq, Ns2Tick(Tick2Ns(t, freq), freq))
  {
    There(t, freq);
    Back(t, freq);
    FloorWithin(t, freq);
  }

  lemma ThereMod(t: nat, freq: nat, n: nat)
    requires 0 < freq < 0x1_0000_0000 && t < 0x1_0000_0000_0000_0000 && n == t * 1000000000 / freq
    ensures Tick2Ns(t, freq) == n % 0x1_0000_0000_0000_0000
  {
    MulDivExact(t, 1000000000, freq);
  }

  lemma There(t: nat, freq: nat)
    requires 0 < freq < 0x1_0000_0000 && t < 0x1_0000_0000_0000_0000
    requires t * 1000000000 / freq < 0x1_0000_0000_0000_0000
    ensures Tick2Ns(t, freq) == t * 1000000000 / freq
  {
    var n := t * 1000000000 / freq;
    ThereMod(t, freq, n);
    ModSmall(n, 0x1_0000_0000_0000_0000);
  }

  lemma BackMod(n: nat, freq: nat, m: nat)
    requires 0 < freq < 0x1_0000_0000 && n < 0x1_0000_0000_0000_0000 && m == n * freq / 1000000000
    ensures Ns2Tick(n, freq) == m % 0x1_0000_0000_0000_0000
  {
    MulDivExact(n, freq, 1000000000);
  }

  lemma Back(t: nat, freq: nat)
    requires 0 < freq < 0x1_0000_0000 && t < 0x1_0000_0000_0000_0000
    requires t * 1000000000 / freq < 0x1_0000_0000_0000_0000
    ensures Ns2Tick(t * 1000000000 / freq, freq) == t * 1000000000 / freq * freq / 1000000000
  {
    var n := t * 1000000000 / freq;
    var m := n * freq / 1000000000;
    BackMod(n, freq, m);
    BackFits(t, freq, n);
    ModSmall(m, 0x1_0000_0000_0000_0000);
  }

  lemma BackFits(t: nat, freq: nat, n: nat)
    requires freq > 0 && n == t * 1000000000 / freq
    ensures n * freq / 1000000000 <= t
  {
    DivMod(t * 1000000000, freq);
    BackBelow(t, freq, n, t * 1000000000 % freq);
  }

  lemma BackBelow(t: nat, f: nat, n: nat, s: nat)
    requires t * 1000000000 == f * n + s
    ensures n * f / 1000000000 <= t
  {
  }
}

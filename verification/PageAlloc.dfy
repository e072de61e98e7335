/** The page allocator of one section (ukern/src/page.c:16-70, 163-202). */
module PageAlloc {
  import opened Words
  import opened Bitmap
  import Descriptors

  datatype Desc = Desc(pa: nat, count: nat)

  predicate InRun(p: nat, c: nat, i: nat) {
    p <= i < p + c
  }

  /** The pages of a run of c pages at p. */
  ghost function Pages(p: nat, c: nat): (s: set<nat>) {
    set i: nat | p <= i < p + c && InRun(p, c, i)
  }

  /** The pages of all live runs. */
  ghost function Owned(live: map<nat, nat>): (s: set<nat>) {
    set p, i: nat | p in live && p <= i < p + live[p] && InRun(p, live[p], i) :: i
  }

  ghost predicate Disjoint(live: map<nat, nat>) {
    forall p, q :: p in live && q in live && p < q ==> p + live[p] <= q
  }

  lemma {:induction false} PagesSize(p: nat, c: nat)
    ensures |Pages(p, c)| == c
  {
    if c > 0 {
      PagesSize(p, c - 1);
      assert Pages(p, c) == Pages(p, c - 1) + {p + c - 1};
    } else {
      assert Pages(p, c) == {};
    }
  }

  lemma OwnedAdd(live: map<nat, nat>, p: nat, c: nat)
    requires p !in live
    ensures Owned(live[p := c]) == Owned(live) + Pages(p, c)
  {
    var l' := live[p := c];
    forall i | i in Owned(l') ensures i in Owned(live) + Pages(p, c) {
      var q: nat :| q in l' && InRun(q, l'[q], i);
      if q != p { assert q in live; }
    }
    forall i | i in Owned(live) ensures i in Owned(l') {
      var q: nat :| q in live && InRun(q, live[q], i);
      assert q in l' && l'[q] == live[q] && InRun(q, l'[q], i);
    }
    forall i | i in Pages(p, c) ensures i in Owned(l') {
      assert p in l' && l'[p] == c && InRun(p, l'[p], i);
    }
  }

  lemma OwnedRemove(live: map<nat, nat>, p: nat)
    requires Disjoint(live) && p in live
    ensures Owned(live - {p}) == Owned(live) - Pages(p, live[p])
    ensures Pages(p, live[p]) <= Owned(live)
  {
    var l' := live - {p};
    assert live == l'[p := live[p]];
    OwnedAdd(l', p, live[p]);
    forall i | i in Owned(l') ensures i !in Pages(p, live[p]) {
      var q: nat :| q in l' && InRun(q, l'[q], i);
    }
  }

  // ---- Addresses ----

  /** The address recorded for page p: the product p * PAGE_SIZE is an int. */
  function PaOf(base: nat, p: nat): (pa: nat) {
    (base + SignExtended(p * 4096)) % W64
  }

  /** The test of page_free, with the product of count and PAGE_SIZE an int too. */
  predicate Hits(d: Desc, addr: nat) {
    d.pa != 0 && Descriptors.Ptov(d.pa) <= addr < (Descriptors.Ptov(d.pa) + SignExtended(d.count * 4096)) % W64
  }

  /** The kernel address lies in the run of c pages at p. */
  predicate Contains(base: nat, p: nat, c: nat, addr: nat) {
    base + p * 4096 + Descriptors.KERNEL_BASE <= addr < base + p * 4096 + Descriptors.KERNEL_BASE + c * 4096
  }

  /** No product overflows for the first cap pages, which are physical memory. */
  predicate AddressesFit(base: nat, cap: nat) {
    0 < base && cap <= 0x8_0000 && base + cap * 4096 < 0x1_0000_0000_0000
  }

  /** A position's address is right exactly below 0x8_0000. */
  lemma PaExactly(base: nat, p: nat)
    requires base + p * 4096 < 0x1_0000_0000_0000
    ensures PaOf(base, p) == base + p * 4096 <==> p < 0x8_0000
  {
    SignExtendedExactly(p * 4096);
    if p < 0x8_0000 {
      ModUnique(base + p * 4096, W64, 0, base + p * 4096);
    } else {
      PaWrong(base, p * 4096);
    }
  }

  lemma PaWrong(base: nat, x: nat)
    requires 0x8000_0000 <= x && base + x < 0x1_0000_0000_0000
    ensures (base + SignExtended(x)) % W64 != base + x
  {
    var low := x % 0x1_0000_0000;
    if low < 0x8000_0000 {
      ModUnique(base + low, W64, 0, base + low);
    } else if base + low >= 0x1_0000_0000 {
      ModUnique(base + low + 0xffff_ffff_0000_0000, W64, 1, base + low - 0x1_0000_0000);
    } else {
      ModUnique(base + low + 0xffff_ffff_0000_0000, W64, 0, base + low + 0xffff_ffff_0000_0000);
    }
  }

  /** Where the products fit, the test asks whether the run contains the address. */
  lemma HitsExactly(base: nat, cap: nat, p: nat, c: nat, addr: nat)
    requires AddressesFit(base, cap) && p + c < cap
    ensures Hits(Desc(PaOf(base, p), c), addr) <==> Contains(base, p, c, addr)
  {
    PaExactly(base, p);
    SignExtendedExactly(c * 4096);
    var a := base + p * 4096;
    ModUnique(a + Descriptors.KERNEL_BASE, W64, 0, a + Descriptors.KERNEL_BASE);
    ModUnique(a + Descriptors.KERNEL_BASE + c * 4096, W64, 0, a + Descriptors.KERNEL_BASE + c * 4096);
  }

  // ---- Live runs ----

  /** A live run of c pages at p: its bits are set and its first descriptor names it. */
  ghost predicate RunOk(ws: seq<nat>, ds: seq<Desc>, cap: nat, base: nat, p: nat, c: nat)
    requires cap <= 64 * |ws| && cap <= |ds|
  {
    c > 0 && p + c < cap && AllSet(ws, p, p + c) && ds[p] == Desc(PaOf(base, p), c)
  }

  /** Live runs are in order and disjoint. */
  ghost predicate RunsOk(ws: seq<nat>, ds: seq<Desc>, live: map<nat, nat>, cap: nat, base: nat) {
    && Wordy(ws) && cap <= 64 * |ws| && cap <= |ds|
    && Disjoint(live)
    && (forall p :: p in live ==> RunOk(ws, ds, cap, base, p, live[p]))
  }

  /** No descriptor but those of live runs is in use. */
  ghost predicate Tidy(ds: seq<Desc>, live: map<nat, nat>, cap: nat) {
    cap <= |ds| && forall p: nat :: p < cap && p !in live ==> ds[p].pa == 0
  }

  /** A free area meets no live run. */
  lemma Apart(ws: seq<nat>, ds: seq<Desc>, cap: nat, base: nat, pos: nat, count: nat, q: nat, c: nat)
    requires cap <= 64 * |ws| && cap <= |ds| && RunOk(ws, ds, cap, base, q, c) && count > 0 && FreeArea(ws, pos, count, cap)
    ensures q + c <= pos || pos + count <= q
  {
    var i := if q <= pos then pos else q;
    assert InRun(q, c, i) ==> BitAt(ws, i);
    assert InRun(pos, count, i) ==> !BitAt(ws, i);
  }

  lemma FreshRun(ws: seq<nat>, ds: seq<Desc>, live: map<nat, nat>, cap: nat, base: nat, pos: nat, count: nat)
    requires RunsOk(ws, ds, live, cap, base) && count > 0 && FreeArea(ws, pos, count, cap)
    ensures pos !in live && Pages(pos, count) !! Owned(live) && Disjoint(live[pos := count])
  {
    forall q | q in live ensures live[q] > 0 && (q + live[q] <= pos || pos + count <= q) {
      assert RunOk(ws, ds, cap, base, q, live[q]);
      Apart(ws, ds, cap, base, pos, count, q, live[q]);
    }
  }

  /** A run elsewhere keeps its bits and descriptor. */
  lemma RunKept(ws: seq<nat>, ws': seq<nat>, ds: seq<Desc>, d: Desc, cap: nat, base: nat, pos: nat, b: nat, v: bool, p: nat, c: nat)
    requires cap <= 64 * |ws| && cap <= |ds| && RunOk(ws, ds, cap, base, p, c) && pos < cap && p != pos
    requires Updated(ws, ws', pos, b, v) && (v || b <= p || p + c <= pos)
    ensures RunOk(ws', ds[pos := d], cap, base, p, c)
  {
    forall i: nat | p <= i < p + c ensures BitAt(ws', i) {
      assert BitAt(ws, i);
    }
  }

  lemma RunsAlloc(ws: seq<nat>, ws': seq<nat>, ds: seq<Desc>, live: map<nat, nat>, cap: nat, base: nat, pos: nat, count: nat)
    requires RunsOk(ws, ds, live, cap, base) && count > 0 && FreeArea(ws, pos, count, cap)
    requires Updated(ws, ws', pos, pos + count, true)
    ensures RunsOk(ws', ds[pos := Desc(PaOf(base, pos), count)], live[pos := count], cap, base)
  {
    var d, live' := Desc(PaOf(base, pos), count), live[pos := count];
    FreshRun(ws, ds, live, cap, base, pos, count);
    forall p | p in live' ensures RunOk(ws', ds[pos := d], cap, base, p, live'[p]) {
      if p != pos {
        RunKept(ws, ws', ds, d, cap, base, pos, pos + count, true, p, live[p]);
      }
    }
  }

  lemma OwnedGrows(ws: seq<nat>, ds: seq<Desc>, live: map<nat, nat>, cap: nat, base: nat, pos: nat, count: nat)
    requires RunsOk(ws, ds, live, cap, base) && count > 0 && FreeArea(ws, pos, count, cap)
    ensures pos !in live && |Owned(live[pos := count])| == |Owned(live)| + count
  {
    FreshRun(ws, ds, live, cap, base, pos, count);
    OneMore(live, pos, count);
  }

  lemma RunsFree(ws: seq<nat>, ws': seq<nat>, ds: seq<Desc>, live: map<nat, nat>, cap: nat, base: nat, pos: nat)
    requires RunsOk(ws, ds, live, cap, base) && pos in live && Updated(ws, ws', pos, pos + 1, false)
    ensures pos < cap && RunsOk(ws', ds[pos := Desc(0, 0)], live - {pos}, cap, base)
  {
    var live' := live - {pos};
    assert RunOk(ws, ds, cap, base, pos, live[pos]);
    forall p | p in live' ensures RunOk(ws', ds[pos := Desc(0, 0)], cap, base, p, live'[p]) {
      assert RunOk(ws, ds, cap, base, p, live[p]);
      RunKept(ws, ws', ds, Desc(0, 0), cap, base, pos, pos + 1, false, p, live[p]);
    }
  }

  lemma OwnedShrinks(live: map<nat, nat>, pos: nat)
    requires Disjoint(live) && pos in live
    ensures |Owned(live - {pos})| == |Owned(live)| - live[pos]
  {
    OwnedRemove(live, pos);
    PagesSize(pos, live[pos]);
  }

  /** An address lies in at most one live run. */
  lemma OneRun(live: map<nat, nat>, base: nat, p: nat, q: nat, addr: nat)
    requires Disjoint(live) && p in live && q in live && Contains(base, p, live[p], addr) && Contains(base, q, live[q], addr)
    ensures p == q
  {
  }

  // ---- Counting ----

  /** How many of the c pages at p come before page n, */
  function Within(p: nat, c: nat, n: nat): (m: nat) {
    if n <= p then 0 else if p + c <= n then c else n - p
  }

  /** and how many do not. */
  function Past(p: nat, c: nat, n: nat): (m: nat) {
    c - Within(p, c, n)
  }

  lemma WithinSize(p: nat, c: nat, n: nat)
    ensures |Pages(p, c) * Pages(0, n)| == Within(p, c, n) && |Pages(p, c) - Pages(0, n)| == Past(p, c, n)
  {
    var a, b := Pages(p, c) * Pages(0, n), Pages(p, c) - Pages(0, n);
    assert forall i: nat :: InRun(0, n, i) <==> i < n;
    assert a == Pages(p, Within(p, c, n));
    assert b == Pages(p + Within(p, c, n), Past(p, c, n));
    PagesSize(p, Within(p, c, n));
    PagesSize(p + Within(p, c, n), Past(p, c, n));
  }

  /** Pages at n and after of the live runs that start below m. */
  ghost function SumPast(live: map<nat, nat>, m: nat, n: nat): (s: nat) {
    if m == 0 then 0 else SumPast(live, m - 1, n) + (if m - 1 in live then Past(m - 1, live[m - 1], n) else 0)
  }

  ghost function Below(live: map<nat, nat>, n: nat): (r: map<nat, nat>) {
    map p | p in live && p < n :: live[p]
  }

  lemma BelowApart(live: map<nat, nat>, n: nat)
    requires Disjoint(live) && n in live
    ensures Below(live, n + 1) == Below(live, n)[n := live[n]]
    ensures Owned(Below(live, n)) !! Pages(n, live[n])
  {
    var b := Below(live, n);
    forall i | i in Owned(b) ensures i !in Pages(n, live[n]) {
      var q: nat :| q in b && InRun(q, b[q], i);
    }
  }

  lemma OneMore(b: map<nat, nat>, p: nat, c: nat)
    requires p !in b && Owned(b) !! Pages(p, c)
    ensures |Owned(b[p := c])| == |Owned(b)| + c
  {
    OwnedAdd(b, p, c);
    PagesSize(p, c);
  }

  lemma MorePast(b: map<nat, nat>, p: nat, c: nat, n: nat)
    requires p !in b && Owned(b) !! Pages(p, c)
    ensures |Owned(b[p := c]) - Pages(0, n)| == |Owned(b) - Pages(0, n)| + Past(p, c, n)
  {
    OwnedAdd(b, p, c);
    WithinSize(p, c, n);
    DropSize(Owned(b), Pages(p, c), Pages(0, n));
  }

  lemma DropSize(a: set<nat>, b: set<nat>, c: set<nat>)
    requires a !! b
    ensures |(a + b) - c| == |a - c| + |b - c|
  {
    assert (a + b) - c == (a - c) + (b - c);
  }

  /** The pages of disjoint runs at n and after are as many as their lengths there add up to. */
  lemma {:induction false} SumIsOwned(live: map<nat, nat>, m: nat, n: nat)
    requires Disjoint(live)
    ensures |Owned(Below(live, m)) - Pages(0, n)| == SumPast(live, m, n)
    decreases m
  {
    if m == 0 {
      BelowNone(live, n);
    } else {
      SumIsOwned(live, m - 1, n);
      SumIsOwnedStep(live, m, n);
    }
  }

  lemma SumIsOwnedStep(live: map<nat, nat>, m: nat, n: nat)
    requires Disjoint(live) && m > 0
    ensures |Owned(Below(live, m)) - Pages(0, n)| ==
      |Owned(Below(live, m - 1)) - Pages(0, n)| + if m - 1 in live then Past(m - 1, live[m - 1], n) else 0
  {
    if m - 1 in live {
      BelowApart(live, m - 1);
      MorePast(Below(live, m - 1), m - 1, live[m - 1], n);
    } else {
      assert Below(live, m) == Below(live, m - 1);
    }
  }

  lemma BelowNone(live: map<nat, nat>, n: nat)
    ensures |Owned(Below(live, 0)) - Pages(0, n)| == 0
  {
    assert Owned(Below(live, 0)) == {};
  }

  lemma AllBelow(ws: seq<nat>, ds: seq<Desc>, live: map<nat, nat>, cap: nat, base: nat)
    requires RunsOk(ws, ds, live, cap, base)
    ensures Below(live, cap) == live
  {
    forall p | p in live ensures p < cap {
      assert RunOk(ws, ds, cap, base, p, live[p]);
    }
  }

  /** So the free counter is the number of managed pages less the sum of all live lengths. */
  lemma SumOfLive(ws: seq<nat>, ds: seq<Desc>, live: map<nat, nat>, cap: nat, base: nat)
    requires RunsOk(ws, ds, live, cap, base)
    ensures |Owned(live)| == SumPast(live, cap, 0)
  {
    AllBelow(ws, ds, live, cap, base);
    SumIsOwned(live, cap, 0);
    assert Owned(live) - Pages(0, 0) == Owned(live);
  }

  ghost function ClearBits(ws: seq<nat>, n: nat): (s: set<nat>)
    requires n <= 64 * |ws|
  {
    set i: nat | i < n && !BitAt(ws, i)
  }

  /** Bits that are set although no live run has them. */
  ghost function Leaked(ws: seq<nat>, live: map<nat, nat>, n: nat): (s: set<nat>)
    requires n <= 64 * |ws|
  {
    set i: nat | i < n && BitAt(ws, i) && i !in Owned(live)
  }

  lemma OwnedSet(ws: seq<nat>, ds: seq<Desc>, live: map<nat, nat>, cap: nat, base: nat)
    requires RunsOk(ws, ds, live, cap, base)
    ensures forall i :: i in Owned(live) ==> i < cap && BitAt(ws, i)
  {
    forall i | i in Owned(live) ensures i < cap && BitAt(ws, i) {
      var p: nat :| p in live && InRun(p, live[p], i);
      assert RunOk(ws, ds, cap, base, p, live[p]);
    }
  }

  lemma Split3(all: set<nat>, a: set<nat>, b: set<nat>, own: set<nat>)
    requires all == a + b + own * all && a !! b && a !! own && b !! own
    ensures |a| + |b| == |all| - |own| + |own - all|
  {
    assert own == (own * all) + (own - all);
    assert |own| == |own * all| + |own - all|;
    assert |a + b| == |a| + |b|;
    assert |all| == |a + b| + |own * all|;
  }

  lemma Sorted3(ws: seq<nat>, ds: seq<Desc>, live: map<nat, nat>, cap: nat, base: nat, n: nat)
    requires RunsOk(ws, ds, live, cap, base) && n <= cap
    ensures var all, a, b, own := Pages(0, n), ClearBits(ws, n), Leaked(ws, live, n), Owned(live);
      all == a + b + own * all && a !! b && a !! own && b !! own
  {
    OwnedSet(ws, ds, live, cap, base);
    assert forall i: nat :: i < n ==> InRun(0, n, i);
  }

  // ---- Freed runs ----

  datatype Run = Run(first: nat, count: nat)

  /** The pages of a freed run whose bits stay set: all but the first. */
  ghost function TailOf(r: Run): (s: set<nat>) {
    Pages(r.first + 1, TailLength(r))
  }

  function TailLength(r: Run): (n: nat) {
    if r.count == 0 then 0 else r.count - 1
  }

  ghost function Tails(freed: seq<Run>): (s: set<nat>) {
    if freed == [] then {} else Tails(freed[..|freed| - 1]) + TailOf(freed[|freed| - 1])
  }

  ghost predicate TailsApart(freed: seq<Run>) {
    freed != [] ==> TailsApart(freed[..|freed| - 1]) && Tails(freed[..|freed| - 1]) !! TailOf(freed[|freed| - 1])
  }

  /** Lengths of the tails, up to page n. */
  function SumTails(freed: seq<Run>, n: nat): (s: nat) {
    if freed == [] then 0
    else
      var r := freed[|freed| - 1];
      SumTails(freed[..|freed| - 1], n) + Within(r.first + 1, TailLength(r), n)
  }

  lemma {:induction false} TailsSize(freed: seq<Run>, n: nat)
    requires TailsApart(freed)
    ensures |Tails(freed) * Pages(0, n)| == SumTails(freed, n)
  {
    if freed != [] {
      var k := |freed| - 1;
      var a, b := Tails(freed[..k]), TailOf(freed[k]);
      TailsSize(freed[..k], n);
      WithinSize(freed[k].first + 1, TailLength(freed[k]), n);
      MeetSize(a, b, Pages(0, n));
    }
  }

  lemma MeetSize(a: set<nat>, b: set<nat>, c: set<nat>)
    requires a !! b
    ensures |(a + b) * c| == |a * c| + |b * c|
  {
    assert (a + b) * c == a * c + b * c;
  }

  /** What the bitmap has leaked is exactly the tails of the runs freed so far. */
  ghost predicate FreedOk(ws: seq<nat>, live: map<nat, nat>, freed: seq<Run>, cap: nat) {
    && cap <= 64 * |ws| && Leaked(ws, live, cap) == Tails(freed) && TailsApart(freed)
    && forall k :: 0 <= k < |freed| ==> freed[k].count > 0 && freed[k].first + freed[k].count < cap
  }

  lemma FreedAlloc(ws: seq<nat>, ws': seq<nat>, ds: seq<Desc>, live: map<nat, nat>, freed: seq<Run>, cap: nat, base: nat, pos: nat, count: nat)
    requires RunsOk(ws, ds, live, cap, base) && count > 0 && FreeArea(ws, pos, count, cap) && FreedOk(ws, live, freed, cap)
    requires Updated(ws, ws', pos, pos + count, true)
    ensures FreedOk(ws', live[pos := count], freed, cap)
  {
    AllocLeaks(ws, ws', ds, live, cap, base, pos, count, cap);
  }

  lemma FreedFree(ws: seq<nat>, ws': seq<nat>, ds: seq<Desc>, live: map<nat, nat>, freed: seq<Run>, cap: nat, base: nat, pos: nat)
    requires RunsOk(ws, ds, live, cap, base) && pos in live && FreedOk(ws, live, freed, cap)
    requires Updated(ws, ws', pos, pos + 1, false)
    ensures FreedOk(ws', live - {pos}, freed + [Run(pos, live[pos])], cap)
  {
    var r := Run(pos, live[pos]);
    var freed' := freed + [r];
    assert RunOk(ws, ds, cap, base, pos, live[pos]);
    FreeLeaks(ws, ws', ds, live, cap, base, pos, cap);
    OwnedRemove(live, pos);
    TailParts(pos, live[pos], cap);
    assert freed'[..|freed|] == freed;
  }

  lemma TailParts(p: nat, c: nat, cap: nat)
    requires c > 0 && p + c < cap
    ensures (Pages(p, c) - {p}) * Pages(0, cap) == TailOf(Run(p, c)) <= Pages(p, c)
  {
    assert forall i: nat :: InRun(0, cap, i) <==> i < cap;
  }

  lemma LeakedBelow(ws: seq<nat>, live: map<nat, nat>, n: nat, cap: nat)
    requires n <= cap <= 64 * |ws|
    ensures Leaked(ws, live, n) == Leaked(ws, live, cap) * Pages(0, n)
  {
    assert forall i: nat :: InRun(0, n, i) <==> i < n;
  }

  /** Each of n managed pages is clear, live or leaked. */
  lemma PagesAccounted(ws: seq<nat>, ds: seq<Desc>, live: map<nat, nat>, cap: nat, base: nat, n: nat)
    requires RunsOk(ws, ds, live, cap, base) && n <= cap
    ensures |ClearBits(ws, n)| + |Leaked(ws, live, n)| == n - |Owned(live)| + |Owned(live) - Pages(0, n)|
  {
    PagesSize(0, n);
    Sorted3(ws, ds, live, cap, base, n);
    Split3(Pages(0, n), ClearBits(ws, n), Leaked(ws, live, n), Owned(live));
  }

  /** After any calls, the free counter is the number of clear bits exactly when the tails of the freed runs
      are together as long as what the live runs have past the end. */
  lemma FreeCountsClear(ws: seq<nat>, ds: seq<Desc>, live: map<nat, nat>, freed: seq<Run>, cap: nat, base: nat, n: nat)
    requires RunsOk(ws, ds, live, cap, base) && FreedOk(ws, live, freed, cap) && n <= cap
    ensures n - |Owned(live)| == |ClearBits(ws, n)| <==> SumTails(freed, n) == SumPast(live, cap, n)
  {
    PagesAccounted(ws, ds, live, cap, base, n);
    LeakedBelow(ws, live, n, cap);
    TailsSize(freed, n);
    AllBelow(ws, ds, live, cap, base);
    SumIsOwned(live, cap, n);
  }

  /** If no run reaches past the end, that is exactly while only single pages have been freed. */
  lemma SinglesOnly(ws: seq<nat>, ds: seq<Desc>, live: map<nat, nat>, freed: seq<Run>, cap: nat, base: nat, n: nat)
    requires RunsOk(ws, ds, live, cap, base) && FreedOk(ws, live, freed, cap) && cap == CapOf(n)
    requires n % 64 == 0 || n % 64 == 63
    ensures n - |Owned(live)| == |ClearBits(ws, n)| <==> forall k :: 0 <= k < |freed| ==> freed[k].count == 1
  {
    CapClose(n);
    FreeCountsClear(ws, ds, live, freed, cap, base, n);
    NonePast(ws, ds, live, cap, base, cap, n);
    NoTails(freed, cap, n);
  }

  lemma CapClose(n: nat)
    ensures n <= CapOf(n) && (n % 64 == 0 || n % 64 == 63 ==> CapOf(n) <= n + 1)
  {
  }

  lemma {:induction false} NonePast(ws: seq<nat>, ds: seq<Desc>, live: map<nat, nat>, cap: nat, base: nat, m: nat, n: nat)
    requires RunsOk(ws, ds, live, cap, base) && cap <= n + 1
    ensures SumPast(live, m, n) == 0
    decreases m
  {
    if m > 0 {
      NonePast(ws, ds, live, cap, base, m - 1, n);
      if m - 1 in live { assert RunOk(ws, ds, cap, base, m - 1, live[m - 1]); }
    }
  }

  lemma {:induction false} NoTails(freed: seq<Run>, cap: nat, n: nat)
    requires cap <= n + 1
    requires forall k :: 0 <= k < |freed| ==> freed[k].count > 0 && freed[k].first + freed[k].count < cap
    ensures SumTails(freed, n) == 0 <==> forall k :: 0 <= k < |freed| ==> freed[k].count == 1
  {
    if freed != [] {
      var k := |freed| - 1;
      NoTails(freed[..k], cap, n);
      assert forall i :: 0 <= i < k ==> freed[..k][i] == freed[i];
      assert Within(freed[k].first + 1, TailLength(freed[k]), n) == freed[k].count - 1;
    }
  }

  /** Allocation leaks nothing. */
  lemma AllocLeaks(ws: seq<nat>, ws': seq<nat>, ds: seq<Desc>, live: map<nat, nat>, cap: nat, base: nat, pos: nat, count: nat, n: nat)
    requires RunsOk(ws, ds, live, cap, base) && count > 0 && FreeArea(ws, pos, count, cap) && n <= cap
    requires Updated(ws, ws', pos, pos + count, true)
    ensures Leaked(ws', live[pos := count], n) == Leaked(ws, live, n)
  {
    FreshRun(ws, ds, live, cap, base, pos, count);
    OwnedAdd(live, pos, count);
    forall i | i in Leaked(ws', live[pos := count], n) ensures i in Leaked(ws, live, n) {
      assert i !in Pages(pos, count);
      assert !InRun(pos, count, i);
    }
    forall i | i in Leaked(ws, live, n) ensures i in Leaked(ws', live[pos := count], n) {
      assert i in Pages(pos, count) ==> InRun(pos, count, i);
    }
  }

  /** Freeing a run leaks all its pages but the first. */
  lemma FreeLeaks(ws: seq<nat>, ws': seq<nat>, ds: seq<Desc>, live: map<nat, nat>, cap: nat, base: nat, pos: nat, n: nat)
    requires RunsOk(ws, ds, live, cap, base) && pos in live && n <= cap
    requires Updated(ws, ws', pos, pos + 1, false)
    ensures Leaked(ws', live - {pos}, n) == Leaked(ws, live, n) + (Pages(pos, live[pos]) - {pos}) * Pages(0, n)
  {
    OwnedRemove(live, pos);
    OwnedSet(ws, ds, live, cap, base);
    assert RunOk(ws, ds, cap, base, pos, live[pos]);
    assert pos in Pages(pos, live[pos]) by { assert InRun(pos, live[pos], pos); }
    assert forall i: nat :: i < n ==> InRun(0, n, i);
  }

  // ---- The managed pages and the bitmap's whole words ----

  /** Bits searched for n managed pages. */
  function CapOf(n: nat): (c: nat) {
    64 * ((n + 63) / 64)
  }

  /** Every area the search can return lies within the n managed pages exactly when n is a multiple of
      64, or one less: otherwise the bits up to the last word's end are handed out too. */
  lemma StaysInside(n: nat)
    ensures (forall ws: seq<nat>, q: nat, count: nat ::
               CapOf(n) <= 64 * |ws| && FreeArea(ws, q, count, CapOf(n)) ==> q + count <= n)
      <==> n % 64 == 0 || n % 64 == 63
  {
    if !(n % 64 == 0 || n % 64 == 63) {
      var ws: seq<nat> := seq((n + 63) / 64, _ => 0);
      ZeroClear(ws, CapOf(n));
      assert FreeArea(ws, 0, n + 1, CapOf(n));
    }
  }

  /** Every area the search can return in a section of n pages is recorded with its own address. */
  ghost predicate AddressesRight(n: nat, base: nat) {
    forall ws: seq<nat>, q: nat, count: nat :: CapOf(n) <= 64 * |ws| && count > 0 && FreeArea(ws, q, count, CapOf(n)) ==>
      PaOf(base, q) == base + q * 4096
  }

  /** That holds exactly for sections of up to 2 GB. */
  lemma AddressesExactly(n: nat, base: nat)
    requires base + CapOf(n) * 4096 < 0x1_0000_0000_0000
    ensures AddressesRight(n, base) <==> CapOf(n) <= 0x8_0000
  {
    if CapOf(n) <= 0x8_0000 {
      forall ws: seq<nat>, q: nat, count: nat | CapOf(n) <= 64 * |ws| && count > 0 && FreeArea(ws, q, count, CapOf(n))
        ensures PaOf(base, q) == base + q * 4096
      {
        PaExactly(base, q);
      }
    } else {
      var ws := Zeroes(n);
      CanReturn(ws, 0x8_0000, n);
      PaExactly(base, 0x8_0000);
    }
  }

  function Zeroes(n: nat): (ws: seq<nat>) {
    seq((n + 63) / 64, _ => 0)
  }

  /** In an empty bitmap every page but the last can be had. */
  lemma CanReturn(ws: seq<nat>, q: nat, n: nat)
    requires ws == Zeroes(n) && q + 1 < CapOf(n)
    ensures CapOf(n) <= 64 * |ws| && FreeArea(ws, q, 1, CapOf(n))
  {
    ZeroClear(ws, CapOf(n));
  }

  /** In a section of 0x10_0040 pages, pages 0 and 0x10_0000 can both be had, and get the same address. */
  lemma SharedAddress(base: nat)
    ensures var ws := Zeroes(0x10_0040);
      && CapOf(0x10_0040) <= 64 * |ws|
      && FreeArea(ws, 0, 1, CapOf(0x10_0040)) && FreeArea(ws, 0x10_0000, 1, CapOf(0x10_0040))
    ensures PaOf(base, 0) == PaOf(base, 0x10_0000)
  {
    CanReturn(Zeroes(0x10_0040), 0, 0x10_0040);
    CanReturn(Zeroes(0x10_0040), 0x10_0000, 0x10_0040);
  }

  lemma ZeroClear(ws: seq<nat>, cap: nat)
    requires (forall k :: 0 <= k < |ws| ==> ws[k] == 0) && cap <= 64 * |ws|
    ensures Wordy(ws) && AllClear(ws, 0, cap)
  {
    forall i: nat | i < cap ensures !BitAt(ws, i) {
      FullWord(ws, i / 64);
    }
  }

  /** Pages that the bitmap and the descriptors of a section of total pages take. */
  function Overhead(total: nat): (r: nat) {
    (BitmapBytes(total) + total * 16 + 4095) / 4096
  }

  /** Bytes that the bitmap takes: whole words. */
  function BitmapBytes(total: nat): (r: nat) {
    (total + 63) / 64 * 8
  }

  /** Bitmap and descriptors fit in those pages, and in no fewer. */
  lemma OverheadFits(total: nat)
    ensures BitmapBytes(total) % 8 == 0 && total <= 8 * BitmapBytes(total) < total + 64
    ensures BitmapBytes(total) + 16 * total <= 4096 * Overhead(total)
    ensures forall k: nat :: BitmapBytes(total) + 16 * total <= 4096 * k ==> Overhead(total) <= k
  {
  }

  /** The managed memory starts at pa: the first page boundary behind bitmap and descriptors; n pages are left. */
  ghost predicate LaidOut(base: nat, total: nat, pa: nat, n: nat) {
    && pa % 4096 == 0 && pa + 4096 * n == base + 4096 * total
    && base + BitmapBytes(total) + 16 * total <= pa
    && forall a: nat :: a % 4096 == 0 && base + BitmapBytes(total) + 16 * total <= a ==> pa <= a
  }

  lemma LaidOutAt(base: nat, total: nat)
    requires base % 4096 == 0 && Overhead(total) <= total
    ensures LaidOut(base, total, base + Overhead(total) * 4096, total - Overhead(total))
  {
    var pa, b := base + Overhead(total) * 4096, base / 4096;
    OverheadFits(total);
    ModUnique(pa, 4096, b + Overhead(total), 0);
    forall a: nat | a % 4096 == 0 && base + BitmapBytes(total) + 16 * total <= a ensures pa <= a {
      var k := a / 4096 - b;
      assert a == 4096 * (k + b) && base == 4096 * b;
      assert BitmapBytes(total) + 16 * total <= 4096 * k;
    }
  }

  /** No byte of a run among the managed pages lies in the bitmap or the descriptors, or behind the section. */
  lemma RunClear(base: nat, total: nat, pa: nat, n: nat, cap: nat, p: nat, c: nat, addr: nat)
    requires LaidOut(base, total, pa, n) && AddressesFit(pa, cap) && p + c < cap && p + c <= n
    requires Hits(Desc(PaOf(pa, p), c), addr)
    ensures base + BitmapBytes(total) + 16 * total + Descriptors.KERNEL_BASE <= addr < base + 4096 * total + Descriptors.KERNEL_BASE
  {
    HitsExactly(pa, cap, p, c, addr);
  }

  /** The descriptors cover every searched bit in all but small sections. */
  lemma DescriptorsSuffice(total: nat)
    requires total >= 16384
    ensures Overhead(total) <= total && CapOf(total - Overhead(total)) <= total
  {
  }

  class PageSection {
    const bitmap: array<nat>
    const pages: array<Desc>
    const nrPages: nat
    const paBase: nat
    var free: int
    ghost var live: map<nat, nat>      // live runs: first page and length
    ghost var freed: seq<Run>          // runs freed so far

    /** Bits the search looks at: the managed pages rounded up to whole words. */
    function Cap(): (c: nat) {
      64 * (MapBytes() / 8)
    }

    /** BITMAP_SIZE(nr_pages). */
    function MapBytes(): (c: nat) {
      (nrPages + 63) / 64 * 8
    }

    ghost predicate Valid()
      reads this, bitmap, pages
    {
      && Cap() <= INT_MAX && RunsOk(bitmap[..], pages[..], live, Cap(), paBase)
      && FreedOk(bitmap[..], live, freed, Cap())
      && free == nrPages - |Owned(live)|
    }

    /** page_section_init: the section's first pages hold its bitmap, which is cleared, and its descriptors,
        which are left as memory has them. */
    constructor (base: nat, total: nat, memory: seq<Desc>)
      requires base % 4096 == 0 && 0 < total && total + 63 <= INT_MAX
      requires Overhead(total) <= total && CapOf(total - Overhead(total)) <= total
      requires |memory| == total
      ensures fresh(bitmap) && fresh(pages)
      ensures Valid() && live == map[] && freed == [] && nrPages == total - Overhead(total) && free == nrPages
      ensures paBase == base + Overhead(total) * 4096 && AllClear(bitmap[..], 0, Cap())
      ensures LaidOut(base, total, paBase, nrPages) && bitmap.Length * 8 == BitmapBytes(total) && pages.Length == total
      ensures pages[..] == memory && (Tidy(pages[..], live, Cap()) <==> forall k :: 0 <= k < Cap() ==> memory[k].pa == 0)
    {
      bitmap := new nat[(total + 63) / 64](_ => 0);
      pages := new Desc[total](k requires 0 <= k < |memory| => memory[k]);
      nrPages := total - Overhead(total);
      free := total - Overhead(total);
      paBase := base + Overhead(total) * 4096;
      live, freed := map[], [];
      new;
      LaidOutAt(base, total);
      ZeroClear(bitmap[..], Cap());
      assert Owned(live) == {};
      assert pages[..] == memory;
      NoneLeaked(bitmap[..], Cap());
    }

    /** __page_allocn_sect: the least free area, marked and described; none if there is none. */
    method AllocN(count: nat) returns (pos: int)
      requires Valid() && count > 0 && Cap() + count <= INT_MAX
      modifies this`free, this`live, bitmap, pages
      ensures Valid()
      ensures pos == -1 ==>
        && live == old(live) && free == old(free) && bitmap[..] == old(bitmap[..]) && pages[..] == old(pages[..])
        && forall q: nat :: !FreeArea(old(bitmap[..]), q, count, Cap())
      ensures pos != -1 ==>
        && pos >= 0 && pos !in old(live) && live == old(live)[pos := count]
        && FreeArea(old(bitmap[..]), pos, count, Cap())
        && (forall q: nat :: q < pos ==> !FreeArea(old(bitmap[..]), q, count, Cap()))
        && Updated(old(bitmap[..]), bitmap[..], pos, pos + count, true)
        && free == old(free) - count && pages[..] == old(pages[..])[pos := Desc(PaOf(paBase, pos), count)]
      ensures Tidy(old(pages[..]), old(live), Cap()) ==> Tidy(pages[..], live, Cap())
    {
      pos := FindNext0Area(bitmap, MapBytes(), 0, count);
      if pos != -1 { Claim(pos, count); }
    }

    /** The count pages at pos are marked and described. */
    method Claim(pos: nat, count: nat)
      requires Valid() && count > 0 && FreeArea(bitmap[..], pos, count, Cap())
      modifies this`free, this`live, bitmap, pages
      ensures Valid() && pos !in old(live) && live == old(live)[pos := count]
      ensures Updated(old(bitmap[..]), bitmap[..], pos, pos + count, true)
      ensures free == old(free) - count && pos < pages.Length && pages[..] == old(pages[..])[pos := Desc(PaOf(paBase, pos), count)]
    {
      ghost var ws, ds := bitmap[..], pages[..];
      OwnedGrows(ws, ds, live, Cap(), paBase, pos, count);
      SetBits(bitmap, pos, count);
      RunsAlloc(ws, bitmap[..], ds, live, Cap(), paBase, pos, count);
      FreedAlloc(ws, bitmap[..], ds, live, freed, Cap(), paBase, pos, count);
      pages[pos] := Desc(PaOf(paBase, pos), count);
      assert pages[..] == ds[pos := Desc(PaOf(paBase, pos), count)];
      free := free - count;
      live := live[pos := count];
    }

    /** page_free: the first page with a set bit whose descriptor the address hits, or -1 and no change. A live run
        that is hit goes, and the first of its bits is cleared. Where no other descriptor is in use nothing else
        is hit; where products of page numbers fit an int, too, the run that goes is the one that contains the address. */
    method Free(addr: nat) returns (ghost hit: int)
      requires Valid()
      modifies this`free, this`live, this`freed, bitmap, pages
      ensures FirstHit(old(bitmap[..]), old(pages[..]), Cap(), addr, hit)
      ensures hit == -1 ==>
        Valid() && live == old(live) && freed == old(freed) && free == old(free) && bitmap[..] == old(bitmap[..]) && pages[..] == old(pages[..])
      ensures hit != -1 ==>
        && free == old(free) + old(pages[..])[hit].count && pages[..] == old(pages[..])[hit := Desc(0, 0)]
        && Updated(old(bitmap[..]), bitmap[..], hit, hit + 1, false)
      ensures hit != -1 && hit in old(live) ==>
        Valid() && live == old(live) - {hit} && freed == old(freed) + [Run(hit, old(live)[hit])] && free == old(free) + old(live)[hit]
      ensures hit != -1 && hit !in old(live) ==> live == old(live) && freed == old(freed)
      ensures Tidy(old(pages[..]), old(live), Cap()) ==> Tidy(pages[..], live, Cap()) && (hit == -1 || hit in old(live))
      ensures Tidy(old(pages[..]), old(live), Cap()) && AddressesFit(paBase, Cap()) ==>
        forall p :: p in old(live) ==> (p == hit <==> Contains(paBase, p, old(live)[p], addr))
    {
      var pos := FindHit(addr);
      hit := pos;
      HitMeans(bitmap[..], pages[..], live, Cap(), paBase, hit, addr);
      if pos == -1 { return; }
      ghost var ws, ds := bitmap[..], pages[..];
      Drop(pos);
      if pos in live { Release(ws, ds, pos); }
    }

    /** The loop of page_free. */
    method FindHit(addr: nat) returns (pos: int)
      requires Valid()
      ensures FirstHit(bitmap[..], pages[..], Cap(), addr, pos)
    {
      pos := 0;
      ghost var ws, ds := bitmap[..], pages[..];
      while true
        invariant pos >= 0 && forall p: nat :: p < pos && p < Cap() && BitAt(ws, p) ==> !Hits(ds[p], addr)
        decreases Cap() - pos
      {
        pos := FindNext1(bitmap, MapBytes(), pos);
        if pos == -1 || Hits(pages[pos], addr) { return; }
        pos := pos + 1;
      }
    }

    /** What page_free does to the page it has found: its length is counted as free, its bit and its descriptor are
        cleared. */
    method Drop(pos: nat)
      requires pos < 64 * bitmap.Length && pos < pages.Length && Wordy(bitmap[..])
      modifies this`free, bitmap, pages
      ensures free == old(free) + old(pages[..])[pos].count && pages[..] == old(pages[..])[pos := Desc(0, 0)]
      ensures Updated(old(bitmap[..]), bitmap[..], pos, pos + 1, false)
    {
      ghost var ds := pages[..];
      free := free + pages[pos].count;
      ClearBit(bitmap, pos);
      pages[pos] := Desc(0, 0);
      assert pages[..] == ds[pos := Desc(0, 0)];
    }

    /** That ends the live run that starts there. */
    ghost method Release(ws: seq<nat>, ds: seq<Desc>, pos: nat)
      requires Cap() <= INT_MAX && RunsOk(ws, ds, live, Cap(), paBase) && FreedOk(ws, live, freed, Cap()) && pos in live && pos < |ds|
      requires Updated(ws, bitmap[..], pos, pos + 1, false) && pages[..] == ds[pos := Desc(0, 0)]
      requires free == nrPages - |Owned(live)| + live[pos]
      modifies this`live, this`freed
      ensures Valid() && live == old(live) - {pos} && freed == old(freed) + [Run(pos, old(live)[pos])]
    {
      OwnedShrinks(live, pos);
      RunsFree(ws, bitmap[..], ds, live, Cap(), paBase, pos);
      FreedFree(ws, bitmap[..], ds, live, freed, Cap(), paBase, pos);
      freed := freed + [Run(pos, live[pos])];
      live := live - {pos};
    }

    /** In every state that calls lead to: when the counter is the number of clear managed bits. */
    lemma CounterMeans()
      requires Valid()
      ensures free == |ClearBits(bitmap[..], nrPages)| <==> SumTails(freed, nrPages) == SumPast(live, Cap(), nrPages)
      ensures nrPages % 64 == 0 || nrPages % 64 == 63 ==>
        (free == |ClearBits(bitmap[..], nrPages)| <==> forall k :: 0 <= k < |freed| ==> freed[k].count == 1)
    {
      CapIs(nrPages);
      FreeCountsClear(bitmap[..], pages[..], live, freed, Cap(), paBase, nrPages);
      if nrPages % 64 == 0 || nrPages % 64 == 63 {
        SinglesOnly(bitmap[..], pages[..], live, freed, Cap(), paBase, nrPages);
      }
    }
  }

  lemma CapIs(n: nat)
    ensures n <= 64 * ((n + 63) / 64 * 8 / 8) == CapOf(n)
  {
    DivUnique((n + 63) / 64 * 8, 8, (n + 63) / 64, 0);
  }

  lemma NoneLeaked(ws: seq<nat>, cap: nat)
    requires cap <= 64 * |ws| && AllClear(ws, 0, cap)
    ensures Leaked(ws, map[], cap) == {}
  {
  }

  /** The first page with a set bit whose descriptor the address hits, or -1. */
  ghost predicate FirstHit(ws: seq<nat>, ds: seq<Desc>, cap: nat, addr: nat, hit: int) {
    && cap <= 64 * |ws| && cap <= |ds|
    && (hit == -1 ==> forall p: nat :: p < cap && BitAt(ws, p) ==> !Hits(ds[p], addr))
    && (hit != -1 ==> 0 <= hit < cap && BitAt(ws, hit) && Hits(ds[hit], addr) && forall p: nat :: p < hit && BitAt(ws, p) ==> !Hits(ds[p], addr))
  }

  /** What it means for the live runs. */
  lemma HitMeans(ws: seq<nat>, ds: seq<Desc>, live: map<nat, nat>, cap: nat, base: nat, hit: int, addr: nat)
    requires RunsOk(ws, ds, live, cap, base) && FirstHit(ws, ds, cap, addr, hit)
    ensures hit != -1 && hit in live ==> ds[hit].count == live[hit]
    ensures Tidy(ds, live, cap) ==> hit == -1 || hit in live
    ensures Tidy(ds, live, cap) && AddressesFit(base, cap) ==> forall p :: p in live ==> (p == hit <==> Contains(base, p, live[p], addr))
  {
    if hit != -1 && hit in live { assert RunOk(ws, ds, cap, base, hit, live[hit]); }
    if hit == -1 {
      forall p | p in live ensures !Hits(Desc(PaOf(base, p), live[p]), addr) {
        assert RunOk(ws, ds, cap, base, p, live[p]);
        assert BitAt(ws, p);
      }
    }
    if Tidy(ds, live, cap) { ContainedOnce(ws, ds, live, cap, base, hit, addr); }
  }

  /** The first run that is hit, if any, is the only one that contains the address. */
  lemma ContainedOnce(ws: seq<nat>, ds: seq<Desc>, live: map<nat, nat>, cap: nat, base: nat, hit: int, addr: nat)
    requires RunsOk(ws, ds, live, cap, base)
    requires hit == -1 ==> forall p :: p in live ==> !Hits(Desc(PaOf(base, p), live[p]), addr)
    requires hit != -1 ==> hit >= 0 && hit in live && Hits(Desc(PaOf(base, hit), live[hit]), addr)
    ensures AddressesFit(base, cap) ==> forall p :: p in live ==> (p == hit <==> Contains(base, p, live[p], addr))
  {
    if AddressesFit(base, cap) {
      forall p | p in live ensures p == hit <==> Contains(base, p, live[p], addr) {
        assert RunOk(ws, ds, cap, base, p, live[p]);
        HitsExactly(base, cap, p, live[p], addr);
        if hit != -1 {
          assert RunOk(ws, ds, cap, base, hit, live[hit]);
          HitsExactly(base, cap, hit, live[hit], addr);
          if Contains(base, p, live[p], addr) { OneRun(live, base, p, hit, addr); }
        }
      }
    }
  }

  // ---- Sections in use ----

  /** In an empty section, or behind the first n pages, the next area is the next pages. */
  lemma NextArea(ws: seq<nat>, cap: nat, n: nat, count: nat, pos: int)
    requires cap <= 64 * |ws| && count > 0 && n + count < cap && AllClear(ws, n, cap) && AllSet(ws, 0, n)
    requires pos == -1 ==> forall q: nat :: !FreeArea(ws, q, count, cap)
    requires pos != -1 ==> pos >= 0 && FreeArea(ws, pos, count, cap) && forall q: nat :: q < pos ==> !FreeArea(ws, q, count, cap)
    ensures pos == n
  {
    assert FreeArea(ws, n, count, cap);
    assert forall q: nat :: q < n ==> BitAt(ws, q);
  }

  /** Allocates the next pages of a section whose first n pages, and no others, are taken. */
  method Append(ps: PageSection, n: nat, count: nat)
    requires ps.Valid() && count > 0 && n + count < ps.Cap() && ps.Cap() + count <= INT_MAX
    requires AllSet(ps.bitmap[..], 0, n) && AllClear(ps.bitmap[..], n, ps.Cap())
    modifies ps`free, ps`live, ps.bitmap, ps.pages
    ensures ps.Valid() && ps.live == old(ps.live)[n := count]
    ensures AllSet(ps.bitmap[..], 0, n + count) && AllClear(ps.bitmap[..], n + count, ps.Cap())
    ensures n < ps.pages.Length && ps.pages[..] == old(ps.pages[..])[n := Desc(PaOf(ps.paBase, n), count)]
    ensures Tidy(old(ps.pages[..]), old(ps.live), ps.Cap()) ==> Tidy(ps.pages[..], ps.live, ps.Cap())
  {
    ghost var ws := ps.bitmap[..];
    var pos := ps.AllocN(count);
    NextArea(ws, ps.Cap(), n, count, pos);
  }

  /** Two pages, allocated and freed: the counter is wrong. */
  method FreeTwo(ps: PageSection, addr: nat)
    requires ps.Valid() && ps.live == map[] && ps.freed == [] && Tidy(ps.pages[..], ps.live, ps.Cap())
    requires AllClear(ps.bitmap[..], 0, ps.Cap()) && 2 <= ps.nrPages && 2 < ps.Cap() && ps.Cap() + 2 <= INT_MAX
    requires AddressesFit(ps.paBase, ps.Cap()) && addr == ps.paBase + Descriptors.KERNEL_BASE
    modifies ps`free, ps`live, ps`freed, ps.bitmap, ps.pages
    ensures ps.Valid() == true && ps.nrPages <= 64 * ps.bitmap.Length && ps.free != |ClearBits(ps.bitmap[..], ps.nrPages)|
  {
    Append(ps, 0, 2);
    FreeOnly(ps, 2, addr);
    OneTail(ps.freed, ps.live, ps.Cap(), ps.nrPages);
    CapIs(ps.nrPages);
    ps.CounterMeans();
  }

  /** Frees the only run, of count pages at page 0. */
  method FreeOnly(ps: PageSection, count: nat, addr: nat)
    requires ps.Valid() && ps.live == map[0 := count] && count > 0 && Tidy(ps.pages[..], ps.live, ps.Cap())
    requires AddressesFit(ps.paBase, ps.Cap()) && addr == ps.paBase + Descriptors.KERNEL_BASE
    modifies ps`free, ps`live, ps`freed, ps.bitmap, ps.pages
    ensures ps.Valid() == true && ps.live == map[] && ps.freed == old(ps.freed) + [Run(0, count)]
  {
    assert 0 in ps.live && Contains(ps.paBase, 0, count, addr);
    ghost var hit := ps.Free(addr);
    assert hit == 0;
  }

  lemma OneTail(freed: seq<Run>, live: map<nat, nat>, cap: nat, n: nat)
    requires freed == [Run(0, 2)] && live == map[] && n >= 2
    ensures SumTails(freed, n) == 1 && SumPast(live, cap, n) == 0
  {
    assert freed[..0] == [];
    EmptyPast(live, cap, n);
  }

  lemma {:induction false} EmptyPast(live: map<nat, nat>, m: nat, n: nat)
    requires live == map[]
    ensures SumPast(live, m, n) == 0
  {
    if m > 0 { EmptyPast(live, m - 1, n); }
  }

  lemma SectionSize(total: nat)
    requires total >= 16384
    ensures 0 < Overhead(total) && Overhead(total) * 100 <= total
    ensures total - Overhead(total) <= CapOf(total - Overhead(total)) <= total
  {
    DescriptorsSuffice(total);
  }

  /** In every section of at least 64 MB whose addresses fit. */
  method Miscounted(base: nat, total: nat, memory: seq<Desc>) returns (ps: PageSection)
    requires base % 4096 == 0 && 16384 <= total <= 0x8_0000 && base + 2 * total * 4096 < 0x1_0000_0000_0000
    requires |memory| == total && forall k :: 0 <= k < total ==> memory[k].pa == 0
    ensures fresh(ps) && ps.Valid() && ps.nrPages <= 64 * ps.bitmap.Length && ps.free != |ClearBits(ps.bitmap[..], ps.nrPages)|
  {
    SectionSize(total);
    ps := new PageSection(base, total, memory);
    CapIs(ps.nrPages);
    FreeTwo(ps, ps.paBase + Descriptors.KERNEL_BASE);
  }

  /** Two live runs at one address, in every section of at least 4.25 GB. */
  method SharedRuns(base: nat, total: nat, memory: seq<Desc>, n: nat) returns (ps: PageSection)
    requires base % 4096 == 0 && 0x11_0000 <= total && 2 * total <= INT_MAX && n == 0x10_0000 && |memory| == total
    ensures fresh(ps) && ps.Valid() && 0 in ps.live && n in ps.live && 0 < n < ps.pages.Length && ps.pages[0].pa == ps.pages[n].pa
  {
    SectionSize(total);
    ps := new PageSection(base, total, memory);
    CapIs(ps.nrPages);
    Append(ps, 0, 1);
    Append(ps, 1, n - 1);
    Append(ps, n, 1);
    SharedAddress(ps.paBase);
  }

  /** A descriptor left in memory from before: an address outside of all runs takes the second page of a live run. */
  method Stale(base: nat, total: nat, memory: seq<Desc>, pa: nat) returns (ps: PageSection)
    requires base % 4096 == 0 && 16384 <= total <= 0x8_0000 && base + 2 * total * 4096 < 0x1_0000_0000_0000
    requires |memory| == total && memory[1] == Desc(pa, 1) && 0 < pa && pa + 4096 <= base
    ensures fresh(ps) && 0 in ps.live && ps.live[0] == 2 && 1 < 64 * ps.bitmap.Length && !BitAt(ps.bitmap[..], 1)
  {
    SectionSize(total);
    ps := new PageSection(base, total, memory);
    CapIs(ps.nrPages);
    Append(ps, 0, 2);
    StaleHit(ps.paBase, pa, Descriptors.Ptov(pa));
    ghost var hit := ps.Free(Descriptors.Ptov(pa));
  }

  lemma StaleHit(base: nat, pa: nat, addr: nat)
    requires 0 < pa && pa + 4096 <= base && base + 8192 < 0x1_0000_0000_0000 && addr == Descriptors.Ptov(pa)
    ensures Hits(Desc(pa, 1), addr) && !Hits(Desc(PaOf(base, 0), 2), addr)
  {
    PaExactly(base, 0);
  }
}

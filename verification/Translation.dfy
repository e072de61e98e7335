/** Four-level translation tables as a map from table frames to 512 entries, and what they translate.
    Addresses are counted in 4 KB pages: a virtual page has 36 bits, nine for each level. */
module Translation {
  import opened Basics
  import opened Descriptors

  type Tables = map<nat, seq<nat>>

  /** The number of the level l entry that covers virtual page n. */
  function Entry(l: nat, n: nat): (r: nat)
    decreases 3 - l, n
  {
    if l >= 3 then n else Entry(l + 1, n) / 512
  }

  /** Pages covered by one entry of level l. */
  function Pages(l: nat): (r: nat)
    ensures r > 0
    decreases 3 - l
  {
    if l >= 3 then 1 else 512 * Pages(l + 1)
  }

  /** The frame an entry names: a table, or the first page it maps. */
  function Frame(e: nat): (r: nat) {
    OutAddr(e, 4096) / 4096
  }

  function BlockFrame(e: nat, l: nat): (r: nat) {
    OutAddr(e, 4096 * Pages(l)) / 4096
  }

  /** Translation of virtual page n from table t of level l, as the architecture defines it. */
  function Look(T: Tables, l: nat, t: nat, n: nat): (r: Option<nat>)
    decreases 3 - l, n
  {
    if l > 3 || t !in T || |T[t]| != 512 then None
    else
      var e := T[t][Entry(l, n) % 512];
      if !IsValid(e) then None
      else if l == 3 then (if IsTable(e) then Some(Frame(e)) else None)
      else if IsTable(e) then Look(T, l + 1, Frame(e), n)
      else if l == 0 then None
      else Some(BlockFrame(e, l) + n % Pages(l))
  }

  /** Where a table stands: its level, the number of the entry that names it, and the table holding that. */
  datatype Place = Place(level: nat, region: nat, parent: nat)

  predicate Covers(p: Place, n: nat) {
    p.level <= 3 && Entry(p.level, n) / 512 == p.region
  }

  /** Null, a leaf of its level, or the only reference to a table one level down. */
  ghost predicate EntryOk(T: Tables, places: map<nat, Place>, t: nat, i: nat)
    requires t in T && t in places && i < |T[t]|
  {
    var e, p := T[t][i], places[t];
    e == 0 || (
      && IsValid(e) && (p.level == 0 || p.level == 3 ==> IsTable(e))
      && (p.level < 3 && IsTable(e) ==>
            Frame(e) in places && places[Frame(e)] == Place(p.level + 1, p.region * 512 + i, t)))
  }

  ghost predicate Tree(T: Tables, places: map<nat, Place>, root: nat) {
    && root in T && places.Keys == T.Keys && places[root] == Place(0, 0, root)
    && (forall t :: t in T ==> |T[t]| == 512 && places[t].level <= 3 && t < 0x10_0000_0000)
    && (forall t, i :: t in T && 0 <= i < 512 ==> EntryOk(T, places, t, i))
  }

  /** Two entries that name one table are one entry. */
  lemma NoSharing(T: Tables, places: map<nat, Place>, root: nat, t: nat, i: nat, u: nat, j: nat)
    requires Tree(T, places, root) && t in T && u in T && i < 512 && j < 512
    requires places[t].level < 3 && T[t][i] != 0 && IsTable(T[t][i])
    requires places[u].level < 3 && T[u][j] != 0 && IsTable(T[u][j])
    requires Frame(T[t][i]) == Frame(T[u][j])
    ensures t == u && i == j
  {
    assert EntryOk(T, places, t, i) && EntryOk(T, places, u, j);
  }

  function Write(T: Tables, t: nat, i: nat, e: nat): (r: Tables)
    requires t in T && i < |T[t]|
  {
    var row: seq<nat> := T[t][i := e];
    T[t := row]
  }

  lemma EntryStep(l: nat, n: nat)
    requires l < 3
    ensures Entry(l, n) == Entry(l + 1, n) / 512
  {
  }

  /** A walk that starts at a table and a page it covers stays on tables that cover the page. */
  lemma StepCovers(T: Tables, places: map<nat, Place>, root: nat, t: nat, n: nat)
    requires Tree(T, places, root) && t in T && Covers(places[t], n) && places[t].level < 3
    ensures var e := T[t][Entry(places[t].level, n) % 512];
      e != 0 && IsTable(e) ==> Frame(e) in T && Covers(places[Frame(e)], n) && places[Frame(e)].level == places[t].level + 1
  {
    var l := places[t].level;
    var i := Entry(l, n) % 512;
    assert EntryOk(T, places, t, i);
    EntryStep(l, n);
    assert Entry(l, n) == places[t].region * 512 + i;
  }

  /** Changing one entry matters only to pages that the entry covers. */
  lemma {:induction false} WriteElsewhere(T: Tables, places: map<nat, Place>, root: nat, u: nat, j: nat, e: nat, t: nat, n: nat)
    requires Tree(T, places, root) && u in T && j < 512 && t in T && Covers(places[t], n)
    requires !(Covers(places[u], n) && Entry(places[u].level, n) % 512 == j)
    ensures Look(Write(T, u, j, e), places[t].level, t, n) == Look(T, places[t].level, t, n)
    decreases 3 - places[t].level
  {
    var l := places[t].level;
    var i := Entry(l, n) % 512;
    var T' := Write(T, u, j, e);
    assert T'[t][i] == T[t][i];
    assert EntryOk(T, places, t, i);
    if l < 3 && T[t][i] != 0 && IsTable(T[t][i]) {
      StepCovers(T, places, root, t, n);
      WriteElsewhere(T, places, root, u, j, e, Frame(T[t][i]), n);
    }
  }

  // ---- Writing a leaf ----

  predicate LeafOf(l: nat, e: nat) {
    IsValid(e) && ((l == 3 && IsTable(e)) || ((l == 1 || l == 2) && !IsTable(e)))
  }

  function LeafPage(l: nat, e: nat, n: nat): (r: nat) {
    if l == 3 then Frame(e) else BlockFrame(e, l) + n % Pages(l)
  }

  lemma WriteLeafTree(T: Tables, places: map<nat, Place>, root: nat, t: nat, i: nat, e: nat)
    requires Tree(T, places, root) && t in T && i < 512 && LeafOf(places[t].level, e)
    ensures Tree(Write(T, t, i, e), places, root)
  {
    var T' := Write(T, t, i, e);
    forall u, j | u in T' && 0 <= j < 512 ensures EntryOk(T', places, u, j) {
      assert EntryOk(T, places, u, j);
    }
  }

  lemma LookLeaf(T: Tables, places: map<nat, Place>, root: nat, t: nat, e: nat, n: nat)
    requires Tree(T, places, root) && t in T && LeafOf(places[t].level, e)
    ensures Look(Write(T, t, Entry(places[t].level, n) % 512, e), places[t].level, t, n) == Some(LeafPage(places[t].level, e, n))
  {
  }

  // ---- Hanging in an empty table ----

  function Zeros(): (r: seq<nat>) {
    seq(512, _ => 0)
  }

  /** Entry i of t now names u, a table of null entries. */
  function Hang(T: Tables, t: nat, i: nat, e: nat): (r: Tables)
    requires t in T && i < |T[t]|
  {
    Write(T, t, i, e)[Frame(e) := Zeros()]
  }

  function HangPlace(places: map<nat, Place>, t: nat, i: nat, u: nat): (r: map<nat, Place>)
    requires t in places
  {
    places[u := Place(places[t].level + 1, places[t].region * 512 + i, t)]
  }

  lemma HangTree(T: Tables, places: map<nat, Place>, root: nat, t: nat, i: nat, e: nat)
    requires Tree(T, places, root) && t in T && i < 512 && places[t].level < 3 && T[t][i] == 0
    requires IsValid(e) && IsTable(e) && Frame(e) !in T && Frame(e) < 0x10_0000_0000
    ensures Tree(Hang(T, t, i, e), HangPlace(places, t, i, Frame(e)), root)
  {
    var T', places' := Hang(T, t, i, e), HangPlace(places, t, i, Frame(e));
    forall v, j | v in T' && 0 <= j < 512 ensures EntryOk(T', places', v, j) {
      if v in T { assert EntryOk(T, places, v, j); }
    }
  }

  /** It changes no translation. */
  lemma {:induction false} HangSame(T: Tables, places: map<nat, Place>, root: nat, t: nat, i: nat, e: nat, v: nat, n: nat)
    requires Tree(T, places, root) && t in T && i < 512 && places[t].level < 3 && T[t][i] == 0
    requires IsValid(e) && IsTable(e) && Frame(e) !in T
    requires v in T && Covers(places[v], n)
    ensures Look(Hang(T, t, i, e), places[v].level, v, n) == Look(T, places[v].level, v, n)
    decreases 3 - places[v].level
  {
    var l := places[v].level;
    var j := Entry(l, n) % 512;
    assert EntryOk(T, places, v, j);
    if v == t && j == i {
      assert Look(Hang(T, t, i, e), l + 1, Frame(e), n) == None;
    } else if l < 3 && T[v][j] != 0 && IsTable(T[v][j]) {
      StepCovers(T, places, root, v, n);
      HangSame(T, places, root, t, i, e, Frame(T[v][j]), n);
    }
  }

  // ---- What mapping a range means ----

  /** Pages vp.. translate to pp.. from table t, modulo the 2^36 physical pages. */
  ghost predicate Maps(T: Tables, l: nat, t: nat, vp: nat, pp: nat, cnt: nat) {
    forall n :: vp <= n < vp + cnt ==> Look(T, l, t, n) == Some((pp + (n - vp)) % 0x10_0000_0000)
  }

  ghost predicate Unmapped(T: Tables, l: nat, t: nat, vp: nat, cnt: nat) {
    forall n :: vp <= n < vp + cnt ==> Look(T, l, t, n) == None
  }

  /** Each page is mapped right or not at all, as when memory for tables runs out. */
  ghost predicate PartlyMaps(T: Tables, l: nat, t: nat, vp: nat, pp: nat, cnt: nat) {
    forall n :: vp <= n < vp + cnt ==>
      Look(T, l, t, n) == None || Look(T, l, t, n) == Some((pp + (n - vp)) % 0x10_0000_0000)
  }

  /** From every table there was, pages outside vp.. translate as before. */
  ghost predicate SameOutside(T: Tables, T': Tables, places: map<nat, Place>, vp: nat, cnt: nat) {
    && (forall t :: t in T && t in places ==> t in T')
    && forall t, n: nat :: t in T && t in places && Covers(places[t], n) && !(vp <= n < vp + cnt) ==>
      Look(T', places[t].level, t, n) == Look(T, places[t].level, t, n)
  }

  /** Tables of level l and above, other than u, have the same entries. */
  ghost predicate Untouched(T: Tables, T': Tables, places: map<nat, Place>, l: nat, u: nat) {
    forall t :: t in T && t in places && places[t].level <= l && t != u ==> t in T' && T'[t] == T[t]
  }

  ghost predicate Extends(places: map<nat, Place>, places': map<nat, Place>) {
    forall t :: t in places ==> t in places' && places'[t] == places[t]
  }

  /** A change below table u of level l that maps into vp.. only. */
  ghost predicate Did(T: Tables, places: map<nat, Place>, T': Tables, places': map<nat, Place>,
                      root: nat, l: nat, u: nat, vp: nat, cnt: nat) {
    && Tree(T', places', root) && Extends(places, places')
    && SameOutside(T, T', places, vp, cnt) && Untouched(T, T', places, l, u)
  }

  lemma DidTrans(T0: Tables, p0: map<nat, Place>, T1: Tables, p1: map<nat, Place>, T2: Tables, p2: map<nat, Place>,
                 root: nat, l: nat, u: nat, vp: nat, a: nat, b: nat)
    requires Tree(T0, p0, root) && Did(T0, p0, T1, p1, root, l, u, vp, a) && Did(T1, p1, T2, p2, root, l, u, vp + a, b)
    ensures Did(T0, p0, T2, p2, root, l, u, vp, a + b)
  {
    forall t, n: nat | t in T0 && t in p0 && Covers(p0[t], n) && !(vp <= n < vp + a + b)
      ensures Look(T2, p0[t].level, t, n) == Look(T0, p0[t].level, t, n)
    {
      assert Look(T1, p0[t].level, t, n) == Look(T0, p0[t].level, t, n);
      assert t in T1 && t in p1 && p1[t] == p0[t];
    }
  }

  lemma DidNothing(T: Tables, p: map<nat, Place>, root: nat, l: nat, u: nat, vp: nat)
    requires Tree(T, p, root)
    ensures Did(T, p, T, p, root, l, u, vp, 0)
  {
  }

  lemma DidWiden(T0: Tables, p0: map<nat, Place>, T1: Tables, p1: map<nat, Place>, root: nat, l: nat, u: nat, vp: nat, a: nat, b: nat)
    requires Did(T0, p0, T1, p1, root, l, u, vp, a) && a <= b
    ensures Did(T0, p0, T1, p1, root, l, u, vp, b)
  {
  }

  /** A change below a child of u is a change below u. */
  lemma DidUp(T0: Tables, p0: map<nat, Place>, T1: Tables, p1: map<nat, Place>, root: nat, l: nat, u: nat, c: nat, vp: nat, cnt: nat)
    requires Tree(T0, p0, root) && c in T0 && p0[c].level == l + 1
    requires Did(T0, p0, T1, p1, root, l + 1, c, vp, cnt)
    ensures Did(T0, p0, T1, p1, root, l, u, vp, cnt)
    ensures forall t :: t in T0 && p0[t].level <= l ==> t in T1 && T1[t] == T0[t]
  {
  }

  lemma DidHang(T: Tables, places: map<nat, Place>, root: nat, t: nat, i: nat, e: nat, vp: nat)
    requires Tree(T, places, root) && t in T && i < 512 && places[t].level < 3 && T[t][i] == 0
    requires IsValid(e) && IsTable(e) && Frame(e) !in T && Frame(e) < 0x10_0000_0000
    ensures Did(T, places, Hang(T, t, i, e), HangPlace(places, t, i, Frame(e)), root, places[t].level, t, vp, 0)
  {
    HangTree(T, places, root, t, i, e);
    forall v, n: nat | v in T && v in places && Covers(places[v], n)
      ensures Look(Hang(T, t, i, e), places[v].level, v, n) == Look(T, places[v].level, v, n)
    {
      HangSame(T, places, root, t, i, e, v, n);
    }
  }

  /** The pages of the level l unit that vp starts or lies in. */
  lemma DidLeaf(T: Tables, places: map<nat, Place>, root: nat, t: nat, i: nat, e: nat, vp: nat, cnt: nat)
    requires Tree(T, places, root) && t in T && i < 512 && LeafOf(places[t].level, e)
    requires forall n: nat :: Covers(places[t], n) && Entry(places[t].level, n) % 512 == i ==> vp <= n < vp + cnt
    ensures Did(T, places, Write(T, t, i, e), places, root, places[t].level, t, vp, cnt)
  {
    WriteLeafTree(T, places, root, t, i, e);
    forall v, n: nat | v in T && v in places && Covers(places[v], n) && !(vp <= n < vp + cnt)
      ensures Look(Write(T, t, i, e), places[v].level, v, n) == Look(T, places[v].level, v, n)
    {
      WriteElsewhere(T, places, root, t, i, e, v, n);
    }
  }

  /** The range lies in the region of table t. */
  ghost predicate InTable(p: Place, vp: nat, cnt: nat) {
    forall n: nat :: vp <= n < vp + cnt ==> Covers(p, n)
  }

  /** What was mapped or unmapped outside a change stays so. */
  lemma KeepMaps(T0: Tables, p0: map<nat, Place>, T1: Tables, p1: map<nat, Place>, root: nat, u: nat, t: nat,
                 vp: nat, pp: nat, cnt: nat, a: nat, b: nat)
    requires Tree(T0, p0, root) && t in T0 && InTable(p0[t], vp, cnt)
    requires SameOutside(T0, T1, p0, a, b) && (vp + cnt <= a || a + b <= vp)
    ensures Maps(T0, p0[t].level, t, vp, pp, cnt) ==> Maps(T1, p0[t].level, t, vp, pp, cnt)
    ensures Unmapped(T0, p0[t].level, t, vp, cnt) ==> Unmapped(T1, p0[t].level, t, vp, cnt)
  {
    forall n: nat | vp <= n < vp + cnt ensures Look(T1, p0[t].level, t, n) == Look(T0, p0[t].level, t, n) {
      assert Covers(p0[t], n);
    }
  }
}

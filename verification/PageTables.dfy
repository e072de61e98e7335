/** Mapping a range into the tables (ukern/src/pagetable.c:213-406); addresses and sizes in pages. */
module PageTables {
  import opened Basics
  import opened Words
  import opened Descriptors
  import opened Translation
  import opened Attributes
  import opened Rights

  // ---- Entries for page numbers ----

  lemma PageMod(pp: nat)
    ensures pp * 4096 % 0x1_0000_0000_0000 == (pp % 0x10_0000_0000) * 4096
  {
    var q, r := pp / 0x10_0000_0000, pp % 0x10_0000_0000;
    ModUnique(pp * 4096, 0x1_0000_0000_0000, q, r * 4096);
  }

  lemma PageEntryOk(pp: nat, flags: nat)
    ensures var e := LeafEntry(DES_PAGE, pp * 4096, flags); LeafOf(3, e) && Frame(e) == pp % 0x10_0000_0000
  {
    LeafDecodes(DES_PAGE, pp * 4096, flags, 4096, 0x10_0000_0000);
    PageMod(pp);
  }

  lemma BlockEntryOk(pp: nat, flags: nat)
    requires pp % 512 == 0
    ensures var e := LeafEntry(DES_BLOCK, pp * 4096, flags); LeafOf(2, e) && BlockFrame(e, 2) == pp % 0x10_0000_0000
  {
    assert Pages(2) == 512 by { assert Pages(3) == 1; }
    var q := pp / 512;
    ModUnique(pp * 4096, 0x20_0000, q, 0);
    LeafDecodes(DES_BLOCK, pp * 4096, flags, 0x20_0000, 0x800_0000);
    PageMod(pp);
  }

  lemma TableEntryOk(t: nat, flags: nat)
    requires t < 0x10_0000_0000
    ensures var e := TableEntry(t * 4096, flags); IsValid(e) && IsTable(e) && Frame(e) == t
  {
    ModUnique(t * 4096, 4096, t, 0);
    TableDecodes(t * 4096, flags);
  }

  // ---- Entry numbers ----

  lemma EntryNumbers(n: nat)
    ensures Entry(3, n) == n && Entry(2, n) == n / 512 && Entry(1, n) == n / 0x4_0000 && Entry(0, n) == n / 0x800_0000
  {
    assert Entry(3, n) == n;
    assert Entry(2, n) == n / 512;
    assert Entry(1, n) == n / 512 / 512;
    assert Entry(0, n) == n / 512 / 512 / 512;
  }

  // ---- The bottom level ----

  lemma BottomSlot(p: Place, n: nat, m: nat)
    requires p.level == 3 && Covers(p, n) && Covers(p, m) && n != m
    ensures n % 512 != m % 512
  {
  }

  lemma NullSlot(T: Tables, places: map<nat, Place>, root: nat, t: nat, n: nat)
    requires Tree(T, places, root) && t in T && places[t].level == 3 && Look(T, 3, t, n) == None
    ensures T[t][n % 512] == 0
  {
    assert Entry(3, n) == n;
    assert EntryOk(T, places, t, n % 512);
  }

  /** Writing the entry of page n maps it. */
  lemma PageStep(T: Tables, places: map<nat, Place>, root: nat, t: nat, n: nat, pp: nat, flags: nat)
    requires Tree(T, places, root) && t in T && places[t].level == 3 && Covers(places[t], n)
    ensures var T' := Write(T, t, n % 512, LeafEntry(DES_PAGE, pp * 4096, flags));
      Did(T, places, T', places, root, 3, t, n, 1) && Maps(T', 3, t, n, pp, 1)
  {
    var e := LeafEntry(DES_PAGE, pp * 4096, flags);
    PageEntryOk(pp, flags);
    assert Entry(3, n) == n;
    forall m: nat | Covers(places[t], m) && Entry(3, m) % 512 == n % 512 ensures m == n {
      assert Entry(3, m) == m;
      if m != n { BottomSlot(places[t], n, m); }
    }
    DidLeaf(T, places, root, t, n % 512, e, n, 1);
    LookLeaf(T, places, root, t, e, n);
  }

  /** One more chunk on top of a mapped part. */
  lemma MoreMapped(T0: Tables, p0: map<nat, Place>, T1: Tables, p1: map<nat, Place>, T2: Tables, p2: map<nat, Place>,
                   root: nat, t: nat, l: nat, vp: nat, pp: nat, a: nat, b: nat, c: nat)
    requires Tree(T0, p0, root) && t in T0 && p0[t].level == l && InTable(p0[t], vp, a + b + c)
    requires Did(T0, p0, T1, p1, root, l, t, vp, a) && Did(T1, p1, T2, p2, root, l, t, vp + a, b)
    requires Maps(T1, l, t, vp, pp, a) && Unmapped(T1, l, t, vp + a, b + c)
    ensures Did(T0, p0, T2, p2, root, l, t, vp, a + b)
    ensures Maps(T2, l, t, vp, pp, a) && Unmapped(T2, l, t, vp + a + b, c)
  {
    DidTrans(T0, p0, T1, p1, T2, p2, root, l, t, vp, a, b);
    KeepMaps(T1, p1, T2, p2, root, t, t, vp, pp, a, vp + a, b);
    KeepMaps(T1, p1, T2, p2, root, t, t, vp + a + b, 0, c, vp + a, b);
  }

  lemma JoinMaps(T: Tables, l: nat, t: nat, vp: nat, pp: nat, a: nat, b: nat)
    requires Maps(T, l, t, vp, pp, a) && Maps(T, l, t, vp + a, pp + a, b)
    ensures Maps(T, l, t, vp, pp, a + b)
  {
    forall n: nat | vp <= n < vp + a + b ensures Look(T, l, t, n) == Some((pp + (n - vp)) % 0x10_0000_0000) {
      if n >= vp + a {
        assert pp + a + (n - (vp + a)) == pp + (n - vp);
      }
    }
  }

  // ---- The upper levels ----

  /** All of vp.. is covered by one entry of level l. */
  ghost predicate OneEntry(l: nat, vp: nat, cnt: nat) {
    forall n: nat :: vp <= n < vp + cnt ==> Entry(l, n) == Entry(l, vp)
  }

  ghost predicate NamesTable(T: Tables, t: nat, i: nat, c: nat) {
    t in T && i < |T[t]| && IsValid(T[t][i]) && IsTable(T[t][i]) && Frame(T[t][i]) == c
  }

  /** Below an unmapped page an entry is null or names a table. */
  lemma TableOrNull(T: Tables, places: map<nat, Place>, root: nat, t: nat, n: nat)
    requires Tree(T, places, root) && t in T && places[t].level < 3 && Look(T, places[t].level, t, n) == None
    ensures var e := T[t][Entry(places[t].level, n) % 512]; e == 0 || (IsValid(e) && IsTable(e))
  {
    assert EntryOk(T, places, t, Entry(places[t].level, n) % 512);
  }

  lemma ChildLook(T: Tables, places: map<nat, Place>, root: nat, t: nat, c: nat, vp: nat, cnt: nat)
    requires Tree(T, places, root) && t in T && places[t].level < 3 && InTable(places[t], vp, cnt) && OneEntry(places[t].level, vp, cnt)
    requires NamesTable(T, t, Entry(places[t].level, vp) % 512, c)
    ensures forall n: nat :: vp <= n < vp + cnt ==> Look(T, places[t].level, t, n) == Look(T, places[t].level + 1, c, n)
  {
  }

  lemma ChildPlace(T: Tables, places: map<nat, Place>, root: nat, t: nat, c: nat, vp: nat, cnt: nat)
    requires Tree(T, places, root) && t in T && places[t].level < 3 && cnt > 0
    requires InTable(places[t], vp, cnt) && OneEntry(places[t].level, vp, cnt)
    requires NamesTable(T, t, Entry(places[t].level, vp) % 512, c)
    ensures c in T && places[c].level == places[t].level + 1 && InTable(places[c], vp, cnt)
  {
    assert EntryOk(T, places, t, Entry(places[t].level, vp) % 512);
    assert Covers(places[t], vp);
    forall n: nat | vp <= n < vp + cnt ensures Covers(places[c], n) {
      EntryStep(places[t].level, n);
    }
  }

  /** Mapping below a child table maps below its parent. */
  lemma MapsUp(T1: Tables, p1: map<nat, Place>, T2: Tables, p2: map<nat, Place>, root: nat, t: nat, c: nat, vp: nat, pp: nat, cnt: nat)
    requires Tree(T1, p1, root) && t in T1 && p1[t].level < 3 && InTable(p1[t], vp, cnt) && OneEntry(p1[t].level, vp, cnt) && cnt > 0
    requires NamesTable(T1, t, Entry(p1[t].level, vp) % 512, c)
    requires Did(T1, p1, T2, p2, root, p1[t].level + 1, c, vp, cnt)
    ensures Did(T1, p1, T2, p2, root, p1[t].level, t, vp, cnt)
    ensures Maps(T2, p1[t].level + 1, c, vp, pp, cnt) ==> Maps(T2, p1[t].level, t, vp, pp, cnt)
    ensures PartlyMaps(T2, p1[t].level + 1, c, vp, pp, cnt) ==> PartlyMaps(T2, p1[t].level, t, vp, pp, cnt)
  {
    ChildPlace(T1, p1, root, t, c, vp, cnt);
    DidUp(T1, p1, T2, p2, root, p1[t].level, t, c, vp, cnt);
    assert t in T2 && p2[t] == p1[t];
    ChildLook(T2, p2, root, t, c, vp, cnt);
    SameLook(T2, p1[t].level, t, c, vp, pp, cnt);
  }

  lemma SameLook(T: Tables, l: nat, t: nat, c: nat, vp: nat, pp: nat, cnt: nat)
    requires forall n: nat :: vp <= n < vp + cnt ==> Look(T, l, t, n) == Look(T, l + 1, c, n)
    ensures Maps(T, l + 1, c, vp, pp, cnt) ==> Maps(T, l, t, vp, pp, cnt)
    ensures PartlyMaps(T, l + 1, c, vp, pp, cnt) ==> PartlyMaps(T, l, t, vp, pp, cnt)
  {
  }

  lemma UnmappedDown(T: Tables, l: nat, t: nat, k: nat, c: nat, vp: nat, cnt: nat)
    requires forall n: nat :: vp <= n < vp + cnt ==> Look(T, l, t, n) == Look(T, k, c, n)
    requires Unmapped(T, l, t, vp, cnt)
    ensures Unmapped(T, k, c, vp, cnt)
  {
    forall n: nat | vp <= n < vp + cnt ensures Look(T, k, c, n) == None {
      assert Look(T, l, t, n) == None;
    }
  }

  /** A first step that changes no translation can be folded into the change after it. */
  lemma FoldHang(T0: Tables, p0: map<nat, Place>, T1: Tables, p1: map<nat, Place>, T2: Tables, p2: map<nat, Place>,
                 root: nat, l: nat, t: nat, vp: nat, cnt: nat)
    requires Tree(T0, p0, root) && Did(T0, p0, T1, p1, root, l, t, vp, 0) && Did(T1, p1, T2, p2, root, l, t, vp, cnt)
    ensures Did(T0, p0, T2, p2, root, l, t, vp, cnt)
  {
    DidTrans(T0, p0, T1, p1, T2, p2, root, l, t, vp, 0, cnt);
  }

  /** A failed chunk after a mapped part. */
  lemma FailMapped(T0: Tables, p0: map<nat, Place>, T1: Tables, p1: map<nat, Place>, T2: Tables, p2: map<nat, Place>,
                   root: nat, t: nat, l: nat, vp: nat, pp: nat, a: nat, b: nat, c: nat)
    requires Tree(T0, p0, root) && t in T0 && p0[t].level == l && InTable(p0[t], vp, a + b + c)
    requires Did(T0, p0, T1, p1, root, l, t, vp, a) && Did(T1, p1, T2, p2, root, l, t, vp + a, b)
    requires Maps(T1, l, t, vp, pp, a) && Unmapped(T1, l, t, vp + a, b + c) && PartlyMaps(T2, l, t, vp + a, pp + a, b)
    ensures Did(T0, p0, T2, p2, root, l, t, vp, a + b + c)
    ensures PartlyMaps(T2, l, t, vp, pp, a + b + c)
  {
    MoreMapped(T0, p0, T1, p1, T2, p2, root, t, l, vp, pp, a, b, c);
    DidWiden(T0, p0, T2, p2, root, l, t, vp, a + b, a + b + c);
    JoinPartly(T2, l, t, vp, pp, a, b, c);
  }

  lemma JoinPartly(T: Tables, l: nat, t: nat, vp: nat, pp: nat, a: nat, b: nat, c: nat)
    requires Maps(T, l, t, vp, pp, a) && PartlyMaps(T, l, t, vp + a, pp + a, b) && Unmapped(T, l, t, vp + a + b, c)
    ensures PartlyMaps(T, l, t, vp, pp, a + b + c)
  {
    forall n: nat | vp <= n < vp + a + b + c
      ensures Look(T, l, t, n) == None || Look(T, l, t, n) == Some((pp + (n - vp)) % 0x10_0000_0000)
    {
      if vp + a <= n < vp + a + b {
        assert pp + a + (n - (vp + a)) == pp + (n - vp);
      }
    }
  }

  lemma BlockPage(pp: nat, k: nat)
    requires pp % 512 == 0 && k < 512
    ensures pp % 0x10_0000_0000 + k == (pp + k) % 0x10_0000_0000
  {
    var m := pp / 512;
    var q, r := m / 0x800_0000, m % 0x800_0000;
    ModUnique(pp, 0x10_0000_0000, q, 512 * r);
    ModUnique(pp + k, 0x10_0000_0000, q, 512 * r + k);
  }

  lemma BlockMaps(T: Tables, places: map<nat, Place>, root: nat, t: nat, vp: nat, pp: nat, e: nat)
    requires Tree(T, places, root) && t in T && places[t].level == 2 && vp % 512 == 0 && pp % 512 == 0
    requires LeafOf(2, e) && BlockFrame(e, 2) == pp % 0x10_0000_0000
    ensures Maps(Write(T, t, vp / 512 % 512, e), 2, t, vp, pp, 512)
  {
    assert Pages(2) == 512 by { assert Pages(3) == 1; }
    forall n: nat | vp <= n < vp + 512
      ensures Look(Write(T, t, vp / 512 % 512, e), 2, t, n) == Some((pp + (n - vp)) % 0x10_0000_0000)
    {
      assert Entry(2, n) == n / 512 == vp / 512 by { assert Entry(3, n) == n; }
      LookLeaf(T, places, root, t, e, n);
      BlockPage(pp, n - vp);
    }
  }

  /** Writing a 2 MB block entry maps its 512 pages. */
  lemma BlockStep(T: Tables, places: map<nat, Place>, root: nat, t: nat, vp: nat, pp: nat, flags: nat)
    requires Tree(T, places, root) && t in T && places[t].level == 2 && Covers(places[t], vp)
    requires vp % 512 == 0 && pp % 512 == 0
    ensures var T' := Write(T, t, vp / 512 % 512, LeafEntry(DES_BLOCK, pp * 4096, flags));
      Did(T, places, T', places, root, 2, t, vp, 512) && Maps(T', 2, t, vp, pp, 512)
  {
    var e := LeafEntry(DES_BLOCK, pp * 4096, flags);
    BlockEntryOk(pp, flags);
    BlockMaps(T, places, root, t, vp, pp, e);
    assert Entry(2, vp) == vp / 512 by { assert Entry(3, vp) == vp; }
    forall n: nat | Covers(places[t], n) && Entry(2, n) % 512 == vp / 512 % 512 ensures vp <= n < vp + 512 {
      assert Entry(2, n) == n / 512 by { assert Entry(3, n) == n; }
      assert Entry(2, n) / 512 == Entry(2, vp) / 512;
    }
    DidLeaf(T, places, root, t, vp / 512 % 512, e, vp, 512);
  }

  /** With the child in place, the range is unmapped below it too. */
  lemma BelowChild(T0: Tables, p0: map<nat, Place>, T1: Tables, p1: map<nat, Place>, root: nat, t: nat, c: nat, vp: nat, cnt: nat)
    requires Tree(T0, p0, root) && t in T0 && p0[t].level < 3 && cnt > 0
    requires InTable(p0[t], vp, cnt) && OneEntry(p0[t].level, vp, cnt) && Unmapped(T0, p0[t].level, t, vp, cnt)
    requires Did(T0, p0, T1, p1, root, p0[t].level, t, vp, 0) && NamesTable(T1, t, Entry(p0[t].level, vp) % 512, c)
    ensures t in T1 && p1[t] == p0[t] && c in T1 && p1[c].level == p0[t].level + 1
    ensures InTable(p1[c], vp, cnt) && Unmapped(T1, p0[t].level + 1, c, vp, cnt)
  {
    KeepMaps(T0, p0, T1, p1, root, t, t, vp, 0, cnt, vp, 0);
    assert t in T1 && p1[t] == p0[t];
    ChildPlace(T1, p1, root, t, c, vp, cnt);
    ChildLook(T1, p1, root, t, c, vp, cnt);
    UnmappedDown(T1, p0[t].level, t, p0[t].level + 1, c, vp, cnt);
  }

  /** A part of an unmapped range. */
  lemma Part(T: Tables, p: Place, l: nat, t: nat, vp: nat, rem: nat, m: nat)
    requires InTable(p, vp, rem) && Unmapped(T, l, t, vp, rem) && m <= rem
    ensures InTable(p, vp, m) && Unmapped(T, l, t, vp, m)
  {
  }

  lemma PartTable(p: Place, vp: nat, cnt: nat, k: nat)
    requires InTable(p, vp, cnt) && k <= cnt
    ensures InTable(p, vp + k, cnt - k)
  {
  }

  /** A round through a child table: hang it in, then map below it. */
  lemma EntryRound(T0: Tables, p0: map<nat, Place>, T1: Tables, p1: map<nat, Place>, T2: Tables, p2: map<nat, Place>,
                   root: nat, l: nat, t: nat, c: nat, vp: nat, pp: nat, cnt: nat)
    requires Tree(T0, p0, root) && t in T0 && p0[t].level == l < 3 && cnt > 0
    requires InTable(p0[t], vp, cnt) && OneEntry(l, vp, cnt)
    requires Did(T0, p0, T1, p1, root, l, t, vp, 0) && NamesTable(T1, t, Entry(l, vp) % 512, c)
    requires Did(T1, p1, T2, p2, root, l + 1, c, vp, cnt)
    ensures Did(T0, p0, T2, p2, root, l, t, vp, cnt)
    ensures Maps(T2, l + 1, c, vp, pp, cnt) ==> Maps(T2, l, t, vp, pp, cnt)
    ensures PartlyMaps(T2, l + 1, c, vp, pp, cnt) ==> PartlyMaps(T2, l, t, vp, pp, cnt)
  {
    assert t in T1 && p1[t] == p0[t];
    MapsUp(T1, p1, T2, p2, root, t, c, vp, pp, cnt);
    FoldHang(T0, p0, T1, p1, T2, p2, root, l, t, vp, cnt);
  }

  /** A round of a mapping loop: one more chunk is mapped. */
  lemma RangeRound(T0: Tables, p0: map<nat, Place>, T1: Tables, p1: map<nat, Place>, T2: Tables, p2: map<nat, Place>,
                   root: nat, t: nat, l: nat, vp: nat, pp: nat, a: nat, b: nat, c: nat)
    requires Tree(T0, p0, root) && t in T0 && p0[t].level == l && InTable(p0[t], vp, a + b + c)
    requires Did(T0, p0, T1, p1, root, l, t, vp, a) && Did(T1, p1, T2, p2, root, l, t, vp + a, b)
    requires Maps(T1, l, t, vp, pp, a) && Unmapped(T1, l, t, vp + a, b + c) && Maps(T2, l, t, vp + a, pp + a, b)
    ensures Did(T0, p0, T2, p2, root, l, t, vp, a + b)
    ensures Maps(T2, l, t, vp, pp, a + b) && Unmapped(T2, l, t, vp + a + b, c)
  {
    MoreMapped(T0, p0, T1, p1, T2, p2, root, t, l, vp, pp, a, b, c);
    JoinMaps(T2, l, t, vp, pp, a, b);
  }

  /** A round of map_pt_range. */
  lemma PageRound(T0: Tables, T1: Tables, T2: Tables, places: map<nat, Place>, root: nat, t: nat, vp: nat, pp: nat, a: nat, c: nat, flags: nat)
    requires Tree(T0, places, root) && t in T0 && places[t].level == 3 && InTable(places[t], vp, a + 1 + c)
    requires Did(T0, places, T1, places, root, 3, t, vp, a)
    requires Maps(T1, 3, t, vp, pp, a) && Unmapped(T1, 3, t, vp + a, 1 + c)
    requires t in T1 && T2 == Write(T1, t, (vp + a) % 512, LeafEntry(DES_PAGE, (pp + a) * 4096, flags))
    ensures Did(T0, places, T2, places, root, 3, t, vp, a + 1)
    ensures Maps(T2, 3, t, vp, pp, a + 1) && Unmapped(T2, 3, t, vp + a + 1, c)
  {
    PageStep(T1, places, root, t, vp + a, pp + a, flags);
    RangeRound(T0, places, T1, places, T2, places, root, t, 3, vp, pp, a, 1, c);
  }

  lemma AddedPage(T0: Tables, T1: Tables, T2: Tables, places: map<nat, Place>, root: nat, t: nat, i: nat, pp: nat, flags: nat)
    requires Tree(T0, places, root) && Tree(T1, places, root) && Tree(T2, places, root) && Added(T0, T1, places, flags)
    requires t in T1 && places[t].level == 3 && i < 512 && T1[t][i] == 0 && Physical(pp, 1)
    requires T2 == Write(T1, t, i, LeafEntry(DES_PAGE, pp * 4096, flags))
    ensures Added(T0, T2, places, flags) == true
  {
    PagePermits(DES_PAGE, pp, flags);
    AddedLeaf(T1, places, root, t, i, LeafEntry(DES_PAGE, pp * 4096, flags), flags);
    AddedOn(T0, places, T1, places, T2, places, root, flags);
  }

  lemma AddedBlock(T: Tables, places: map<nat, Place>, root: nat, t: nat, i: nat, pp: nat, flags: nat)
    requires Tree(T, places, root) && t in T && places[t].level == 2 && i < 512 && T[t][i] == 0 && pp % 512 == 0 && Physical(pp, 512)
    ensures Added(T, Write(T, t, i, LeafEntry(DES_BLOCK, pp * 4096, flags)), places, flags) == true
  {
    BlockEntryOk(pp, flags);
    PagePermits(DES_BLOCK, pp, flags);
    AddedLeaf(T, places, root, t, i, LeafEntry(DES_BLOCK, pp * 4096, flags), flags);
  }

  // ---- The chunks of the mapping loops ----

  /** What map_pmd_range maps next from page vp with rem pages to go: up to the next 2 MB boundary. */
  function PmdChunk(vp: nat, rem: nat): (m: nat) {
    var aligned := (vp + 511) / 512 * 512;
    if aligned > vp && aligned - vp < rem then aligned - vp
    else if rem > 512 then 512 else rem
  }

  /** Where a block can be mapped, the chunk is one block. */
  lemma HugeChunk(vp: nat, rem: nat)
    requires rem > 0 && vp % 512 == 0 && rem % 512 == 0
    ensures PmdChunk(vp, rem) == 512
  {
  }

  lemma PmdChunkFits(vp: nat, rem: nat)
    requires rem > 0
    ensures var m := PmdChunk(vp, rem);
      0 < m <= rem && vp % 512 + m <= 512 && OneEntry(2, vp, m) && (m < rem ==> (vp + m) % 512 == 0)
  {
    var m := PmdChunk(vp, rem);
    assert vp % 512 + m <= 512;
    forall n: nat | vp <= n < vp + m ensures Entry(2, n) == Entry(2, vp) {
      assert Entry(2, n) == n / 512 && Entry(2, vp) == vp / 512 by { assert Entry(3, n) == n && Entry(3, vp) == vp; }
    }
  }

  /** map_pud_range and map_pgd_range do not stop at the boundary of the unit they start in. */
  function UpperChunk(rem: nat, unit: nat): (m: nat) {
    if rem > unit then unit else rem
  }

  /** Their chunks stay within one entry exactly when the range does, or starts on a boundary. */
  predicate PudFits(vp: nat, cnt: nat) {
    vp % 0x4_0000 == 0 || vp % 0x4_0000 + cnt <= 0x4_0000
  }

  predicate PgdFits(vp: nat, cnt: nat) {
    vp % 0x800_0000 == 0 || (vp % 0x800_0000 + cnt <= 0x800_0000 && PudFits(vp, cnt))
  }

  lemma PudChunkFits(vp: nat, rem: nat)
    requires rem > 0 && PudFits(vp, rem)
    ensures var m := UpperChunk(rem, 0x4_0000);
      && 0 < m <= rem && vp % 0x4_0000 + m <= 0x4_0000 && OneEntry(1, vp, m)
      && (m < rem ==> m == 0x4_0000 && (vp + m) % 0x4_0000 == 0 && PudFits(vp + m, rem - m))
  {
    var m := UpperChunk(rem, 0x4_0000);
    forall n: nat | vp <= n < vp + m ensures Entry(1, n) == Entry(1, vp) {
      EntryNumbers(n);
      EntryNumbers(vp);
    }
  }

  lemma PgdChunkFits(vp: nat, rem: nat)
    requires rem > 0 && PgdFits(vp, rem)
    ensures var m := UpperChunk(rem, 0x800_0000);
      && 0 < m <= rem && vp % 0x800_0000 + m <= 0x800_0000 && OneEntry(0, vp, m) && PudFits(vp, m)
      && (m < rem ==> m == 0x800_0000 && (vp + m) % 0x800_0000 == 0 && PgdFits(vp + m, rem - m))
  {
    var m := UpperChunk(rem, 0x800_0000);
    forall n: nat | vp <= n < vp + m ensures Entry(0, n) == Entry(0, vp) {
      EntryNumbers(n);
      EntryNumbers(vp);
    }
    if vp % 0x800_0000 == 0 { ModFactor(vp, 0x4_0000, 512); }
  }

  // ---- Tables a range needs ----

  /** count pages from first on. */
  datatype Span = Span(first: nat, count: nat)

  /** How many units of u pages the range touches. */
  function Units(r: Span, u: nat): (n: nat)
    requires u > 0
  {
    if r.count == 0 then 0
    else DivMono(r.first, r.first + r.count - 1, u); (r.first + r.count - 1) / u - r.first / u + 1
  }

  lemma DivMono(x: nat, y: nat, u: nat)
    requires u > 0 && x <= y
    ensures x / u <= y / u
  {
    DivMod(x, u);
    DivMod(y, u);
    if x / u > y / u { MulLe(u, y / u + 1, x / u); }
  }

  lemma UnitsMono(vp: nat, a: nat, b: nat, u: nat)
    requires u > 0 && a <= b
    ensures Units(Span(vp, a), u) <= Units(Span(vp, b), u)
  {
    if a > 0 { DivMono(vp + a - 1, vp + b - 1, u); }
  }

  /** Up to a boundary and from there on. */
  lemma UnitsSplit(vp: nat, k: nat, m: nat, u: nat)
    requires u > 0 && (k > 0 && m > 0 ==> (vp + k) % u == 0)
    ensures Units(Span(vp, k + m), u) == Units(Span(vp, k), u) + Units(Span(vp + k, m), u)
  {
    if k > 0 && m > 0 {
      var q := (vp + k) / u;
      DivMod(vp + k, u);
      assert q > 0;
      assert vp + k - 1 == u * (q - 1) + (u - 1) by { assert u * (q - 1) == u * q - u; }
      DivUnique(vp + k - 1, u, q - 1, u - 1);
    }
  }

  lemma UnitsOne(vp: nat, m: nat, u: nat)
    requires u > 0 && m > 0 && vp % u + m <= u
    ensures Units(Span(vp, m), u) == 1
  {
    DivMod(vp, u);
    DivUnique(vp + m - 1, u, vp / u, vp % u + m - 1);
  }

  /** Tables that mapping the range below an entry of each level can need at most. */
  function PmdNeed(r: Span): (n: nat) { if r.count == 0 then 0 else Units(r, 512) }
  function PudNeed(r: Span): (n: nat) { if r.count == 0 then 0 else Units(r, 0x4_0000) + PmdNeed(r) }
  function PgdNeed(r: Span): (n: nat) { if r.count == 0 then 0 else Units(r, 0x800_0000) + PudNeed(r) }

  lemma PmdNeedStep(vp: nat, k: nat, m: nat, size: nat)
    requires 0 < m && k + m <= size && (k > 0 ==> (vp + k) % 512 == 0) && (vp + k) % 512 + m <= 512
    ensures PmdNeed(Span(vp, k)) + 1 == PmdNeed(Span(vp, k + m)) <= PmdNeed(Span(vp, size))
  {
    UnitsSplit(vp, k, m, 512);
    UnitsOne(vp + k, m, 512);
    UnitsMono(vp, k + m, size, 512);
  }

  lemma PudNeedStep(vp: nat, k: nat, m: nat, size: nat)
    requires 0 < m && k + m <= size && (k > 0 ==> (vp + k) % 0x4_0000 == 0) && (vp + k) % 0x4_0000 + m <= 0x4_0000
    ensures PudNeed(Span(vp, k)) + 1 + PmdNeed(Span(vp + k, m)) == PudNeed(Span(vp, k + m)) <= PudNeed(Span(vp, size))
  {
    if k > 0 { ModFactor(vp + k, 512, 512); }
    UnitsSplit(vp, k, m, 512);
    UnitsSplit(vp, k, m, 0x4_0000);
    UnitsOne(vp + k, m, 0x4_0000);
    UnitsMono(vp, k + m, size, 512);
    UnitsMono(vp, k + m, size, 0x4_0000);
  }

  lemma PudNeedSplit(vp: nat, k: nat, m: nat, size: nat)
    requires k + m <= size && (k > 0 ==> (vp + k) % 0x4_0000 == 0)
    ensures PudNeed(Span(vp, k)) + PudNeed(Span(vp + k, m)) == PudNeed(Span(vp, k + m)) <= PudNeed(Span(vp, size))
  {
    if k > 0 { ModFactor(vp + k, 512, 512); }
    UnitsSplit(vp, k, m, 512);
    UnitsSplit(vp, k, m, 0x4_0000);
    UnitsMono(vp, k + m, size, 512);
    UnitsMono(vp, k + m, size, 0x4_0000);
  }

  lemma GigBoundary(x: nat, k: nat)
    requires k > 0 ==> x % 0x800_0000 == 0
    ensures k > 0 ==> x % 0x4_0000 == 0
  {
    if k > 0 { ModFactor(x, 0x4_0000, 512); }
  }

  lemma PgdNeedStep(vp: nat, k: nat, m: nat, size: nat)
    requires 0 < m && k + m <= size && (k > 0 ==> (vp + k) % 0x800_0000 == 0) && (vp + k) % 0x800_0000 + m <= 0x800_0000
    ensures PgdNeed(Span(vp, k)) + 1 + PudNeed(Span(vp + k, m)) == PgdNeed(Span(vp, k + m)) <= PgdNeed(Span(vp, size))
  {
    GigBoundary(vp + k, k);
    PudNeedSplit(vp, k, m, size);
    UnitsSplit(vp, k, m, 0x800_0000);
    UnitsOne(vp + k, m, 0x800_0000);
    UnitsMono(vp, k + m, size, 0x800_0000);
  }

  /** At most need frames left the pool; failure means it was too small, and it is empty then. */
  ghost predicate Took(pool0: seq<nat>, pool: seq<nat>, ok: bool, need: nat) {
    |pool| <= |pool0| <= |pool| + need && (!ok ==> pool == [] && |pool0| < need)
  }

  /** Frames went from the front of the pool to the tables, one by one, and nothing else came or went. */
  ghost predicate Drawn(keys0: set<nat>, pool0: seq<nat>, keys: set<nat>, pool: seq<nat>)
    decreases |pool0|
  {
    if |pool0| <= |pool| then pool0 == pool && keys0 == keys
    else Drawn(keys0 + {pool0[0]}, pool0[1..], keys, pool)
  }

  ghost function Frames(pool: seq<nat>): (s: set<nat>) {
    set x | x in pool
  }

  /** So the new tables are the frames that left the pool. */
  lemma {:induction false} DrawnFrames(keys0: set<nat>, pool0: seq<nat>, keys: set<nat>, pool: seq<nat>)
    requires Drawn(keys0, pool0, keys, pool)
    ensures |pool| <= |pool0| && pool == pool0[|pool0| - |pool|..]
    ensures keys == keys0 + Frames(pool0[..|pool0| - |pool|])
    decreases |pool0|
  {
    if |pool0| > |pool| {
      var n := |pool0| - |pool|;
      DrawnFrames(keys0 + {pool0[0]}, pool0[1..], keys, pool);
      assert pool0[..n] == [pool0[0]] + pool0[1..][..n - 1];
    }
  }

  lemma DrawnOne(keys: set<nat>, pool: seq<nat>)
    requires pool != []
    ensures Drawn(keys, pool, keys + {pool[0]}, pool[1..]) == true
  {
  }

  lemma HangKeys(T: Tables, t: nat, i: nat, e: nat, u: nat)
    requires t in T && i < |T[t]| && u == Frame(e)
    ensures Hang(T, t, i, e).Keys == T.Keys + {u}
  {
  }

  lemma {:induction false} DrawnOn(k0: set<nat>, f0: seq<nat>, k1: set<nat>, f1: seq<nat>, k2: set<nat>, f2: seq<nat>)
    requires Drawn(k0, f0, k1, f1) && Drawn(k1, f1, k2, f2)
    ensures Drawn(k0, f0, k2, f2) == true
    decreases |f0|
  {
    DrawnFrames(k1, f1, k2, f2);
    if |f0| > |f1| {
      DrawnOn(k0 + {f0[0]}, f0[1..], k1, f1, k2, f2);
    }
  }

  /** Tables are drawn from the pool, and every new entry is written for flags. */
  ghost predicate Grew(T0: Tables, f0: seq<nat>, T: Tables, p: map<nat, Place>, f: seq<nat>, flags: nat) {
    Drawn(T0.Keys, f0, T.Keys, f) && Added(T0, T, p, flags)
  }

  lemma GrewSame(T0: Tables, T: Tables, p: map<nat, Place>, f: seq<nat>, flags: nat)
    requires T.Keys == T0.Keys && Added(T0, T, p, flags)
    ensures Grew(T0, f, T, p, f, flags) == true
  {
  }

  lemma GrewNone(T: Tables, p: map<nat, Place>, root: nat, f: seq<nat>, flags: nat)
    requires Tree(T, p, root) == true
    ensures Grew(T, f, T, p, f, flags) == true
  {
    AddedNone(T, p, root, flags);
  }

  lemma GrewHang(T: Tables, p: map<nat, Place>, root: nat, t: nat, i: nat, f: seq<nat>, flags: nat)
    requires Tree(T, p, root) && t in T && i < 512 && p[t].level < 3 && T[t][i] == 0 && f != [] && f[0] !in T && f[0] < 0x10_0000_0000
    ensures var e := TableEntry(f[0] * 4096, flags); Grew(T, f, Hang(T, t, i, e), HangPlace(p, t, i, f[0]), f[1..], flags) == true
  {
    var e := TableEntry(f[0] * 4096, flags);
    TableEntryOk(f[0], flags);
    ModUnique(f[0] * 4096, 4096, f[0], 0);
    TableLimits(f[0] * 4096, flags);
    HangKeys(T, t, i, e, f[0]);
    DrawnOne(T.Keys, f);
    AddedHang(T, p, root, t, i, e, flags);
  }

  lemma GrewOn(T0: Tables, p0: map<nat, Place>, f0: seq<nat>, T1: Tables, p1: map<nat, Place>, f1: seq<nat>,
               T2: Tables, p2: map<nat, Place>, f2: seq<nat>, root: nat, flags: nat)
    requires Tree(T0, p0, root) && Tree(T1, p1, root) && Tree(T2, p2, root) && Extends(p1, p2)
    requires Grew(T0, f0, T1, p1, f1, flags) && Grew(T1, f1, T2, p2, f2, flags)
    ensures Grew(T0, f0, T2, p2, f2, flags) == true
  {
    DrawnOn(T0.Keys, f0, T1.Keys, f1, T2.Keys, f2);
    AddedOn(T0, p0, T1, p1, T2, p2, root, flags);
  }

  /** Pages from pp on whose addresses leave the bits above the address field alone. */
  predicate Physical(pp: nat, cnt: nat) {
    pp + cnt <= 0x70_0000_0000
  }

  lemma PagePermits(des: nat, pp: nat, flags: nat)
    requires (des == DES_PAGE || des == DES_BLOCK) && Physical(pp, 1)
    ensures Permits(LeafEntry(des, pp * 4096, flags), flags) == true
  {
    ModUnique(pp * 4096, 4096, pp, 0);
    LeafPermits(des, pp * 4096, flags);
  }

  // ---- 1 GB blocks ----

  /** map_pud_range would try a 1 GB block, were the entry null: its alignment test succeeds. */
  predicate GigChunk(vp: nat, pa: nat, size: nat, flags: nat) {
    Has(flags, VM_HUGE_1G) && vp % 0x4_0000 == 0 && pa % 0x4_0000 == 0 && size % 0x4_0000 == 0
  }

  /** The same for some chunk that map_pgd_range passes down. */
  predicate GigRange(vp: nat, pa: nat, size: nat, flags: nat) {
    Has(flags, VM_HUGE_1G) && vp % 0x4_0000 == 0 && pa % 0x4_0000 == 0 && (size % 0x4_0000 == 0 || size > 0x800_0000)
  }

  lemma Shift(x: nat, k: nat, u: nat)
    requires u > 0 && k % u == 0
    ensures (x + k) % u == x % u
  {
    DivMod(x, u);
    DivMod(k, u);
    assert u * (x / u + k / u) == u * (x / u) + u * (k / u);
    ModUnique(x + k, u, x / u + k / u, x % u);
  }

  // ---- What is left of a range ----

  /** After k pages, and at most need tables, the loop of map_pmd_range stands on a boundary. */
  predicate PmdLeft(vp: nat, k: nat, size: nat, need: nat) {
    need == PmdNeed(Span(vp, k)) && (0 < k < size ==> (vp + k) % 512 == 0)
  }

  lemma PmdAdvance(vp: nat, k: nat, size: nat, m: nat, need: nat) returns (more: nat)
    requires PmdLeft(vp, k, size, need) && k < size && m == PmdChunk(vp + k, size - k)
    ensures 0 < m <= size - k && PmdLeft(vp, k + m, size, more) == true
    ensures need + 1 == more <= PmdNeed(Span(vp, size))
  {
    PmdChunkFits(vp + k, size - k);
    PmdNeedStep(vp, k, m, size);
    more := PmdNeed(Span(vp, k + m));
  }

  lemma UnitBoundary(x: nat, j: nat, u: nat)
    requires u > 0
    ensures (x + u * j) % u == x % u && (x % u == 0 ==> (x + u * j) % u == 0)
  {
    ModUnique(u * j, u, j, 0);
    Shift(x, u * j, u);
  }

  predicate PudLeft(vp: nat, k: nat, j: nat, size: nat, need: nat) {
    need == PudNeed(Span(vp, k)) && (k == size || k == 0x4_0000 * j)
  }

  /** Chunk j of map_pud_range: below one entry, no 1 GB block, and the tables it can need. */
  lemma PudChunkAt(vp: nat, pa: nat, size: nat, flags: nat, j: nat, k: nat, m: nat)
    requires PudFits(vp, size) && !GigChunk(vp, pa, size, flags) && k == 0x4_0000 * j < size && m == UpperChunk(size - k, 0x4_0000)
    ensures 0 < m <= size - k && (k + m == size || k + m == 0x4_0000 * (j + 1)) && OneEntry(1, vp + k, m) && !GigChunk(vp + k, pa + k, size - k, flags)
    ensures (k > 0 ==> (vp + k) % 0x4_0000 == 0) && (vp + k) % 0x4_0000 + m <= 0x4_0000
  {
    UnitBoundary(vp, j, 0x4_0000);
    UnitBoundary(pa, j, 0x4_0000);
    UnitBoundary(size - k, j, 0x4_0000);
    PudChunkFits(vp + k, size - k);
  }

  lemma PudAdvance(vp: nat, pa: nat, size: nat, flags: nat, j: nat, k: nat, m: nat, next: nat, need: nat) returns (more: nat)
    requires PudFits(vp, size) && !GigChunk(vp, pa, size, flags)
    requires PudLeft(vp, k, j, size, need) && k < size && m == UpperChunk(size - k, 0x4_0000) && next == k + m
    ensures 0 < m <= size - k && OneEntry(1, vp + k, m) && GigChunk(vp + k, pa + k, size - k, flags) == false
    ensures need + 1 + PmdNeed(Span(vp + k, m)) == more <= PudNeed(Span(vp, size))
    ensures PudLeft(vp, next, j + 1, size, more) == true
  {
    PudChunkAt(vp, pa, size, flags, j, k, m);
    PudNeedStep(vp, k, m, size);
    more := PudNeed(Span(vp, next));
  }

  predicate PgdLeft(vp: nat, k: nat, j: nat, size: nat, need: nat) {
    need == PgdNeed(Span(vp, k)) && (k == size || k == 0x800_0000 * j)
  }

  /** Chunk j of map_pgd_range. */
  lemma PgdChunkAt(vp: nat, pa: nat, size: nat, flags: nat, j: nat, k: nat, m: nat)
    requires PgdFits(vp, size) == true && GigRange(vp, pa, size, flags) == false && k == 0x800_0000 * j < size && m == UpperChunk(size - k, 0x800_0000)
    ensures 0 < m <= size - k && (k + m == size || k + m == 0x800_0000 * (j + 1)) && OneEntry(0, vp + k, m) && PudFits(vp + k, m) == true && GigChunk(vp + k, pa + k, m, flags) == false
    ensures (k > 0 ==> (vp + k) % 0x800_0000 == 0) && (vp + k) % 0x800_0000 + m <= 0x800_0000
  {
    UnitBoundary(vp, j, 0x800_0000);
    PgdChunkFits(vp + k, size - k);
    GigRangeAt(vp, pa, size, flags, j, k, m);
  }

  lemma PgdAdvance(vp: nat, pa: nat, size: nat, flags: nat, j: nat, k: nat, m: nat, next: nat, need: nat) returns (more: nat)
    requires PgdFits(vp, size) == true && GigRange(vp, pa, size, flags) == false
    requires PgdLeft(vp, k, j, size, need) && k < size && m == UpperChunk(size - k, 0x800_0000) && next == k + m
    ensures 0 < m <= size - k && OneEntry(0, vp + k, m) && PudFits(vp + k, m) == true && GigChunk(vp + k, pa + k, m, flags) == false
    ensures need + 1 + PudNeed(Span(vp + k, m)) == more <= PgdNeed(Span(vp, size))
    ensures PgdLeft(vp, next, j + 1, size, more) == true
  {
    PgdChunkAt(vp, pa, size, flags, j, k, m);
    more := PgdMore(vp, size, j, k, m, next, need);
  }

  lemma PgdMore(vp: nat, size: nat, j: nat, k: nat, m: nat, next: nat, need: nat) returns (more: nat)
    requires need == PgdNeed(Span(vp, k)) && next == k + m <= size && (next == size || next == 0x800_0000 * (j + 1))
    requires 0 < m && (k > 0 ==> (vp + k) % 0x800_0000 == 0) && (vp + k) % 0x800_0000 + m <= 0x800_0000
    ensures need + 1 + PudNeed(Span(vp + k, m)) == more <= PgdNeed(Span(vp, size))
    ensures PgdLeft(vp, next, j + 1, size, more) == true
  {
    PgdNeedStep(vp, k, m, size);
    more := PgdNeed(Span(vp, next));
  }

  lemma GigRangeAt(vp: nat, pa: nat, size: nat, flags: nat, j: nat, k: nat, m: nat)
    requires !GigRange(vp, pa, size, flags) && k == 0x800_0000 * j < size && m == UpperChunk(size - k, 0x800_0000)
    ensures !GigChunk(vp + k, pa + k, m, flags)
  {
    assert k == 0x4_0000 * (512 * j);
    UnitBoundary(vp, 512 * j, 0x4_0000);
    UnitBoundary(pa, 512 * j, 0x4_0000);
  }

  // ---- A range, partly mapped ----

  /** From T0 on, k pages of the range have been mapped below table t and rest pages are to come. */
  ghost predicate Partial(T0: Tables, p0: map<nat, Place>, T: Tables, p: map<nat, Place>,
                          root: nat, l: nat, t: nat, vp: nat, pp: nat, k: nat, rest: nat) {
    && Tree(T0, p0, root) && t in T0 && p0[t].level == l && InTable(p0[t], vp, k + rest)
    && Did(T0, p0, T, p, root, l, t, vp, k) && Maps(T, l, t, vp, pp, k) && Unmapped(T, l, t, vp + k, rest)
  }

  lemma PartialStart(T: Tables, p: map<nat, Place>, root: nat, l: nat, t: nat, vp: nat, pp: nat, size: nat)
    requires Tree(T, p, root) == true && t in T && p[t].level == l && InTable(p[t], vp, size) && Unmapped(T, l, t, vp, size) == true
    ensures Partial(T, p, T, p, root, l, t, vp, pp, 0, size) == true
  {
    DidNothing(T, p, root, l, t, vp);
  }

  lemma RootStart(T: Tables, p: map<nat, Place>, root: nat, vp: nat, pp: nat, size: nat)
    requires Tree(T, p, root) && vp + size <= 0x10_0000_0000 && Unmapped(T, 0, root, vp, size)
    ensures Partial(T, p, T, p, root, 0, root, vp, pp, 0, size) == true
  {
    RootCovers(p[root], vp, size);
    PartialStart(T, p, root, 0, root, vp, pp, size);
  }

  lemma PartialChunk(T0: Tables, p0: map<nat, Place>, T: Tables, p: map<nat, Place>,
                     root: nat, l: nat, t: nat, vp: nat, pp: nat, k: nat, rest: nat, m: nat)
    requires Partial(T0, p0, T, p, root, l, t, vp, pp, k, rest) && m <= rest
    ensures t in T && p[t].level == l && InTable(p[t], vp + k, m) && Unmapped(T, l, t, vp + k, m)
  {
    PartTable(p0[t], vp, k + rest, k);
    Part(T, p0[t], l, t, vp + k, rest, m);
    assert t in p && p[t] == p0[t];
  }

  lemma PartialNext(T0: Tables, p0: map<nat, Place>, T1: Tables, p1: map<nat, Place>, T2: Tables, p2: map<nat, Place>,
                    root: nat, l: nat, t: nat, vp: nat, pp: nat, k: nat, rest: nat, m: nat)
    requires Partial(T0, p0, T1, p1, root, l, t, vp, pp, k, rest) && m <= rest
    requires Did(T1, p1, T2, p2, root, l, t, vp + k, m) && Maps(T2, l, t, vp + k, pp + k, m)
    ensures Partial(T0, p0, T2, p2, root, l, t, vp, pp, k + m, rest - m)
  {
    RangeRound(T0, p0, T1, p1, T2, p2, root, t, l, vp, pp, k, m, rest - m);
  }

  lemma PartialFail(T0: Tables, p0: map<nat, Place>, T1: Tables, p1: map<nat, Place>, T2: Tables, p2: map<nat, Place>,
                    root: nat, l: nat, t: nat, vp: nat, pp: nat, k: nat, rest: nat, m: nat)
    requires Partial(T0, p0, T1, p1, root, l, t, vp, pp, k, rest) && m <= rest
    requires Did(T1, p1, T2, p2, root, l, t, vp + k, m) && PartlyMaps(T2, l, t, vp + k, pp + k, m)
    ensures Did(T0, p0, T2, p2, root, l, t, vp, k + rest) && PartlyMaps(T2, l, t, vp, pp, k + rest)
  {
    FailMapped(T0, p0, T1, p1, T2, p2, root, t, l, vp, pp, k, m, rest - m);
  }

  lemma RootCovers(p: Place, vp: nat, cnt: nat)
    requires p.level == 0 && p.region == 0 && vp + cnt <= 0x10_0000_0000
    ensures InTable(p, vp, cnt)
  {
    forall n: nat | vp <= n < vp + cnt ensures Covers(p, n) {
      EntryNumbers(n);
    }
  }

  // ---- Byte addresses ----

  /** The virtual page of an address: no table index looks above bit 47. */
  function PageOf(va: nat): (n: nat)
    ensures n < 0x10_0000_0000
  {
    va % 0x1_0000_0000_0000 / 4096
  }

  /** Translation of a byte address from table t of level l; the root has level 0. */
  function Translate(T: Tables, l: nat, t: nat, va: nat): (r: Option<nat>) {
    match Look(T, l, t, PageOf(va))
    case None => None
    case Some(f) => Some(f * 4096 + va % 4096)
  }

  /** An index macro: bits above the 48 used ones do not matter. u is the pages per entry. */
  lemma IndexAt(va: nat, u: nat, w: nat)
    requires u > 0 && u * (512 * w) == 0x10_0000_0000
    ensures va / (4096 * u) % 512 == PageOf(va) / u % 512
  {
    var q, n, o := va / 0x1_0000_0000_0000, PageOf(va), va % 4096;
    var d, r := n / u, n % u;
    assert n == u * d + r;
    assert va == 4096 * (0x10_0000_0000 * q + n) + o;
    assert va / 4096 == u * (512 * w * q + d) + r by {
      assert u * (512 * w * q + d) == u * (512 * w) * q + u * d;
    }
    DivUnique(va / 4096, u, 512 * w * q + d, r);
    DivDiv(va, 4096, u);
    ModUnique(512 * w * q + d, 512, w * q + d / 512, d % 512);
  }

  /** The index macros of the four levels, on the whole 64-bit address. */
  lemma IndexOf(va: nat)
    ensures Index(va, 39) == Entry(0, PageOf(va)) % 512
    ensures Index(va, 30) == Entry(1, PageOf(va)) % 512
    ensures Index(va, 21) == Entry(2, PageOf(va)) % 512
    ensures Index(va, 12) == Entry(3, PageOf(va)) % 512
  {
    EntryNumbers(PageOf(va));
    ShiftSizes();
    IndexIs(va, 39, 0x80_0000_0000);
    IndexIs(va, 30, 0x4000_0000);
    IndexIs(va, 21, 0x20_0000);
    IndexIs(va, 12, 0x1000);
    IndexAt(va, 0x800_0000, 1);
    IndexAt(va, 0x4_0000, 512);
    IndexAt(va, 512, 0x4_0000);
    IndexAt(va, 1, 0x800_0000);
  }

  /** The same for the address of page n. */
  lemma IndexOfPage(n: nat)
    ensures Index(n * 4096, 39) == Entry(0, n) % 512
    ensures Index(n * 4096, 30) == Entry(1, n) % 512
    ensures Index(n * 4096, 21) == Entry(2, n) % 512
    ensures Index(n * 4096, 12) == Entry(3, n) % 512
  {
    EntryNumbers(n);
    ShiftSizes();
    IndexIs(n * 4096, 39, 0x80_0000_0000);
    IndexIs(n * 4096, 30, 0x4000_0000);
    IndexIs(n * 4096, 21, 0x20_0000);
    IndexIs(n * 4096, 12, 0x1000);
    PageQuot(n, 0x800_0000);
    PageQuot(n, 0x4_0000);
    PageQuot(n, 512);
    PageQuot(n, 1);
  }

  /** The shift that goes with each level. */
  predicate ShiftOf(l: nat, shift: nat) {
    (l == 0 && shift == 39) || (l == 1 && shift == 30) || (l == 2 && shift == 21) || (l == 3 && shift == 12)
  }

  method IndexFor(va: nat, shift: nat, ghost l: nat) returns (i: nat)
    requires ShiftOf(l, shift)
    ensures i < 512 && i == Entry(l, PageOf(va)) % 512
  {
    IndexOf(va);
    i := Index(va, shift);
  }

  method PageIndex(n: nat, shift: nat, ghost l: nat) returns (i: nat)
    requires ShiftOf(l, shift)
    ensures i < 512 && i == Entry(l, n) % 512
  {
    IndexOfPage(n);
    i := Index(n * 4096, shift);
  }

  lemma PageQuot(n: nat, u: nat)
    requires u > 0
    ensures n * 4096 / (4096 * u) == n / u
  {
    DivUnique(n * 4096, 4096, n, 0);
    DivDiv(n * 4096, 4096, u);
  }

  lemma PageAt(va: nat, x: nat)
    requires va % 4096 == 0 && va <= x && va % 0x1_0000_0000_0000 + (x - va) < 0x1_0000_0000_0000
    ensures PageOf(x) == PageOf(va) + (x - va) / 4096 && x % 4096 == (x - va) % 4096
  {
    var off := x - va;
    var q, r := va / 0x1_0000_0000_0000, va % 0x1_0000_0000_0000;
    DivUnique(x, 0x1_0000_0000_0000, q, r + off);
    var n := va / 4096;
    assert r == 4096 * (n - 0x10_0000_0000 * q);
    DivUnique(r + off, 4096, n - 0x10_0000_0000 * q + off / 4096, off % 4096);
    DivUnique(x, 4096, n + off / 4096, off % 4096);
  }

  lemma ByteTarget(pa: nat, off: nat)
    requires pa % 4096 == 0
    ensures (pa / 4096 + off / 4096) % 0x10_0000_0000 * 4096 + off % 4096 == (pa + off) % 0x1_0000_0000_0000
  {
    var n := pa / 4096 + off / 4096;
    var q, r := n / 0x10_0000_0000, n % 0x10_0000_0000;
    ModUnique(pa + off, 0x1_0000_0000_0000, q, r * 4096 + off % 4096);
  }

  /** Every byte of va.. is untranslated. */
  ghost predicate BytesUnmapped(T: Tables, l: nat, t: nat, va: nat, size: nat) {
    forall x: nat :: va <= x < va + size ==> Translate(T, l, t, x) == None
  }

  ghost predicate BytesMapped(T: Tables, l: nat, t: nat, va: nat, pa: nat, size: nat) {
    forall x: nat :: va <= x < va + size ==> Translate(T, l, t, x) == Some((pa + (x - va)) % 0x1_0000_0000_0000)
  }

  ghost predicate BytesPartly(T: Tables, l: nat, t: nat, va: nat, pa: nat, size: nat) {
    forall x: nat :: va <= x < va + size ==>
      Translate(T, l, t, x) == None || Translate(T, l, t, x) == Some((pa + (x - va)) % 0x1_0000_0000_0000)
  }

  /** Addresses outside va.., modulo the 48-bit space, translate as before. */
  ghost predicate BytesSame(T: Tables, T': Tables, l: nat, t: nat, va: nat, size: nat) {
    forall x: nat :: !(va % 0x1_0000_0000_0000 <= x % 0x1_0000_0000_0000 < va % 0x1_0000_0000_0000 + size) ==>
      Translate(T', l, t, x) == Translate(T, l, t, x)
  }

  /** Every byte of va.. that is translated is so by a descriptor with the rights of flags. */
  ghost predicate BytesPermit(T: Tables, l: nat, t: nat, va: nat, size: nat, flags: nat) {
    forall x: nat :: va <= x < va + size && Translate(T, l, t, x).Some? ==>
      LeafAt(T, l, t, PageOf(x)).Some? && Permits(LeafAt(T, l, t, PageOf(x)).value, flags)
  }

  /** Addresses outside va.. are translated by the same descriptors as before. */
  ghost predicate LeavesSame(T: Tables, T': Tables, l: nat, t: nat, va: nat, size: nat) {
    forall x: nat :: !(va % 0x1_0000_0000_0000 <= x % 0x1_0000_0000_0000 < va % 0x1_0000_0000_0000 + size) ==>
      LeafAt(T', l, t, PageOf(x)) == LeafAt(T, l, t, PageOf(x))
  }

  lemma NewPermit(T: Tables, p: map<nat, Place>, T': Tables, p': map<nat, Place>, root: nat, va: nat, size: nat, flags: nat)
    requires Tree(T, p, root) && Tree(T', p', root) && Extends(p, p') && Added(T, T', p', flags) && BytesUnmapped(T, 0, root, va, size)
    ensures BytesPermit(T', 0, root, va, size, flags) == true
  {
    forall x: nat | va <= x < va + size && Translate(T', 0, root, x).Some?
      ensures LeafAt(T', 0, root, PageOf(x)).Some? && Permits(LeafAt(T', 0, root, PageOf(x)).value, flags) == true
    {
      assert Translate(T, 0, root, x) == None;
      LeafLooks(T', 0, root, PageOf(x));
      LeafMade(T, p, T', p', root, flags, root, PageOf(x));
    }
  }

  lemma OldPermit(T: Tables, p: map<nat, Place>, T': Tables, p': map<nat, Place>, root: nat, va: nat, size: nat, flags: nat)
    requires Tree(T, p, root) && Tree(T', p', root) && Extends(p, p') && Added(T, T', p', flags) && BytesSame(T, T', 0, root, va, size)
    ensures LeavesSame(T, T', 0, root, va, size) == true
  {
    forall x: nat | !(va % 0x1_0000_0000_0000 <= x % 0x1_0000_0000_0000 < va % 0x1_0000_0000_0000 + size)
      ensures LeafAt(T', 0, root, PageOf(x)) == LeafAt(T, 0, root, PageOf(x))
    {
      assert Translate(T', 0, root, x) == Translate(T, 0, root, x);
      if Look(T, 0, root, PageOf(x)).Some? {
        LeafKept(T, p, T', p', root, flags, root, PageOf(x));
      } else {
        LeafLooks(T, 0, root, PageOf(x));
        LeafLooks(T', 0, root, PageOf(x));
      }
    }
  }

  /** The range va.. consists of whole pages and stays inside the 48-bit space. */
  predicate PageRange(va: nat, size: nat) {
    va % 4096 == 0 && size % 4096 == 0 && size > 0 && va % 0x1_0000_0000_0000 + size <= 0x1_0000_0000_0000
  }

  lemma PagesUnmapped(T: Tables, l: nat, t: nat, va: nat, size: nat)
    requires PageRange(va, size) == true && BytesUnmapped(T, l, t, va, size) == true
    ensures Unmapped(T, l, t, PageOf(va), size / 4096) == true
  {
    forall n: nat | PageOf(va) <= n < PageOf(va) + size / 4096 ensures Look(T, l, t, n) == None {
      var x := va + (n - PageOf(va)) * 4096;
      PageAt(va, x);
      assert Translate(T, l, t, x) == None;
    }
  }

  /** The page of an address in the range, and where it must go. */
  lemma ByteOfRange(va: nat, pa: nat, size: nat, x: nat)
    requires PageRange(va, size) && pa % 4096 == 0 && va <= x < va + size
    ensures PageOf(va) <= PageOf(x) < PageOf(va) + size / 4096
    ensures (pa / 4096 + (PageOf(x) - PageOf(va))) % 0x10_0000_0000 * 4096 + x % 4096 == (pa + (x - va)) % 0x1_0000_0000_0000
  {
    PageAt(va, x);
    ByteTarget(pa, x - va);
  }

  lemma BytesFromPages(T: Tables, l: nat, t: nat, va: nat, pa: nat, size: nat)
    requires PageRange(va, size) && pa % 4096 == 0 && Maps(T, l, t, PageOf(va), pa / 4096, size / 4096)
    ensures BytesMapped(T, l, t, va, pa, size)
  {
    forall x: nat | va <= x < va + size ensures Translate(T, l, t, x) == Some((pa + (x - va)) % 0x1_0000_0000_0000) {
      ByteFromPage(T, l, t, va, pa, size, x);
    }
  }

  lemma ByteFromPage(T: Tables, l: nat, t: nat, va: nat, pa: nat, size: nat, x: nat)
    requires PageRange(va, size) && pa % 4096 == 0 && Maps(T, l, t, PageOf(va), pa / 4096, size / 4096)
    requires va <= x < va + size
    ensures Translate(T, l, t, x) == Some((pa + (x - va)) % 0x1_0000_0000_0000)
  {
    ByteOfRange(va, pa, size, x);
    assert Look(T, l, t, PageOf(x)) == Some((pa / 4096 + (PageOf(x) - PageOf(va))) % 0x10_0000_0000);
  }

  lemma PartlyFromPages(T: Tables, l: nat, t: nat, va: nat, pa: nat, size: nat)
    requires PageRange(va, size) && pa % 4096 == 0 && PartlyMaps(T, l, t, PageOf(va), pa / 4096, size / 4096)
    ensures BytesPartly(T, l, t, va, pa, size)
  {
    forall x: nat | va <= x < va + size
      ensures Translate(T, l, t, x) == None || Translate(T, l, t, x) == Some((pa + (x - va)) % 0x1_0000_0000_0000)
    {
      PartlyFromPage(T, l, t, va, pa, size, x);
    }
  }

  lemma PartlyFromPage(T: Tables, l: nat, t: nat, va: nat, pa: nat, size: nat, x: nat)
    requires PageRange(va, size) && pa % 4096 == 0 && PartlyMaps(T, l, t, PageOf(va), pa / 4096, size / 4096)
    requires va <= x < va + size
    ensures Translate(T, l, t, x) == None || Translate(T, l, t, x) == Some((pa + (x - va)) % 0x1_0000_0000_0000)
  {
    ByteOfRange(va, pa, size, x);
    assert Look(T, l, t, PageOf(x)) == None ||
      Look(T, l, t, PageOf(x)) == Some((pa / 4096 + (PageOf(x) - PageOf(va))) % 0x10_0000_0000);
  }

  lemma OutsideBytes(T: Tables, places: map<nat, Place>, T': Tables, l: nat, t: nat, va: nat, size: nat)
    requires t in T && t in places && places[t].level == l && InTable(places[t], 0, 0x10_0000_0000)
    requires PageRange(va, size) && SameOutside(T, T', places, PageOf(va), size / 4096)
    ensures BytesSame(T, T', l, t, va, size)
  {
    forall x: nat | !(va % 0x1_0000_0000_0000 <= x % 0x1_0000_0000_0000 < va % 0x1_0000_0000_0000 + size)
      ensures Translate(T', l, t, x) == Translate(T, l, t, x)
    {
      PageBounds(va, size, x);
      assert Covers(places[t], PageOf(x));
    }
  }

  lemma PageBounds(va: nat, size: nat, x: nat)
    requires PageRange(va, size)
    ensures PageOf(va) <= PageOf(x) < PageOf(va) + size / 4096 ==>
      va % 0x1_0000_0000_0000 <= x % 0x1_0000_0000_0000 < va % 0x1_0000_0000_0000 + size
  {
    PageAligned48(va);
  }

  lemma PageAligned48(va: nat)
    requires va % 4096 == 0
    ensures va % 0x1_0000_0000_0000 == 4096 * PageOf(va)
  {
    PageLow48(va);
  }

  lemma InPages(va: nat, pa: nat, size: nat)
    requires PageRange(va, size) == true && pa < 0x1_0000_0000_0000
    ensures size / 4096 > 0 && PageOf(va) + size / 4096 <= 0x10_0000_0000 && Physical(pa / 4096, size / 4096)
  {
    PageAligned48(va);
  }

  // ---- Walking ----

  /** The level whose entry maps page n: 3 for a page, less for a block. */
  function LeafLevel(T: Tables, l: nat, t: nat, n: nat): (d: nat)
    decreases 3 - l, n
  {
    if l >= 3 || t !in T || |T[t]| != 512 || !IsTable(T[t][Entry(l, n) % 512]) then l
    else LeafLevel(T, l + 1, Frame(T[t][Entry(l, n) % 512]), n)
  }

  lemma WalkStep(T: Tables, l: nat, t: nat, n: nat)
    requires l < 3 && Look(T, l, t, n).Some?
    ensures t in T && |T[t]| == 512
    ensures var e := T[t][Entry(l, n) % 512];
      && IsValid(e)
      && (if IsTable(e) then
            Look(T, l + 1, Frame(e), n) == Look(T, l, t, n) && LeafLevel(T, l + 1, Frame(e), n) == LeafLevel(T, l, t, n)
          else l > 0 && LeafLevel(T, l, t, n) == l && Look(T, l, t, n) == Some(BlockFrame(e, l) + n % Pages(l)))
  {
  }

  lemma WalkLast(T: Tables, l: nat, t: nat, n: nat)
    requires l == 3 && Look(T, l, t, n).Some?
    ensures t in T && |T[t]| == 512 && LeafLevel(T, l, t, n) == 3
    ensures var e := T[t][n % 512]; IsValid(e) && Look(T, l, t, n) == Some(Frame(e))
  {
    assert Entry(l, n) == n;
  }

  /** The offset of an address in a block of u pages. */
  lemma BlockOffset(va: nat, u: nat, w: nat)
    requires u > 0 && u * w == 0x10_0000_0000
    ensures PageOf(va) % u * 4096 + va % 4096 == va % (4096 * u)
  {
    var q, n, o := va / 0x1_0000_0000_0000, PageOf(va), va % 4096;
    var d, r := n / u, n % u;
    assert n == u * d + r;
    assert va == 4096 * (0x10_0000_0000 * q + n) + o;
    assert va == 4096 * u * (w * q + d) + (r * 4096 + o) by {
      assert 4096 * u * (w * q + d) == 4096 * (u * w * q) + 4096 * (u * d) by {
        assert u * (w * q + d) == u * (w * q) + u * d;
        assert u * (w * q) == u * w * q;
      }
    }
    assert r * 4096 + o < 4096 * u;
    ModUnique(va, 4096 * u, w * q + d, r * 4096 + o);
  }

  /** Sign extension keeps what is a multiple of size, a divisor of 2^32. */
  lemma SignAligned(x: nat, size: nat, m: nat)
    requires size > 0 && m > 0 && size * m == 0x1_0000_0000 && x % size == 0
    ensures SignExtended(x) % size == 0
  {
    var q, r, z := x / 0x1_0000_0000, x % 0x1_0000_0000, x / size;
    DivMod(x, size);
    assert r == size * (z - m * q) by { assert size * (z - m * q) == size * z - size * m * q; }
    ModUnique(r, size, z - m * q, 0);
    assert r + 0xffff_ffff_0000_0000 == size * (z - m * q + m * 0xffff_ffff) by {
      assert size * (z - m * q + m * 0xffff_ffff) == size * (z - m * q) + size * m * 0xffff_ffff;
    }
    ModUnique(r + 0xffff_ffff_0000_0000, size, z - m * q + m * 0xffff_ffff, 0);
  }

  /** The base b of a block, as the walk reads it, is the translation of offset off only at its start. */
  lemma BlockExactly(b: nat, off: nat, size: nat, m: nat)
    requires size > 0 && m > 0 && size * m == 0x1_0000_0000 && b % size == 0 && off < size && b < 0x1_0000_0000_0000
    ensures SignExtended(b) == b + off <==> off == 0 && b + off < 0x8000_0000
  {
    SignExtendedExactly(b);
    SignAligned(b, size, m);
    DivMod(b, size);
    ModUnique(b + off, size, b / size, off);
  }

  lemma BlockWalked(va: nat, e: nat, d: nat, u: nat, w: nat, m: nat)
    requires u > 0 && u == Pages(d) && u * w == 0x10_0000_0000 && m > 0 && 4096 * u * m == 0x1_0000_0000 && BaseOk(e, u)
    ensures var out := (BlockFrame(e, d) + PageOf(va) % Pages(d)) * 4096 + va % 4096;
      && OutAddr(e, 4096 * u) == out - va % (4096 * u)
      && (BlockAddr(e, 4096 * u) == out <==> va % (4096 * u) == 0 && out < 0x8000_0000)
  {
    BlockOffset(va, u, w);
    BlockExactly(OutAddr(e, 4096 * u), va % (4096 * u), 4096 * u, m);
  }

  /** The address field of a block of u pages is a multiple of its size. */
  predicate BaseOk(e: nat, u: nat)
    requires u > 0
  {
    var b := OutAddr(e, 4096 * u);
    b < 0x1_0000_0000_0000 && b % (4096 * u) == 0 && b / 4096 * 4096 == b
  }

  lemma Base1G(e: nat)
    ensures BaseOk(e, 0x4_0000)
  {
    var q := e % 0x1_0000_0000_0000 / 0x4000_0000;
    DivUnique(q * 0x4000_0000, 0x4000_0000, q, 0);
    DivUnique(q * 0x4000_0000, 4096, q * 0x4_0000, 0);
  }

  lemma Base2M(e: nat)
    ensures BaseOk(e, 512)
  {
    var q := e % 0x1_0000_0000_0000 / 0x20_0000;
    DivUnique(q * 0x20_0000, 0x20_0000, q, 0);
    DivUnique(q * 0x20_0000, 4096, q * 512, 0);
  }

  lemma FrameAddr(e: nat)
    ensures OutAddr(e, 4096) == Frame(e) * 4096
  {
    var q := e % 0x1_0000_0000_0000 / 4096;
    DivUnique(q * 4096, 4096, q, 0);
  }

  /** 36 bits of an address, by frame and offset. */
  lemma Low36(f: nat, o: nat)
    requires o < 4096
    ensures f * 4096 % 0x10_0000_0000 % 4096 == 0
    ensures f * 4096 % 0x10_0000_0000 + o == (f * 4096 + o) % 0x10_0000_0000
  {
    var q, r := f / 0x100_0000, f % 0x100_0000;
    DivMod(f, 0x100_0000);
    ModUnique(f * 4096, 0x10_0000_0000, q, r * 4096);
    ModUnique(f * 4096 + o, 0x10_0000_0000, q, r * 4096 + o);
    ModUnique(r * 4096, 4096, r, 0);
  }

  lemma PageWalked(va: nat, e: nat)
    ensures BitOr(PageAddr(e), va % 4096) == (Frame(e) * 4096 + va % 4096) % 0x10_0000_0000
  {
    FrameAddr(e);
    Low36(Frame(e), va % 4096);
    OrPage(PageAddr(e), va % 4096);
  }

  /** pa is what the walk from table t of level l makes of the translation of va; d is the level of the
      entry that maps it, out the translation. */
  ghost predicate Walked(T: Tables, l: nat, t: nat, va: nat, pa: nat) {
    Look(T, l, t, PageOf(va)).Some? &&
    var d, out := LeafLevel(T, l, t, PageOf(va)), Look(T, l, t, PageOf(va)).value * 4096 + va % 4096;
    && (d == 3 || d == 2 || d == 1)
    && pa == (if d == 3 then out % 0x10_0000_0000 else SignExtended(out - va % (4096 * Pages(d))))
    && (pa == out <==> if d == 3 then out < 0x10_0000_0000 else va % (4096 * Pages(d)) == 0 && out < 0x8000_0000)
  }

  /** The walk ends at a page, */
  lemma WalkPage(T: Tables, l: nat, t: nat, va: nat)
    requires l == 3 && Look(T, l, t, PageOf(va)).Some?
    ensures t in T && |T[t]| == 512
    ensures Walked(T, l, t, va, BitOr(PageAddr(T[t][Entry(l, PageOf(va)) % 512]), va % 4096)) == true
  {
    WalkLast(T, l, t, PageOf(va));
    var e := T[t][PageOf(va) % 512];
    assert Entry(l, PageOf(va)) == PageOf(va);
    PageWalked(va, e);
    PageAnswer(T, l, t, va, e, BitOr(PageAddr(e), va % 4096), Frame(e) * 4096 + va % 4096);
  }

  lemma PageAnswer(T: Tables, l: nat, t: nat, va: nat, e: nat, pa: nat, out: nat)
    requires Look(T, l, t, PageOf(va)) == Some(Frame(e)) && LeafLevel(T, l, t, PageOf(va)) == 3
    requires out == Frame(e) * 4096 + va % 4096 && pa == out % 0x10_0000_0000
    ensures Walked(T, l, t, va, pa) == true
  {
    if out < 0x10_0000_0000 { ModUnique(out, 0x10_0000_0000, 0, out); }
  }

  /** at a block of size bytes, */
  lemma WalkBlock(T: Tables, l: nat, t: nat, va: nat, size: nat)
    requires (l == 1 && size == 0x4000_0000) || (l == 2 && size == 0x20_0000)
    requires Look(T, l, t, PageOf(va)).Some?
    ensures t in T && |T[t]| == 512
    ensures var e := T[t][Entry(l, PageOf(va)) % 512]; !IsTable(e) ==> Walked(T, l, t, va, BlockAddr(e, size)) == true
  {
    WalkStep(T, l, t, PageOf(va));
    PagesOf();
    var e := T[t][Entry(l, PageOf(va)) % 512];
    if l == 1 {
      Base1G(e);
      BlockWalked(va, e, 1, 0x4_0000, 0x4_0000, 4);
    } else {
      Base2M(e);
      BlockWalked(va, e, 2, 512, 0x800_0000, 0x800);
    }
  }

  /** or goes on in the table an entry names. */
  lemma WalkDown(T: Tables, l: nat, t: nat, va: nat, pa: nat)
    requires l < 3 && Look(T, l, t, PageOf(va)).Some?
    ensures t in T && |T[t]| == 512
    ensures var e := T[t][Entry(l, PageOf(va)) % 512];
      && IsValid(e) && (l == 0 ==> IsTable(e))
      && (IsTable(e) ==> Look(T, l + 1, Frame(e), PageOf(va)).Some?)
      && (IsTable(e) && Walked(T, l + 1, Frame(e), va, pa) ==> Walked(T, l, t, va, pa) == true)
  {
    WalkStep(T, l, t, PageOf(va));
  }

  lemma PagesOf()
    ensures Pages(3) == 1 && Pages(2) == 512 && Pages(1) == 0x4_0000
  {
    assert Pages(3) == 1;
    assert Pages(2) == 512;
  }

  /** A round through a child table, with all it promises. */
  lemma EntryDone(T0: Tables, p0: map<nat, Place>, f0: seq<nat>, T1: Tables, p1: map<nat, Place>, f1: seq<nat>,
                  T2: Tables, p2: map<nat, Place>, f2: seq<nat>, root: nat, l: nat, t: nat, c: nat, vp: nat, pp: nat, cnt: nat, flags: nat, ok: bool)
    requires Tree(T0, p0, root) && t in T0 && p0[t].level == l < 3 && cnt > 0 && InTable(p0[t], vp, cnt) && OneEntry(l, vp, cnt)
    requires Did(T0, p0, T1, p1, root, l, t, vp, 0) && NamesTable(T1, t, Entry(l, vp) % 512, c)
    requires Did(T1, p1, T2, p2, root, l + 1, c, vp, cnt)
    requires if ok then Maps(T2, l + 1, c, vp, pp, cnt) else PartlyMaps(T2, l + 1, c, vp, pp, cnt)
    requires Grew(T0, f0, T1, p1, f1, flags) && Grew(T1, f1, T2, p2, f2, flags)
    ensures Did(T0, p0, T2, p2, root, l, t, vp, cnt) == true && Grew(T0, f0, T2, p2, f2, flags) == true
    ensures if ok then Maps(T2, l, t, vp, pp, cnt) == true else PartlyMaps(T2, l, t, vp, pp, cnt) == true
  {
    GrewOn(T0, p0, f0, T1, p1, f1, T2, p2, f2, root, flags);
    EntryRound(T0, p0, T1, p1, T2, p2, root, l, t, c, vp, pp, cnt);
  }

  // ---- Where map_pmd_range maps blocks ----

  /** Page n of the range lies in a 2 MB unit of which a block can be made: the flag is set, the unit lies in the range,
      the frames are aligned with the pages, and the range ends on a boundary. */
  predicate Blockable(base: nat, pa: nat, size: nat, flags: nat, n: nat) {
    Bit(flags, 9) && base <= n / 512 * 512 && (pa + (n - base)) % 512 == n % 512 && (base + size) % 512 == 0
  }

  /** The entry of page n is a block, exactly if one can be made and there was no table. */
  ghost predicate GrainAt(row0: seq<nat>, row: seq<nat>, base: nat, pa: nat, size: nat, flags: nat, n: nat)
    requires |row0| == |row| == 512 && base <= n
  {
    IsTable(row[n / 512 % 512]) <==> !(Blockable(base, pa, size, flags, n) && row0[n / 512 % 512] == 0)
  }

  /** So it is for the first k pages of the range, and no other entry of the table has changed. */
  ghost predicate Grains(row0: seq<nat>, row: seq<nat>, base: nat, pa: nat, size: nat, k: nat, flags: nat) {
    && |row0| == |row| == 512
    && (forall n: nat :: base <= n < base + k ==> GrainAt(row0, row, base, pa, size, flags, n))
    && (forall j: nat :: j < 512 ==> KeptAt(row0, row, base, k, j))
  }

  ghost predicate KeptAt(row0: seq<nat>, row: seq<nat>, base: nat, k: nat, j: nat)
    requires |row0| == |row| == 512 && j < 512
  {
    row[j] != row0[j] ==> Reached(base, k, j)
  }

  ghost predicate Reached(base: nat, k: nat, j: nat) {
    exists n: nat :: base <= n < base + k && n / 512 % 512 == j
  }

  /** Only entry i has changed. */
  ghost predicate OneSlot(row0: seq<nat>, row: seq<nat>, i: nat) {
    |row0| == |row| == 512 && i < 512 && forall j :: 0 <= j < 512 && j != i ==> row[j] == row0[j]
  }

  /** What decides over a chunk from page b on, with rem pages to go. */
  predicate HugeNow(b: nat, p: nat, rem: nat, flags: nat) {
    Bit(flags, 9) && b % 512 == 0 && p % 512 == 0 && rem % 512 == 0
  }

  lemma HugeIs(base: nat, pa: nat, size: nat, k: nat, flags: nat, n: nat)
    requires k < size && base + k <= n && n / 512 == (base + k) / 512 && (k > 0 ==> (base + k) % 512 == 0)
    ensures HugeNow(base + k, pa + k, size - k, flags) <==> Blockable(base, pa, size, flags, n)
  {
    var b, d := base + k, n - (base + k);
    if b % 512 == 0 {
      assert n % 512 == d && n / 512 * 512 == b;
      Align512(pa + k, d);
      Align512(base + k, size - k);
    } else {
      assert k == 0 && n / 512 * 512 < base;
    }
  }

  lemma Align512(x: nat, d: nat)
    ensures x % 512 == 0 && d < 512 ==> (x + d) % 512 == d
    ensures d < 512 && (x + d) % 512 == d ==> x % 512 == 0
    ensures x % 512 == 0 ==> ((x + d) % 512 == 0 <==> d % 512 == 0)
  {
  }

  /** Entries of one table stand for different units. */
  lemma NotReached(base: nat, k: nat, b: nat)
    requires b == base + k && (k > 0 ==> b % 512 == 0) && base / 0x4_0000 == b / 0x4_0000
    ensures !Reached(base, k, b / 512 % 512)
  {
    forall n: nat | base <= n < base + k ensures n / 512 % 512 != b / 512 % 512 {
      assert n / 512 < b / 512;
      assert n / 0x4_0000 == b / 0x4_0000;
      assert n / 512 / 512 == b / 512 / 512 by { DivDiv(n, 512, 512); DivDiv(b, 512, 512); }
    }
  }

  /** What one round of map_pmd_range leaves in its table. */
  ghost predicate SlotDone(row1: seq<nat>, row2: seq<nat>, base: nat, pa: nat, size: nat, flags: nat, ok: bool) {
    var i := base / 512 % 512;
    && OneSlot(row1, row2, i)
    && (ok ==> (IsTable(row2[i]) <==> !(HugeNow(base, pa, size, flags) && row1[i] == 0)))
  }

  lemma GrainsNext(row0: seq<nat>, row1: seq<nat>, row2: seq<nat>, base: nat, pa: nat, size: nat, k: nat, m: nat, flags: nat)
    requires Grains(row0, row1, base, pa, size, k, flags) && k < size && (k > 0 ==> (base + k) % 512 == 0)
    requires 0 < m && (base + k) % 512 + m <= 512 && base / 0x4_0000 == (base + k) / 0x4_0000
    requires SlotDone(row1, row2, base + k, pa + k, size - k, flags, true)
    ensures Grains(row0, row2, base, pa, size, k + m, flags) == true
  {
    var b, next := base + k, k + m;
    var i := b / 512 % 512;
    NotReached(base, k, b);
    assert KeptAt(row0, row1, base, k, i);
    forall n: nat | base <= n < base + next ensures GrainAt(row0, row2, base, pa, size, flags, n) {
      if n < b {
        assert GrainAt(row0, row1, base, pa, size, flags, n) && Reached(base, k, n / 512 % 512);
      } else {
        assert n / 512 == b / 512;
        HugeIs(base, pa, size, k, flags, n);
      }
    }
    forall j: nat | j < 512 ensures KeptAt(row0, row2, base, next, j) {
      if j == i {
        assert b / 512 % 512 == j;
      } else {
        assert KeptAt(row0, row1, base, k, j);
      }
    }
  }

  lemma HugeFlag(flags: nat)
    ensures Has(flags, VM_HUGE_2M) <==> Bit(flags, 9)
  {
    assert Pow2(9) == 0x200;
    HasBit(flags, 9, 0x200);
  }

  lemma SameUnit(p: Place, base: nat, size: nat, k: nat, need: nat)
    requires p.level == 2 && InTable(p, base, size) && k < size && PmdLeft(base, k, size, need)
    ensures base / 0x4_0000 == (base + k) / 0x4_0000
    ensures k > 0 ==> (base + k) % 512 == 0
    ensures (base + k) % 512 + PmdChunk(base + k, size - k) <= 512
  {
    EntryNumbers(base);
    EntryNumbers(base + k);
    DivDiv(base, 512, 512);
    DivDiv(base + k, 512, 512);
    assert Covers(p, base) && Covers(p, base + k);
    PmdChunkFits(base + k, size - k);
  }

  /** A round of map_pmd_range takes the grains on. */
  lemma GrainsRound(p: Place, row0: seq<nat>, row1: seq<nat>, row2: seq<nat>, base: nat, pa: nat, size: nat, k: nat, m: nat, flags: nat, need: nat)
    requires p.level == 2 && InTable(p, base, size) && k < size && PmdLeft(base, k, size, need) && 0 < m == PmdChunk(base + k, size - k)
    requires Grains(row0, row1, base, pa, size, k, flags) == true
    requires SlotDone(row1, row2, base + k, pa + k, size - k, flags, true) == true
    ensures Grains(row0, row2, base, pa, size, k + m, flags) == true
  {
    SameUnit(p, base, size, k, need);
    GrainsNext(row0, row1, row2, base, pa, size, k, m, flags);
  }

  lemma GrainsNone(row: seq<nat>, base: nat, pa: nat, size: nat, flags: nat)
    requires |row| == 512
    ensures Grains(row, row, base, pa, size, 0, flags) == true
  {
  }

  /** From pages to bytes. */
  lemma MapDone(T0: Tables, p0: map<nat, Place>, f0: seq<nat>, T: Tables, p: map<nat, Place>, f: seq<nat>, root: nat, va: nat, pa: nat, size: nat, flags: nat, ok: bool)
    requires Tree(T0, p0, root) == true && PageRange(va, size) == true && pa % 4096 == 0
    requires BytesUnmapped(T0, 0, root, va, size) == true && Grew(T0, f0, T, p, f, flags) == true
    requires Did(T0, p0, T, p, root, 0, root, PageOf(va), size / 4096) == true
    requires if ok then Maps(T, 0, root, PageOf(va), pa / 4096, size / 4096) == true
      else PartlyMaps(T, 0, root, PageOf(va), pa / 4096, size / 4096) == true
    ensures if ok then BytesMapped(T, 0, root, va, pa, size) == true else BytesPartly(T, 0, root, va, pa, size) == true
    ensures BytesSame(T0, T, 0, root, va, size) == true && LeavesSame(T0, T, 0, root, va, size) == true
    ensures BytesPermit(T, 0, root, va, size, flags) == true && Extends(p0, p) == true && Added(T0, T, p, flags) == true
    ensures |f| <= |f0| && f == f0[|f0| - |f|..] && T.Keys == T0.Keys + Frames(f0[..|f0| - |f|])
  {
    if ok {
      BytesFromPages(T, 0, root, va, pa, size);
    } else {
      PartlyFromPages(T, 0, root, va, pa, size);
    }
    RootCovers(p0[root], 0, 0x10_0000_0000);
    OutsideBytes(T0, p0, T, 0, root, va, size);
    NewPermit(T0, p0, T, p, root, va, size, flags);
    OldPermit(T0, p0, T, p, root, va, size, flags);
    DrawnFrames(T0.Keys, f0, T.Keys, f);
  }

  class PageMemory {
    const root: nat
    var tables: Tables
    var pool: seq<nat>              // free frames, as page_alloc hands them out
    ghost var places: map<nat, Place>

    ghost predicate Valid()
      reads this
    {
      && Tree(tables, places, root)
      && (forall k :: 0 <= k < |pool| ==> pool[k] !in tables && pool[k] < 0x10_0000_0000)
      && (forall j, k :: 0 <= j < k < |pool| ==> pool[j] != pool[k])
    }

    constructor (r: nat, frames: seq<nat>)
      requires r < 0x10_0000_0000 && r !in frames
      requires forall k :: 0 <= k < |frames| ==> frames[k] < 0x10_0000_0000
      requires forall j, k :: 0 <= j < k < |frames| ==> frames[j] != frames[k]
      ensures Valid() && root == r && pool == frames && Unmapped(tables, 0, r, 0, 0x10_0000_0000)
    {
      root, tables, pool := r, map[r := Zeros()], frames;
      places := map[r := Place(0, 0, r)];
    }

    /** The table that entry i of t names; a new empty one if the entry is null and a frame is free. */
    method ChildTable(t: nat, i: nat, flags: nat, ghost vp: nat) returns (c: Option<nat>)
      requires Valid() && t in tables && places[t].level < 3 && i < 512
      requires tables[t][i] == 0 || (IsValid(tables[t][i]) && IsTable(tables[t][i]))
      modifies this
      ensures Valid() == true && Did(old(tables), old(places), tables, places, root, old(places)[t].level, t, vp, 0) == true
      ensures c.Some? ==> NamesTable(tables, t, i, c.value)
      ensures c.None? <==> old(tables[t][i]) == 0 && old(pool) == []
      ensures c.None? ==> tables == old(tables) && places == old(places)
      ensures pool == (if old(tables[t][i]) == 0 && c.Some? then old(pool)[1..] else old(pool))
      ensures old(tables[t][i]) == 0 && c.Some? ==> c.value == old(pool)[0]
      ensures t in tables && OneSlot(old(tables[t]), tables[t], i) == true
      ensures Grew(old(tables), old(pool), tables, places, pool, flags) == true
    {
      GrewNone(tables, places, root, pool, flags);
      if tables[t][i] != 0 {
        DidNothing(tables, places, root, places[t].level, t, vp);
        return Some(Frame(tables[t][i]));
      }
      if pool == [] {
        DidNothing(tables, places, root, places[t].level, t, vp);
        return None;
      }
      var u := pool[0];
      TableEntryOk(u, flags);
      var e := TableEntry(u * 4096, flags);
      DidHang(tables, places, root, t, i, e, vp);
      GrewHang(tables, places, root, t, i, pool, flags);
      places := HangPlace(places, t, i, u);
      tables := Hang(tables, t, i, e);
      pool := pool[1..];
      c := Some(u);
    }

    /** map_pt_range: one entry per page. */
    method MapPtRange(t: nat, base: nat, end: nat, phy: nat, flags: nat)
      requires Valid() && t in tables && places[t].level == 3 && base < end && InTable(places[t], base, end - base)
      requires Unmapped(tables, 3, t, base, end - base) && Physical(phy, end - base)
      modifies this`tables
      ensures Valid() && tables.Keys == old(tables.Keys) && Added(old(tables), tables, places, flags) == true
      ensures Did(old(tables), places, tables, places, root, 3, t, base, end - base)
      ensures Maps(tables, 3, t, base, phy, end - base)
    {
      ghost var T0 := tables;
      var k := 0;
      DidNothing(T0, places, root, 3, t, base);
      AddedNone(T0, places, root, flags);
      while base + k != end
        invariant k <= end - base && tables.Keys == T0.Keys && Added(T0, tables, places, flags) == true
        invariant Did(T0, places, tables, places, root, 3, t, base, k)
        invariant Maps(tables, 3, t, base, phy, k) && Unmapped(tables, 3, t, base + k, end - base - k)
        decreases end - base - k
      {
        ghost var T1 := tables;
        PartTable(places[t], base, end - base, k);
        Part(T1, places[t], 3, t, base + k, end - base - k, 1);
        NullSlot(T1, places, root, t, base + k);
        var i := PageIndex(base + k, 12, 3);
        EntryNumbers(base + k);
        assert tables[t][i] == 0;
        tables := Write(tables, t, i, LeafEntry(DES_PAGE, (phy + k) * 4096, flags));
        PageRound(T0, T1, tables, places, root, t, base, phy, k, end - base - k - 1, flags);
        AddedPage(T0, T1, tables, places, root, t, i, phy + k, flags);
        k := k + 1;
      }
    }

    /** One chunk of pages through a bottom table. */
    method MapPmdPages(t: nat, base: nat, pa: nat, m: nat, flags: nat) returns (ok: bool)
      requires Valid() && t in tables && places[t].level == 2 && m > 0 && OneEntry(2, base, m)
      requires InTable(places[t], base, m) && Unmapped(tables, 2, t, base, m) && Physical(pa, m)
      modifies this
      ensures Valid() == true && Did(old(tables), old(places), tables, places, root, 2, t, base, m) == true
      ensures if ok then Maps(tables, 2, t, base, pa, m) == true else Unmapped(tables, 2, t, base, m) == true
      ensures Took(old(pool), pool, ok, 1)
      ensures Grew(old(tables), old(pool), tables, places, pool, flags) == true
      ensures t in tables && OneSlot(old(tables[t]), tables[t], base / 512 % 512) == true && (ok ==> IsTable(tables[t][base / 512 % 512]))
    {
      ghost var T0, p0, f0 := tables, places, pool;
      EntryNumbers(base);
      TableOrNull(tables, places, root, t, base);
      var i := PageIndex(base, 21, 2);
      var c := ChildTable(t, i, flags, base);
      if c.None? {
        DidWiden(T0, p0, tables, places, root, 2, t, base, 0, m);
        return false;
      }
      ghost var T1, p1, f1 := tables, places, pool;
      BelowChild(T0, p0, T1, p1, root, t, c.value, base, m);
      MapPtRange(c.value, base, base + m, pa, flags);
      GrewSame(T1, tables, places, pool, flags);
      EntryDone(T0, p0, f0, T1, p1, f1, tables, places, pool, root, 2, t, c.value, base, pa, m, flags, true);
      ok := true;
    }

    method MapPmdBlock(t: nat, base: nat, pa: nat, flags: nat)
      requires Valid() && t in tables && places[t].level == 2 && Covers(places[t], base)
      requires base % 512 == 0 && pa % 512 == 0 && Physical(pa, 512) && tables[t][base / 512 % 512] == 0
      modifies this`tables
      ensures Valid() && tables.Keys == old(tables.Keys) && Added(old(tables), tables, places, flags) == true
      ensures Did(old(tables), places, tables, places, root, 2, t, base, 512)
      ensures Maps(tables, 2, t, base, pa, 512)
      ensures t in tables && OneSlot(old(tables[t]), tables[t], base / 512 % 512) == true && !IsTable(tables[t][base / 512 % 512])
    {
      BlockEntryOk(pa, flags);
      BlockStep(tables, places, root, t, base, pa, flags);
      var i := PageIndex(base, 21, 2);
      EntryNumbers(base);
      AddedBlock(tables, places, root, t, i, pa, flags);
      tables := Write(tables, t, i, LeafEntry(DES_BLOCK, pa * 4096, flags));
    }

    /** One round of map_pmd_range: a block if flags and alignment allow, else pages. */
    method MapPmdEntry(t: nat, base: nat, pa: nat, m: nat, size: nat, flags: nat) returns (ok: bool)
      requires Valid() && t in tables && places[t].level == 2 && size > 0 && m == PmdChunk(base, size)
      requires InTable(places[t], base, m) && Unmapped(tables, 2, t, base, m) && Physical(pa, m)
      modifies this
      ensures Valid() == true && Did(old(tables), old(places), tables, places, root, 2, t, base, m) == true
      ensures if ok then Maps(tables, 2, t, base, pa, m) == true else Unmapped(tables, 2, t, base, m) == true
      ensures Took(old(pool), pool, ok, 1)
      ensures Grew(old(tables), old(pool), tables, places, pool, flags) == true
      ensures t in tables && SlotDone(old(tables[t]), tables[t], base, pa, size, flags, ok) == true
    {
      HugeFlag(flags);
      EntryNumbers(base);
      var i := PageIndex(base, 21, 2);
      if Has(flags, VM_HUGE_2M) && tables[t][i] == 0 && base % 512 == 0 && pa % 512 == 0 && size % 512 == 0 {
        HugeChunk(base, size);
        MapPmdBlock(t, base, pa, flags);
        GrewSame(old(tables), tables, places, pool, flags);
        return true;
      }
      PmdChunkFits(base, size);
      ok := MapPmdPages(t, base, pa, m, flags);
    }

    /** One chunk of map_pmd_range on top of k mapped pages. */
    method MapPmdChunk(t: nat, base: nat, pa: nat, k: nat, size: nat, m: nat, flags: nat,
                       ghost T0: Tables, ghost p0: map<nat, Place>, ghost f0: seq<nat>)
      returns (ok: bool)
      requires Valid() == true && k < size && m == PmdChunk(base + k, size - k)
      requires Physical(pa, size) && Tree(T0, p0, root)
      requires Partial(T0, p0, tables, places, root, 2, t, base, pa, k, size - k) == true && Grew(T0, f0, tables, places, pool, flags) == true
      modifies this
      ensures Valid() == true && Took(old(pool), pool, ok, 1) && m <= size - k
      ensures t in old(tables) && t in tables && SlotDone(old(tables)[t], tables[t], base + k, pa + k, size - k, flags, ok) == true
      ensures Grew(T0, f0, tables, places, pool, flags) == true
      ensures ok ==> Partial(T0, p0, tables, places, root, 2, t, base, pa, k + m, size - k - m) == true
      ensures !ok ==> Did(T0, p0, tables, places, root, 2, t, base, size) == true && PartlyMaps(tables, 2, t, base, pa, size) == true
    {
      ghost var T1, p1, f1 := tables, places, pool;
      PmdChunkFits(base + k, size - k);
      PartialChunk(T0, p0, T1, p1, root, 2, t, base, pa, k, size - k, m);
      ok := MapPmdEntry(t, base + k, pa + k, m, size - k, flags);
      GrewOn(T0, p0, f0, T1, p1, f1, tables, places, pool, root, flags);
      if ok {
        PartialNext(T0, p0, T1, p1, tables, places, root, 2, t, base, pa, k, size - k, m);
      } else {
        PartialFail(T0, p0, T1, p1, tables, places, root, 2, t, base, pa, k, size - k, m);
      }
    }

    /** That chunk, with the blocks made so far and the frames they can have taken. */
    method MapPmdRound(t: nat, base: nat, pa: nat, k: nat, size: nat, m: nat, next: nat, flags: nat,
                       ghost T0: Tables, ghost p0: map<nat, Place>, ghost f0: seq<nat>, ghost need: nat)
      returns (ok: bool, ghost more: nat)
      requires Valid() == true && k < size && m == PmdChunk(base + k, size - k) && next == k + m
      requires Physical(pa, size) && Tree(T0, p0, root) == true && t in T0 && p0[t].level == 2 && InTable(p0[t], base, size)
      requires Partial(T0, p0, tables, places, root, 2, t, base, pa, k, size - k) == true && Grew(T0, f0, tables, places, pool, flags) == true
      requires PmdLeft(base, k, size, need) == true && |pool| <= |f0| <= |pool| + need
      requires t in tables && Grains(T0[t], tables[t], base, pa, size, k, flags) == true
      modifies this
      ensures Valid() == true && k < next <= size && |pool| <= |f0| <= |pool| + more
      ensures PmdLeft(base, next, size, more) == true && more <= PmdNeed(Span(base, size))
      ensures Grew(T0, f0, tables, places, pool, flags) == true && t in tables
      ensures ok ==> Partial(T0, p0, tables, places, root, 2, t, base, pa, next, size - next) == true
      ensures ok ==> Grains(T0[t], tables[t], base, pa, size, next, flags) == true
      ensures !ok ==> pool == [] && |f0| < more
      ensures !ok ==> Did(T0, p0, tables, places, root, 2, t, base, size) == true && PartlyMaps(tables, 2, t, base, pa, size) == true
    {
      ghost var row1 := tables[t];
      more := PmdAdvance(base, k, size, m, need);
      ok := MapPmdChunk(t, base, pa, k, size, m, flags, T0, p0, f0);
      if ok {
        GrainsRound(p0[t], T0[t], row1, tables[t], base, pa, size, k, m, flags, need);
      }
    }

    /** map_pmd_range. */
    method MapPmdRange(t: nat, base: nat, pa: nat, size: nat, flags: nat) returns (ok: bool)
      requires Valid() == true && t in tables && places[t].level == 2 && size > 0
      requires InTable(places[t], base, size) && Unmapped(tables, 2, t, base, size) == true && Physical(pa, size)
      modifies this
      ensures Valid() == true && Did(old(tables), old(places), tables, places, root, 2, t, base, size) == true
      ensures if ok then Maps(tables, 2, t, base, pa, size) == true else PartlyMaps(tables, 2, t, base, pa, size) == true
      ensures Took(old(pool), pool, ok, PmdNeed(Span(base, size)))
      ensures t in tables && (ok ==> Grains(old(tables[t]), tables[t], base, pa, size, size, flags) == true)
      ensures Grew(old(tables), old(pool), tables, places, pool, flags) == true
    {
      ghost var T0, p0, f0 := tables, places, pool;
      ghost var need: nat := 0;
      var k := 0;
      GrainsNone(T0[t], base, pa, size, flags);
      GrewNone(T0, p0, root, f0, flags);
      PartialStart(T0, p0, root, 2, t, base, pa, size);
      while k < size
        invariant k <= size && Valid() == true && Partial(T0, p0, tables, places, root, 2, t, base, pa, k, size - k) == true
        invariant PmdLeft(base, k, size, need) == true && |pool| <= |f0| <= |pool| + need && need <= PmdNeed(Span(base, size))
        invariant t in tables && Grains(T0[t], tables[t], base, pa, size, k, flags) == true
        invariant Grew(T0, f0, tables, places, pool, flags) == true
      {
        var m := PmdChunk(base + k, size - k);
        var next := k + m;
        ok, need := MapPmdRound(t, base, pa, k, size, m, next, flags, T0, p0, f0, need);
        if !ok { return; }
        k := next;
      }
      ok := true;
    }

    /** One round of map_pud_range. */
    method MapPudEntry(t: nat, vp: nat, pa: nat, m: nat, flags: nat) returns (ok: bool)
      requires Valid() && t in tables && places[t].level == 1 && m > 0 && OneEntry(1, vp, m)
      requires InTable(places[t], vp, m) && Unmapped(tables, 1, t, vp, m) && Physical(pa, m)
      modifies this
      ensures Valid() == true && Did(old(tables), old(places), tables, places, root, 1, t, vp, m) == true
      ensures if ok then Maps(tables, 1, t, vp, pa, m) == true else PartlyMaps(tables, 1, t, vp, pa, m) == true
      ensures Took(old(pool), pool, ok, 1 + PmdNeed(Span(vp, m)))
      ensures Grew(old(tables), old(pool), tables, places, pool, flags) == true
    {
      ghost var T0, p0, f0 := tables, places, pool;
      TableOrNull(tables, places, root, t, vp);
      var i := PageIndex(vp, 30, 1);
      var c := ChildTable(t, i, flags, vp);
      if c.None? {
        DidWiden(T0, p0, tables, places, root, 1, t, vp, 0, m);
        return false;
      }
      ghost var T1, p1, f1 := tables, places, pool;
      BelowChild(T0, p0, T1, p1, root, t, c.value, vp, m);
      ok := MapPmdRange(c.value, vp, pa, m, flags);
      EntryDone(T0, p0, f0, T1, p1, f1, tables, places, pool, root, 1, t, c.value, vp, pa, m, flags, ok);
    }

    /** One chunk of map_pud_range on top of k mapped pages. */
    method MapPudChunk(t: nat, vp: nat, pa: nat, k: nat, size: nat, m: nat, flags: nat,
                       ghost T0: Tables, ghost p0: map<nat, Place>, ghost f0: seq<nat>)
      returns (ok: bool)
      requires Valid() == true && 0 < m <= size - k && OneEntry(1, vp + k, m)
      requires Physical(pa, size) && Tree(T0, p0, root)
      requires Partial(T0, p0, tables, places, root, 1, t, vp, pa, k, size - k) == true && Grew(T0, f0, tables, places, pool, flags) == true
      modifies this
      ensures Valid() == true && Took(old(pool), pool, ok, 1 + PmdNeed(Span(vp + k, m)))
      ensures Grew(T0, f0, tables, places, pool, flags) == true
      ensures ok ==> Partial(T0, p0, tables, places, root, 1, t, vp, pa, k + m, size - k - m) == true
      ensures !ok ==> Did(T0, p0, tables, places, root, 1, t, vp, size) && PartlyMaps(tables, 1, t, vp, pa, size)
    {
      ghost var T1, p1, f1 := tables, places, pool;
      PartialChunk(T0, p0, T1, p1, root, 1, t, vp, pa, k, size - k, m);
      ok := MapPudEntry(t, vp + k, pa + k, m, flags);
      GrewOn(T0, p0, f0, T1, p1, f1, tables, places, pool, root, flags);
      if ok {
        PartialNext(T0, p0, T1, p1, tables, places, root, 1, t, vp, pa, k, size - k, m);
      } else {
        PartialFail(T0, p0, T1, p1, tables, places, root, 1, t, vp, pa, k, size - k, m);
      }
    }

    /** map_pud_range; 1 GB blocks are not supported. */
    method MapPudRange(t: nat, vp: nat, pa: nat, size: nat, flags: nat) returns (ok: bool)
      requires Valid() && t in tables && places[t].level == 1 && size > 0 && PudFits(vp, size)
      requires InTable(places[t], vp, size) && Unmapped(tables, 1, t, vp, size) && !GigChunk(vp, pa, size, flags) && Physical(pa, size)
      modifies this
      ensures Valid() == true && Did(old(tables), old(places), tables, places, root, 1, t, vp, size) == true
      ensures if ok then Maps(tables, 1, t, vp, pa, size) == true else PartlyMaps(tables, 1, t, vp, pa, size) == true
      ensures Took(old(pool), pool, ok, PudNeed(Span(vp, size)))
      ensures Grew(old(tables), old(pool), tables, places, pool, flags) == true
    {
      ghost var T0, p0, f0, need := tables, places, pool, 0;
      var k := 0;
      GrewNone(T0, p0, root, f0, flags);
      PartialStart(T0, p0, root, 1, t, vp, pa, size);
      ghost var j := 0;
      while k < size
        invariant k <= size && Valid() == true && Partial(T0, p0, tables, places, root, 1, t, vp, pa, k, size - k) == true
        invariant PudLeft(vp, k, j, size, need) == true && |pool| <= |f0| <= |pool| + need
        invariant Grew(T0, f0, tables, places, pool, flags) == true
      {
        var m := UpperChunk(size - k, 0x4_0000);
        var next := k + m;
        need := PudAdvance(vp, pa, size, flags, j, k, m, next, need);
        // The source asserts that it does not come to a 1 GB block.
        assert GigChunk(vp + k, pa + k, size - k, flags) == false;
        ok := MapPudChunk(t, vp, pa, k, size, m, flags, T0, p0, f0);
        if !ok { return; }
        k, j := next, j + 1;
      }
      ok := true;
    }

    /** One round of map_pgd_range. */
    method MapPgdEntry(t: nat, vp: nat, pa: nat, m: nat, flags: nat) returns (ok: bool)
      requires Valid() && t in tables && places[t].level == 0 && m > 0 && OneEntry(0, vp, m) && PudFits(vp, m)
      requires InTable(places[t], vp, m) && Unmapped(tables, 0, t, vp, m) && !GigChunk(vp, pa, m, flags) && Physical(pa, m)
      modifies this
      ensures Valid() == true && Did(old(tables), old(places), tables, places, root, 0, t, vp, m) == true
      ensures if ok then Maps(tables, 0, t, vp, pa, m) == true else PartlyMaps(tables, 0, t, vp, pa, m) == true
      ensures Took(old(pool), pool, ok, 1 + PudNeed(Span(vp, m)))
      ensures Grew(old(tables), old(pool), tables, places, pool, flags) == true
    {
      ghost var T0, p0, f0 := tables, places, pool;
      TableOrNull(tables, places, root, t, vp);
      var i := PageIndex(vp, 39, 0);
      var c := ChildTable(t, i, flags, vp);
      if c.None? {
        DidWiden(T0, p0, tables, places, root, 0, t, vp, 0, m);
        return false;
      }
      ghost var T1, p1, f1 := tables, places, pool;
      BelowChild(T0, p0, T1, p1, root, t, c.value, vp, m);
      ok := MapPudRange(c.value, vp, pa, m, flags);
      EntryDone(T0, p0, f0, T1, p1, f1, tables, places, pool, root, 0, t, c.value, vp, pa, m, flags, ok);
    }

    /** One chunk of map_pgd_range on top of k mapped pages. */
    method MapPgdChunk(vp: nat, pa: nat, k: nat, size: nat, m: nat, flags: nat,
                       ghost T0: Tables, ghost p0: map<nat, Place>, ghost f0: seq<nat>)
      returns (ok: bool)
      requires Valid() == true && 0 < m <= size - k && OneEntry(0, vp + k, m) && PudFits(vp + k, m) && !GigChunk(vp + k, pa + k, m, flags)
      requires Physical(pa, size) && Tree(T0, p0, root)
      requires Partial(T0, p0, tables, places, root, 0, root, vp, pa, k, size - k) == true && Grew(T0, f0, tables, places, pool, flags) == true
      modifies this
      ensures Valid() == true && Took(old(pool), pool, ok, 1 + PudNeed(Span(vp + k, m)))
      ensures Grew(T0, f0, tables, places, pool, flags) == true
      ensures ok ==> Partial(T0, p0, tables, places, root, 0, root, vp, pa, k + m, size - k - m) == true
      ensures !ok ==> Did(T0, p0, tables, places, root, 0, root, vp, size) && PartlyMaps(tables, 0, root, vp, pa, size)
    {
      ghost var T1, p1, f1 := tables, places, pool;
      PartialChunk(T0, p0, T1, p1, root, 0, root, vp, pa, k, size - k, m);
      ok := MapPgdEntry(root, vp + k, pa + k, m, flags);
      GrewOn(T0, p0, f0, T1, p1, f1, tables, places, pool, root, flags);
      if ok {
        PartialNext(T0, p0, T1, p1, tables, places, root, 0, root, vp, pa, k, size - k, m);
      } else {
        PartialFail(T0, p0, T1, p1, tables, places, root, 0, root, vp, pa, k, size - k, m);
      }
    }

    /** map_pgd_range. */
    method MapPgdRange(vp: nat, pa: nat, size: nat, flags: nat) returns (ok: bool)
      requires Valid() == true && size > 0 && PgdFits(vp, size) && vp + size <= 0x10_0000_0000
      requires Unmapped(tables, 0, root, vp, size) == true && !GigRange(vp, pa, size, flags) && Physical(pa, size)
      modifies this
      ensures Valid() == true && Did(old(tables), old(places), tables, places, root, 0, root, vp, size) == true
      ensures if ok then Maps(tables, 0, root, vp, pa, size) == true else PartlyMaps(tables, 0, root, vp, pa, size) == true
      ensures Took(old(pool), pool, ok, PgdNeed(Span(vp, size)))
      ensures Grew(old(tables), old(pool), tables, places, pool, flags) == true
    {
      ghost var T0, p0, f0, need := tables, places, pool, 0;
      GrewNone(T0, p0, root, f0, flags);
      RootStart(T0, p0, root, vp, pa, size);
      var k := 0;
      ghost var j := 0;
      while k < size
        invariant k <= size && Valid() == true && Partial(T0, p0, tables, places, root, 0, root, vp, pa, k, size - k) == true
        invariant PgdLeft(vp, k, j, size, need) == true && |pool| <= |f0| <= |pool| + need
        invariant Grew(T0, f0, tables, places, pool, flags) == true
      {
        var m := UpperChunk(size - k, 0x800_0000);
        var next := k + m;
        need := PgdAdvance(vp, pa, size, flags, j, k, m, next, need);
        ok := MapPgdChunk(vp, pa, k, size, m, flags, T0, p0, f0);
        if !ok { return; }
        k, j := next, j + 1;
      }
      ok := true;
    }

    /** pgtbl_walk on a translated address. What it returns, and when that is the translation: for a page
        below 64 GB, and for the first byte of a block below 2 GB. */
    method PgtblWalk(va: nat) returns (pa: nat)
      requires Valid() && Translate(tables, 0, root, va).Some?
      ensures var d, out := LeafLevel(tables, 0, root, PageOf(va)), Translate(tables, 0, root, va).value;
        && (d == 3 || d == 2 || d == 1)
        && pa == (if d == 3 then out % 0x10_0000_0000 else SignExtended(out - va % (4096 * Pages(d))))
        && (pa == out <==> if d == 3 then out < 0x10_0000_0000 else va % (4096 * Pages(d)) == 0 && out < 0x8000_0000)
    {
      pa := WalkPgd(va);
    }

    method WalkPgd(va: nat) returns (pa: nat)
      requires Look(tables, 0, root, PageOf(va)).Some?
      ensures Walked(tables, 0, root, va, pa) == true
    {
      WalkDown(tables, 0, root, va, 0);
      var i := IndexFor(va, 39, 0);
      var pgde := tables[root][i];
      pa := WalkPud(Frame(pgde), va);
      WalkDown(tables, 0, root, va, pa);
    }

    method WalkPud(t: nat, va: nat) returns (pa: nat)
      requires Look(tables, 1, t, PageOf(va)).Some?
      ensures Walked(tables, 1, t, va, pa) == true
    {
      WalkBlock(tables, 1, t, va, 0x4000_0000);
      WalkDown(tables, 1, t, va, 0);
      var i := IndexFor(va, 30, 1);
      var pude := tables[t][i];
      if !IsTable(pude) { return BlockAddr(pude, 0x4000_0000); }
      pa := WalkPmd(Frame(pude), va);
      WalkDown(tables, 1, t, va, pa);
    }

    method WalkPmd(t: nat, va: nat) returns (pa: nat)
      requires Look(tables, 2, t, PageOf(va)).Some?
      ensures Walked(tables, 2, t, va, pa) == true
    {
      WalkBlock(tables, 2, t, va, 0x20_0000);
      WalkDown(tables, 2, t, va, 0);
      var i := IndexFor(va, 21, 2);
      var pmde := tables[t][i];
      if !IsTable(pmde) { return BlockAddr(pmde, 0x20_0000); }
      pa := WalkPt(Frame(pmde), va);
      WalkDown(tables, 2, t, va, pa);
    }

    method WalkPt(t: nat, va: nat) returns (pa: nat)
      requires Look(tables, 3, t, PageOf(va)).Some?
      ensures Walked(tables, 3, t, va, pa) == true
    {
      WalkPage(tables, 3, t, va);
      var i := IndexFor(va, 12, 3);
      var pte := tables[t][i];
      return BitOr(PageAddr(pte), va % 4096);
    }

    /** pagetable_map. Success maps every byte of the range, with the rights of flags; either way no other byte is
        translated otherwise, no entry in use changes, new entries are written for flags, and the new tables are
        frames off the front of the pool. It fails only with no frame left, and not if there were enough for
        every table the range can need. */
    method PagetableMap(va: nat, pa: nat, size: nat, flags: nat) returns (ok: bool)
      requires Valid() == true && PageRange(va, size) == true && pa % 4096 == 0 && pa < 0x1_0000_0000_0000
      requires PgdFits(PageOf(va), size / 4096) && !GigRange(PageOf(va), pa / 4096, size / 4096, flags)
      requires BytesUnmapped(tables, 0, root, va, size) == true
      modifies this
      ensures Valid() == true && Extends(old(places), places) == true
      ensures if ok then BytesMapped(tables, 0, root, va, pa, size) == true else BytesPartly(tables, 0, root, va, pa, size) == true
      ensures BytesSame(old(tables), tables, 0, root, va, size) == true
      ensures BytesPermit(tables, 0, root, va, size, flags) == true && LeavesSame(old(tables), tables, 0, root, va, size) == true
      ensures Added(old(tables), tables, places, flags) == true
      ensures |pool| <= |old(pool)| <= |pool| + PgdNeed(Span(PageOf(va), size / 4096))
      ensures pool == old(pool)[|old(pool)| - |pool|..]
      ensures tables.Keys == old(tables.Keys) + Frames(old(pool)[..|old(pool)| - |pool|])
      ensures !ok ==> pool == [] && |old(pool)| < PgdNeed(Span(PageOf(va), size / 4096))
    {
      ghost var T0, p0, f0 := tables, places, pool;
      PagesUnmapped(tables, 0, root, va, size);
      InPages(va, pa, size);
      ok := MapPgdRange(PageOf(va), pa / 4096, size / 4096, flags);
      MapDone(T0, p0, f0, tables, places, pool, root, va, pa, size, flags, ok);
    }
  }

  /** A page at 64 GB, mapped and walked: the walk answers 0. */
  method HighFrame() returns (m: PageMemory, pa: nat)
    ensures m.Valid() && Translate(m.tables, 0, m.root, 0) == Some(0x10_0000_0000) && pa == 0
  {
    m := new PageMemory(0, [1, 2, 3]);
    EmptyUnmapped(m.tables, m.root);
    pa := MapHigh(m, 0, 0x10_0000_0000, 0);
  }

  method MapOne(m: PageMemory, va: nat, pa: nat, flags: nat)
    requires m.Valid() && va < 0x1_0000_0000_0000 && va % 4096 == 0 && pa % 4096 == 0 && pa < 0x1_0000_0000_0000
    requires PgdFits(PageOf(va), 1) && !GigRange(PageOf(va), pa / 4096, 1, flags) && PgdNeed(Span(PageOf(va), 1)) <= |m.pool|
    requires BytesUnmapped(m.tables, 0, m.root, va, 4096)
    modifies m
    ensures m.Valid() == true && Translate(m.tables, 0, m.root, va) == Some(pa)
  {
    var ok := m.PagetableMap(va, pa, 4096, flags);
    FirstByte(m.tables, m.root, va, pa, 4096);
  }

  lemma FirstByte(T: Tables, t: nat, va: nat, pa: nat, size: nat)
    requires BytesMapped(T, 0, t, va, pa, size) && size > 0 && pa < 0x1_0000_0000_0000
    ensures Translate(T, 0, t, va) == Some(pa)
  {
    ModUnique(pa, 0x1_0000_0000_0000, 0, pa);
    assert Translate(T, 0, t, va) == Some((pa + (va - va)) % 0x1_0000_0000_0000);
  }

  method MapHigh(m: PageMemory, va: nat, pa: nat, flags: nat) returns (r: nat)
    requires m.Valid() && va == 0 && pa == 0x10_0000_0000 && flags == 0 && |m.pool| == 3
    requires BytesUnmapped(m.tables, 0, m.root, va, 4096)
    modifies m
    ensures m.Valid() == true && Translate(m.tables, 0, m.root, va) == Some(pa) && r == 0
  {
    HighFrameFits(va, pa, flags);
    MapOne(m, va, pa, flags);
    r := m.PgtblWalk(va);
    HighLeaf(LeafLevel(m.tables, 0, m.root, PageOf(va)), r);
  }

  lemma HighLeaf(d: nat, pa: nat)
    requires pa == if d == 3 then 0x10_0000_0000 % 0x10_0000_0000 else SignExtended(0x10_0000_0000 - 0 % (4096 * Pages(d)))
    ensures pa == 0
  {
    ModUnique(0, 4096 * Pages(d), 0, 0);
  }

  lemma EmptyUnmapped(T: Tables, t: nat)
    requires Unmapped(T, 0, t, 0, 0x10_0000_0000)
    ensures BytesUnmapped(T, 0, t, 0, 4096)
  {
    forall x: nat | 0 <= x < 4096 ensures Translate(T, 0, t, x) == None {
      assert 0 <= PageOf(x) < 0x10_0000_0000;
    }
  }

  lemma HighFrameFits(va: nat, pa: nat, flags: nat)
    requires va == 0 && pa == 0x10_0000_0000 && flags == 0
    ensures PgdFits(PageOf(va), 1) && PgdNeed(Span(PageOf(va), 1)) == 3
    ensures !GigRange(PageOf(va), pa / 4096, 1, flags)
  {
    assert BitAnd(0, VM_HUGE_1G) == 0;
  }

  // ---- Which ranges the loops can serve ----

  /** Every chunk of map_pud_range stays below one entry exactly for the ranges that fit. */
  lemma PudFitsExactly(vp: nat, cnt: nat)
    requires cnt > 0
    ensures PudFits(vp, cnt) <==>
      forall k: nat :: k * 0x4_0000 < cnt ==> OneEntry(1, vp + k * 0x4_0000, UpperChunk(cnt - k * 0x4_0000, 0x4_0000))
  {
    if PudFits(vp, cnt) {
      forall k: nat | k * 0x4_0000 < cnt
        ensures OneEntry(1, vp + k * 0x4_0000, UpperChunk(cnt - k * 0x4_0000, 0x4_0000))
      {
        assert PudFits(vp + k * 0x4_0000, cnt - k * 0x4_0000);
        PudChunkFits(vp + k * 0x4_0000, cnt - k * 0x4_0000);
      }
    } else {
      var m := UpperChunk(cnt - 0 * 0x4_0000, 0x4_0000);
      EntryNumbers(vp);
      EntryNumbers(vp + m - 1);
      assert !OneEntry(1, vp + 0 * 0x4_0000, m);
    }
  }

  lemma PgdChunk(vp: nat, cnt: nat, k: nat)
    requires PgdFits(vp, cnt) && k * 0x800_0000 < cnt
    ensures PgdFits(vp + k * 0x800_0000, cnt - k * 0x800_0000)
  {
    if vp % 0x800_0000 == 0 {
      ModUnique(vp + k * 0x800_0000, 0x800_0000, vp / 0x800_0000 + k, 0);
    } else {
      assert k == 0;
    }
  }

  /** The same for map_pgd_range, whose chunks must also suit map_pud_range. */
  lemma PgdFitsExactly(vp: nat, cnt: nat)
    requires cnt > 0
    ensures PgdFits(vp, cnt) <==>
      forall k: nat :: k * 0x800_0000 < cnt ==>
        var m := UpperChunk(cnt - k * 0x800_0000, 0x800_0000);
        OneEntry(0, vp + k * 0x800_0000, m) && PudFits(vp + k * 0x800_0000, m)
  {
    if PgdFits(vp, cnt) {
      forall k: nat | k * 0x800_0000 < cnt
        ensures var m := UpperChunk(cnt - k * 0x800_0000, 0x800_0000);
          OneEntry(0, vp + k * 0x800_0000, m) && PudFits(vp + k * 0x800_0000, m)
      {
        PgdChunk(vp, cnt, k);
        PgdChunkFits(vp + k * 0x800_0000, cnt - k * 0x800_0000);
      }
    } else {
      var m := UpperChunk(cnt - 0 * 0x800_0000, 0x800_0000);
      EntryNumbers(vp);
      EntryNumbers(vp + m - 1);
      assert !(OneEntry(0, vp + 0 * 0x800_0000, m) && PudFits(vp + 0 * 0x800_0000, m));
    }
  }

  // ---- What becomes of the others ----

  /** All pages a table covers lie below one entry of each level above it. */
  lemma {:induction false} SameAbove(l: nat, d: Place, n: nat, m: nat)
    requires Covers(d, n) && Covers(d, m) && l < d.level
    ensures Entry(l, n) == Entry(l, m)
    decreases d.level - l
  {
    if l + 1 < d.level { SameAbove(l + 1, d, n, m); }
  }

  /** Nothing written below one entry of level l matters to a page below another. */
  lemma OtherEntry(T: Tables, places: map<nat, Place>, root: nat, l: nat, d: nat, j: nat, e: nat, m: nat, n: nat)
    requires Tree(T, places, root) && d in T && j < 512 && l < places[d].level && Covers(places[d], m)
    requires Entry(l, n) != Entry(l, m) && n < 0x10_0000_0000
    ensures Look(Write(T, d, j, e), 0, root, n) == Look(T, 0, root, n)
  {
    if Covers(places[d], n) { SameAbove(l, places[d], n, m); }
    RootCovers(places[root], n, 1);
    WriteElsewhere(T, places, root, d, j, e, root, n);
  }

  /** A chunk that crosses the boundary of its entry holds a page that stays as it was, whatever is written to
      tables below that entry, which is where the loops pass the chunk to. u is the pages per entry of level l. */
  lemma ChunkMisses(T: Tables, places: map<nat, Place>, root: nat, l: nat, u: nat, vp: nat, cnt: nat, d: nat, j: nat, e: nat, m: nat)
    returns (n: nat)
    requires (l == 1 && u == 0x4_0000) || (l == 0 && u == 0x800_0000)
    requires vp % u != 0 && vp % u + cnt > u && vp + cnt <= 0x10_0000_0000
    requires Tree(T, places, root) && d in T && j < 512 && l < places[d].level && Covers(places[d], m) && Entry(l, m) == Entry(l, vp)
    ensures vp <= n < vp + UpperChunk(cnt, u) && Look(Write(T, d, j, e), 0, root, n) == Look(T, 0, root, n)
  {
    n := vp + (u - vp % u);
    EntryNumbers(vp);
    EntryNumbers(n);
    DivMod(vp, u);
    assert n == u * (vp / u + 1) by { assert u * (vp / u + 1) == u * (vp / u) + u; }
    DivUnique(n, u, vp / u + 1, 0);
    OtherEntry(T, places, root, l, d, j, e, m, n);
  }
}

/** Which entries a mapping writes, and what they permit (ukern/src/pagetable.c:42-406). */
module Rights {
  import opened Basics
  import opened Words
  import opened Descriptors
  import opened Translation
  import opened Attributes

  /** An entry of a table of level l that is written for flags: it names a table that was not there, or is a leaf. */
  ghost predicate MadeFor(T: Tables, l: nat, e: nat, flags: nat) {
    if l < 3 && IsTable(e) then Frame(e) !in T && Limits(e, flags) else Permits(e, flags)
  }

  /** Entry i of t is as it was if it was in use, else null or written for flags. */
  ghost predicate EntryNew(T: Tables, T': Tables, p': map<nat, Place>, t: nat, i: nat, flags: nat) {
    t in T' && i < |T'[t]| && t in p' &&
    if t in T && i < |T[t]| && T[t][i] != 0 then T'[t][i] == T[t][i]
    else T'[t][i] == 0 || MadeFor(T, p'[t].level, T'[t][i], flags)
  }

  /** No entry in use has changed, and every new one was written for flags. */
  ghost predicate Added(T: Tables, T': Tables, p': map<nat, Place>, flags: nat) {
    && (forall t :: t in T ==> t in T')
    && forall t, i :: t in T' && 0 <= i < 512 ==> EntryNew(T, T', p', t, i, flags)
  }

  lemma AddedNone(T: Tables, p: map<nat, Place>, root: nat, flags: nat)
    requires Tree(T, p, root)
    ensures Added(T, T, p, flags) == true
  {
  }

  lemma AddedOn(T0: Tables, p0: map<nat, Place>, T1: Tables, p1: map<nat, Place>, T2: Tables, p2: map<nat, Place>, root: nat, flags: nat)
    requires Tree(T0, p0, root) && Tree(T1, p1, root) && Tree(T2, p2, root) && Extends(p1, p2)
    requires Added(T0, T1, p1, flags) && Added(T1, T2, p2, flags)
    ensures Added(T0, T2, p2, flags) == true
  {
    forall t, i | t in T2 && 0 <= i < 512 ensures EntryNew(T0, T2, p2, t, i, flags) == true {
      assert EntryNew(T1, T2, p2, t, i, flags);
      if t in T1 { assert EntryNew(T0, T1, p1, t, i, flags) && p2[t] == p1[t]; }
    }
  }

  /** A leaf where there was nothing. */
  lemma AddedLeaf(T: Tables, p: map<nat, Place>, root: nat, t: nat, i: nat, e: nat, flags: nat)
    requires Tree(T, p, root) && t in T && i < 512 && T[t][i] == 0 && Permits(e, flags) && (p[t].level < 3 ==> !IsTable(e))
    ensures Added(T, Write(T, t, i, e), p, flags) == true
  {
    var T' := Write(T, t, i, e);
    forall u, j | u in T' && 0 <= j < 512 ensures EntryNew(T, T', p, u, j, flags) == true {
    }
  }

  /** A table where there was nothing. */
  lemma AddedHang(T: Tables, p: map<nat, Place>, root: nat, t: nat, i: nat, e: nat, flags: nat)
    requires Tree(T, p, root) && t in T && i < 512 && p[t].level < 3 && T[t][i] == 0
    requires IsValid(e) && IsTable(e) && Frame(e) !in T && Limits(e, flags)
    ensures Added(T, Hang(T, t, i, e), HangPlace(p, t, i, Frame(e)), flags) == true
  {
    var T', p' := Hang(T, t, i, e), HangPlace(p, t, i, Frame(e));
    forall u, j | u in T' && 0 <= j < 512 ensures EntryNew(T, T', p', u, j, flags) == true {
    }
  }

  // ---- The descriptor behind a translation ----

  /** The page or block descriptor that translates page n from table t of level l. */
  function LeafAt(T: Tables, l: nat, t: nat, n: nat): (r: Option<nat>)
    decreases 3 - l, n
  {
    if l > 3 || t !in T || |T[t]| != 512 then None
    else
      var e := T[t][Entry(l, n) % 512];
      if !IsValid(e) then None
      else if l == 3 then (if IsTable(e) then Some(e) else None)
      else if IsTable(e) then LeafAt(T, l + 1, Frame(e), n)
      else if l == 0 then None
      else Some(e)
  }

  lemma {:induction false} LeafLooks(T: Tables, l: nat, t: nat, n: nat)
    ensures LeafAt(T, l, t, n).Some? <==> Look(T, l, t, n).Some?
    decreases 3 - l
  {
    if l < 3 && t in T && |T[t]| == 512 {
      LeafLooks(T, l + 1, Frame(T[t][Entry(l, n) % 512]), n);
    }
  }

  /** Below a new table every leaf was written for flags. */
  lemma {:induction false} LeafBelowNew(T: Tables, T': Tables, p': map<nat, Place>, root: nat, flags: nat, t: nat, n: nat)
    requires Tree(T', p', root) && Added(T, T', p', flags) && t in T' && t !in T
    ensures var r := LeafAt(T', p'[t].level, t, n); r.Some? ==> Permits(r.value, flags) == true
    decreases 3 - p'[t].level
  {
    var l := p'[t].level;
    var i := Entry(l, n) % 512;
    var e := T'[t][i];
    assert EntryNew(T, T', p', t, i, flags) && EntryOk(T', p', t, i);
    assert e == 0 || MadeFor(T, l, e, flags) == true;
    if l < 3 && e != 0 && IsTable(e) {
      LeafBelowNew(T, T', p', root, flags, Frame(e), n);
    }
  }

  /** A page that was not translated and now is, is so by a descriptor written for flags. */
  lemma {:induction false} LeafMade(T: Tables, p: map<nat, Place>, T': Tables, p': map<nat, Place>, root: nat, flags: nat, t: nat, n: nat)
    requires Tree(T, p, root) && Tree(T', p', root) && Extends(p, p') && Added(T, T', p', flags) && t in T
    requires Look(T, p[t].level, t, n) == None
    ensures var r := LeafAt(T', p[t].level, t, n); r.Some? ==> Permits(r.value, flags) == true
    decreases 3 - p[t].level
  {
    var l := p[t].level;
    var i := Entry(l, n) % 512;
    var e := T'[t][i];
    assert EntryNew(T, T', p', t, i, flags) && EntryOk(T, p, t, i) && EntryOk(T', p', t, i) && p'[t] == p[t];
    if l < 3 && IsValid(e) && IsTable(e) {
      if T[t][i] == 0 {
        LeafBelowNew(T, T', p', root, flags, Frame(e), n);
      } else {
        LeafMade(T, p, T', p', root, flags, Frame(e), n);
      }
    }
  }

  /** A page that was translated is so by the same descriptor. */
  lemma {:induction false} LeafKept(T: Tables, p: map<nat, Place>, T': Tables, p': map<nat, Place>, root: nat, flags: nat, t: nat, n: nat)
    requires Tree(T, p, root) && Tree(T', p', root) && Extends(p, p') && Added(T, T', p', flags) && t in T
    requires Look(T, p[t].level, t, n).Some?
    ensures LeafAt(T', p[t].level, t, n) == LeafAt(T, p[t].level, t, n)
    decreases 3 - p[t].level
  {
    var l := p[t].level;
    var i := Entry(l, n) % 512;
    assert EntryNew(T, T', p', t, i, flags) && EntryOk(T, p, t, i);
    if l < 3 && IsTable(T[t][i]) {
      LeafKept(T, p, T', p', root, flags, Frame(T[t][i]), n);
    }
  }

  // ---- Tables made for the kernel ----

  /** A table descriptor on the way to page n keeps users out, whatever its own descriptor says. */
  function KeptOut(T: Tables, l: nat, t: nat, n: nat): (r: bool)
    decreases 3 - l, n
  {
    if l >= 3 || t !in T || |T[t]| != 512 then false
    else
      var e := T[t][Entry(l, n) % 512];
      IsValid(e) && IsTable(e) && (Bit(e, 61) || KeptOut(T, l + 1, Frame(e), n))
  }

  lemma OpenEntry(T: Tables, l: nat, e: nat, flags: nat)
    requires MadeFor(T, l, e, flags) && l < 3 && IsTable(e) && !Kernel(flags)
    ensures !Bit(e, 61) && Frame(e) !in T
  {
  }

  lemma {:induction false} OpenBelowNew(T: Tables, T': Tables, p': map<nat, Place>, root: nat, flags: nat, t: nat, n: nat)
    requires Tree(T', p', root) && Added(T, T', p', flags) && t in T' && t !in T && !Kernel(flags)
    ensures !KeptOut(T', p'[t].level, t, n)
    decreases 3 - p'[t].level
  {
    var l := p'[t].level;
    var i := Entry(l, n) % 512;
    var e := T'[t][i];
    assert EntryNew(T, T', p', t, i, flags) && EntryOk(T', p', t, i);
    assert e == 0 || MadeFor(T, l, e, flags) == true;
    if l < 3 && e != 0 && IsTable(e) {
      WayOn(T', l, t, n, e);
      OpenEntry(T, l, e, flags);
      OpenBelowNew(T, T', p', root, flags, Frame(e), n);
    }
  }

  /** One step of the way, for an entry in use. */
  lemma WayOn(T: Tables, l: nat, t: nat, n: nat, e: nat)
    requires l < 3 && t in T && |T[t]| == 512 && e == T[t][Entry(l, n) % 512] && IsValid(e)
    ensures KeptOut(T, l, t, n) <==> IsTable(e) && (Bit(e, 61) || KeptOut(T, l + 1, Frame(e), n))
  {
  }

  lemma WayEnds(T: Tables, l: nat, t: nat, n: nat)
    requires l >= 3 || t !in T || |T[t]| != 512 || T[t][Entry(l, n) % 512] == 0
    ensures !KeptOut(T, l, t, n)
  {
  }

  /** Mapping for users opens no way that a table made for the kernel closes: a page is out of their reach after it
      exactly when such a table stood above it before. */
  lemma {:induction false} KeptOutExactly(T: Tables, p: map<nat, Place>, T': Tables, p': map<nat, Place>, root: nat, flags: nat, t: nat, n: nat)
    requires Tree(T, p, root) && Tree(T', p', root) && Extends(p, p') && Added(T, T', p', flags) && t in T && !Kernel(flags)
    ensures KeptOut(T', p[t].level, t, n) <==> KeptOut(T, p[t].level, t, n)
    decreases 3 - p[t].level
  {
    var l := p[t].level;
    var i := Entry(l, n) % 512;
    var e, e' := T[t][i], T'[t][i];
    assert EntryNew(T, T', p', t, i, flags) && EntryOk(T, p, t, i) && EntryOk(T', p', t, i) && p'[t] == p[t];
    if l >= 3 || e' == 0 {
      WayEnds(T, l, t, n);
      WayEnds(T', l, t, n);
    } else if e == 0 {
      WayEnds(T, l, t, n);
      WayOn(T', l, t, n, e');
      if IsTable(e') {
        OpenEntry(T, l, e', flags);
        OpenBelowNew(T, T', p', root, flags, Frame(e'), n);
      }
    } else {
      WayOn(T, l, t, n, e);
      WayOn(T', l, t, n, e);
      if IsTable(e) { KeptOutExactly(T, p, T', p', root, flags, Frame(e), n); }
    }
  }
}

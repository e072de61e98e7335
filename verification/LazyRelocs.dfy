/** Deferred relocations, retried in place (libc/ldso/dynlink.c:390-398, 516-534). */
module LazyRelocs {
  datatype Entry = Entry(offset: nat, info: nat, addend: nat)

  /** Whether an entry of an object resolves: its symbol and its place are the object's own. */
  type Resolver = (Dso, Entry) -> bool

  /** The entries of object d that resolve (or that do not), in order. */
  function Pick(d: Dso, es: seq<Entry>, resolves: Resolver, want: bool): (r: seq<Entry>) {
    if es == [] then [] else
    var n := |es| - 1;
    Pick(d, es[..n], resolves, want) + if resolves(d, es[n]) == want then [es[n]] else []
  }

  function Kept(d: Dso, es: seq<Entry>, resolves: Resolver): (r: seq<Entry>) { Pick(d, es, resolves, false) }

  function Applied(d: Dso, es: seq<Entry>, resolves: Resolver): (r: seq<Entry>) { Pick(d, es, resolves, true) }

  /** Nothing is lost or made up: every entry is applied once or kept once. */
  lemma {:induction false} Conserved(d: Dso, es: seq<Entry>, resolves: Resolver)
    ensures multiset(Kept(d, es, resolves)) + multiset(Applied(d, es, resolves)) == multiset(es)
  {
    if es != [] {
      var n := |es| - 1;
      Conserved(d, es[..n], resolves);
      assert es == es[..n] + [es[n]];
    }
  }

  lemma {:induction false} PickedResolve(d: Dso, es: seq<Entry>, resolves: Resolver, want: bool)
    ensures forall e :: e in Pick(d, es, resolves, want) ==> resolves(d, e) == want
  {
    if es != [] { PickedResolve(d, es[..|es| - 1], resolves, want); }
  }

  /** They are picked in their order: at holds their positions, which rise, and every position that is wanted. */
  lemma {:induction false} PickedInOrder(d: Dso, es: seq<Entry>, resolves: Resolver, want: bool) returns (at: seq<nat>)
    ensures |at| == |Pick(d, es, resolves, want)|
    ensures forall k :: 0 <= k < |at| ==> at[k] < |es| && Pick(d, es, resolves, want)[k] == es[at[k]]
    ensures forall j, k :: 0 <= j < k < |at| ==> at[j] < at[k]
    ensures forall i :: 0 <= i < |es| ==> (i in at <==> resolves(d, es[i]) == want)
  {
    if es == [] {
      at := [];
    } else {
      var n := |es| - 1;
      var rest := PickedInOrder(d, es[..n], resolves, want);
      at := rest + if resolves(d, es[n]) == want then [n] else [];
    }
  }

  class Dso {
    const lazy: array<Entry>
    var lazyCnt: nat
    var hasLazy: bool                 // lazy is not null
    var lazyNext: Dso?
    ghost var applied: seq<Entry>     // relocations carried out, in order

    constructor (capacity: nat)
      ensures fresh(lazy) && lazyCnt == 0 && hasLazy && lazyNext == null && applied == []
    {
      lazy := new Entry[capacity](_ => Entry(0, 0, 0));
      lazyCnt, hasLazy, lazyNext, applied := 0, true, null, [];
    }

    ghost predicate Valid()
      reads this
    {
      hasLazy && lazyCnt <= lazy.Length
    }

    ghost function Pending(): (es: seq<Entry>)
      requires Valid()
      reads this, lazy
    {
      lazy[..lazyCnt]
    }

    /** do_relocs over the deferred entries: reads entry i and writes entry lazyCnt <= i of the same table. */
    method RetryAll(resolves: Resolver)
      requires Valid()
      modifies this`lazyCnt, this`applied, lazy
      ensures Valid()
      ensures Pending() == Kept(this, old(Pending()), resolves)
      ensures applied == old(applied) + Applied(this, old(Pending()), resolves)
    {
      var n, i := lazyCnt, 0;
      ghost var es := Pending();
      lazyCnt := 0;
      while i < n
        invariant lazyCnt <= i <= n == |es| <= lazy.Length
        invariant lazy[..lazyCnt] == Kept(this, es[..i], resolves) && lazy[i..n] == es[i..]
        invariant applied == old(applied) + Applied(this, es[..i], resolves)
      {
        var e := lazy[i];
        assert e == lazy[i..n][0] == es[i];
        assert es[..i + 1][..i] == es[..i];
        assert lazy[i + 1..n] == lazy[i..n][1..] == es[i + 1..];
        if resolves(this, e) {
          applied := applied + [e];
        } else {
          lazy[lazyCnt] := e;
          assert lazy[..lazyCnt + 1] == Kept(this, es[..i], resolves) + [e];
          lazyCnt := lazyCnt + 1;
        }
        i := i + 1;
      }
      assert es[..i] == es;
    }
  }

  function NextOf(ds: seq<Dso>, i: nat): (d: Dso?) {
    if i + 1 < |ds| then ds[i + 1] else null
  }

  /** head leads along lazy_next through ds to null. */
  ghost predicate Chain(head: Dso?, ds: seq<Dso>)
    reads ds
  {
    && head == (if ds == [] then null else ds[0])
    && forall i {:trigger NextOf(ds, i)} :: 0 <= i < |ds| ==> ds[i].lazyNext == NextOf(ds, i)
  }

  ghost predicate Distinct(ds: seq<Dso>)
  {
    forall i, j :: 0 <= i < j < |ds| ==> ds[i] != ds[j] && ds[i].lazy != ds[j].lazy
  }

  ghost function Tables(ds: seq<Dso>): set<array<Entry>>
  {
    set d | d in ds :: d.lazy
  }

  /** The objects of ds that keep entries, last first. */
  ghost function Remaining(ds: seq<Dso>, pend: seq<seq<Entry>>, resolves: Resolver): (r: seq<Dso>)
    requires |pend| == |ds|
  {
    if ds == [] then [] else
    var n := |ds| - 1;
    (if Kept(ds[n], pend[n], resolves) != [] then [ds[n]] else []) + Remaining(ds[..n], pend[..n], resolves)
  }

  /** d is one of ds and keeps entries. */
  ghost predicate Keeps(ds: seq<Dso>, pend: seq<seq<Entry>>, resolves: Resolver, d: Dso)
    requires |pend| == |ds|
  {
    exists i :: 0 <= i < |ds| && ds[i] == d && Kept(d, pend[i], resolves) != []
  }

  lemma KeepsStep(ds: seq<Dso>, pend: seq<seq<Entry>>, resolves: Resolver, d: Dso, n: nat)
    requires |pend| == |ds| == n + 1
    ensures Keeps(ds, pend, resolves, d) <==>
      Keeps(ds[..n], pend[..n], resolves, d) || (ds[n] == d && Kept(d, pend[n], resolves) != [])
  {
    if i :| 0 <= i < n && ds[i] == d && Kept(d, pend[i], resolves) != [] {
      assert ds[..n][i] == d && pend[..n][i] == pend[i];
    }
  }

  /** The new list holds exactly the objects that keep entries. */
  lemma {:induction false} RemainingMembers(ds: seq<Dso>, pend: seq<seq<Entry>>, resolves: Resolver, d: Dso)
    requires |pend| == |ds|
    ensures d in Remaining(ds, pend, resolves) <==> Keeps(ds, pend, resolves, d)
  {
    if ds != [] {
      var n := |ds| - 1;
      RemainingMembers(ds[..n], pend[..n], resolves, d);
      KeepsStep(ds, pend, resolves, d, n);
    }
  }

  /** They stand in reverse order: at holds their positions, which fall. */
  lemma {:induction false} RemainingReversed(ds: seq<Dso>, pend: seq<seq<Entry>>, resolves: Resolver) returns (at: seq<nat>)
    requires |pend| == |ds|
    ensures |at| == |Remaining(ds, pend, resolves)|
    ensures forall k :: 0 <= k < |at| ==> at[k] < |ds| && Remaining(ds, pend, resolves)[k] == ds[at[k]]
    ensures forall j, k :: 0 <= j < k < |at| ==> at[j] > at[k]
    ensures forall i :: 0 <= i < |ds| ==> (i in at <==> Kept(ds[i], pend[i], resolves) != [])
  {
    if ds == [] {
      at := [];
    } else {
      var n := |ds| - 1;
      var rest := RemainingReversed(ds[..n], pend[..n], resolves);
      at := (if Kept(ds[n], pend[n], resolves) != [] then [n] else []) + rest;
    }
  }

  lemma ChainCons(p: Dso, head: Dso?, ds: seq<Dso>)
    requires Chain(head, ds) && p.lazyNext == head
    ensures Chain(p, [p] + ds)
  {
    var m := [p] + ds;
    forall i | 0 <= i < |m| ensures m[i].lazyNext == NextOf(m, i) {
      if i > 0 { assert NextOf(m, i) == NextOf(ds, i - 1) && ds[i - 1].lazyNext == NextOf(ds, i - 1); }
    }
  }

  lemma NotListed(ds: seq<Dso>, pend: seq<seq<Entry>>, resolves: Resolver, i: nat)
    requires i < |ds| == |pend| && Distinct(ds)
    ensures ds[i] !in Remaining(ds[..i], pend[..i], resolves)
  {
    RemainingMembers(ds[..i], pend[..i], resolves, ds[i]);
  }

  lemma RemainingStep(ds: seq<Dso>, pend: seq<seq<Entry>>, resolves: Resolver, i: nat)
    requires i < |ds| == |pend|
    ensures Remaining(ds[..i + 1], pend[..i + 1], resolves) ==
      (if Kept(ds[i], pend[i], resolves) != [] then [ds[i]] else []) + Remaining(ds[..i], pend[..i], resolves)
  {
    assert ds[..i + 1][..i] == ds[..i] && pend[..i + 1][..i] == pend[..i];
  }

  /** What has become of object d, which had es pending and log applied. */
  ghost predicate Redone(d: Dso, es: seq<Entry>, log: seq<Entry>, resolves: Resolver)
    reads d, d.lazy
  {
    && d.applied == log + Applied(d, es, resolves)
    && if Kept(d, es, resolves) == [] then !d.hasLazy else d.Valid() && d.Pending() == Kept(d, es, resolves)
  }

  /** One object of redo_lazy_relocs: retried, then relinked in front of the new list or dropped. */
  method RedoOne(p: Dso, head: Dso?, resolves: Resolver, ghost rest: seq<Dso>) returns (head': Dso?, ghost rest': seq<Dso>)
    requires p.Valid() && p !in rest && Chain(head, rest)
    modifies p, p.lazy
    ensures Redone(p, old(p.Pending()), old(p.applied), resolves)
    ensures rest' == (if Kept(p, old(p.Pending()), resolves) != [] then [p] else []) + rest && Chain(head', rest')
  {
    p.RetryAll(resolves);
    if p.lazyCnt > 0 {
      p.lazyNext := head;
      ChainCons(p, head, rest);
      head', rest' := p, [p] + rest;
    } else {
      p.hasLazy := false;
      p.lazyNext := null;
      assert [] + rest == rest;
      head', rest' := head, rest;
    }
  }

  /** Object d is as it was: es pending, log applied, next in the list. */
  ghost predicate Waiting(d: Dso, next: Dso?, es: seq<Entry>, log: seq<Entry>)
    reads d, d.lazy
  {
    d.Valid() && d.Pending() == es && d.applied == log && d.lazyNext == next
  }

  /** From position i on, objects are as they were: linked in order, with pend and logs. */
  ghost predicate Todo(ds: seq<Dso>, i: nat, pend: seq<seq<Entry>>, logs: seq<seq<Entry>>)
    requires |ds| == |pend| == |logs|
    reads ds, Tables(ds)
  {
    forall j {:trigger NextOf(ds, j)} :: i <= j < |ds| ==> Waiting(ds[j], NextOf(ds, j), pend[j], logs[j])
  }

  ghost predicate Done(ds: seq<Dso>, i: nat, pend: seq<seq<Entry>>, logs: seq<seq<Entry>>, resolves: Resolver)
    requires |ds| == |pend| == |logs|
    reads ds, Tables(ds)
  {
    forall j :: 0 <= j < i && j < |ds| ==> Redone(ds[j], pend[j], logs[j], resolves)
  }

  /** One round of redo_lazy_relocs. */
  method RedoNext(p: Dso, head: Dso?, resolves: Resolver,
                  ghost ds: seq<Dso>, ghost i: nat, ghost pend: seq<seq<Entry>>, ghost logs: seq<seq<Entry>>, ghost rest: seq<Dso>)
    returns (head': Dso?, ghost rest': seq<Dso>)
    requires i < |ds| == |pend| == |logs| && p == ds[i] && Distinct(ds)
    requires Todo(ds, i, pend, logs) && Done(ds, i, pend, logs, resolves)
    requires p !in rest && Chain(head, rest)
    modifies p, p.lazy
    ensures Todo(ds, i + 1, pend, logs) && Done(ds, i + 1, pend, logs, resolves)
    ensures rest' == (if Kept(ds[i], pend[i], resolves) != [] then [p] else []) + rest && Chain(head', rest')
  {
    assert Waiting(p, NextOf(ds, i), pend[i], logs[i]);
    head', rest' := RedoOne(p, head, resolves, rest);
    forall j | i + 1 <= j < |ds| ensures Waiting(ds[j], NextOf(ds, j), pend[j], logs[j]) {
      assert ds[j] != p && ds[j].lazy != p.lazy && old(Waiting(ds[j], NextOf(ds, j), pend[j], logs[j]));
    }
    forall j | 0 <= j < i ensures Redone(ds[j], pend[j], logs[j], resolves) {
      assert ds[j] != p && ds[j].lazy != p.lazy && old(Redone(ds[j], pend[j], logs[j], resolves));
    }
  }

  /** redo_lazy_relocs: every object's entries are applied or kept, and the new list holds exactly the
      objects that still have some. */
  method RedoLazyRelocs(head: Dso?, resolves: Resolver,
                        ghost ds: seq<Dso>, ghost pend: seq<seq<Entry>>, ghost logs: seq<seq<Entry>>)
    returns (head': Dso?, ghost rest: seq<Dso>)
    requires head == (if ds == [] then null else ds[0]) && Distinct(ds)
    requires |ds| == |pend| == |logs| && Todo(ds, 0, pend, logs)
    modifies ds, Tables(ds)
    ensures rest == Remaining(ds, pend, resolves) && Chain(head', rest)
    ensures (forall d :: d in rest ==> d in ds)
    ensures forall j :: 0 <= j < |ds| ==> (ds[j] in rest <==> Kept(ds[j], pend[j], resolves) != [])
    ensures Done(ds, |ds|, pend, logs, resolves)
  {
    var p := head;
    head', rest := null, [];
    ghost var i := 0;
    while p != null
      invariant 0 <= i <= |ds| && p == (if i < |ds| then ds[i] else null)
      invariant Todo(ds, i, pend, logs) && Done(ds, i, pend, logs, resolves)
      invariant rest == Remaining(ds[..i], pend[..i], resolves) && Chain(head', rest)
      decreases |ds| - i
    {
      var next := p.lazyNext;
      assert Waiting(p, NextOf(ds, i), pend[i], logs[i]);
      assert p.lazy in Tables(ds);
      NotListed(ds, pend, resolves, i);
      RemainingStep(ds, pend, resolves, i);
      head', rest := RedoNext(p, head', resolves, ds, i, pend, logs, rest);
      p := next;
      i := i + 1;
    }
    assert ds[..i] == ds && pend[..i] == pend;
    KeptExactly(ds, pend, resolves);
  }

  lemma KeptExactly(ds: seq<Dso>, pend: seq<seq<Entry>>, resolves: Resolver)
    requires |pend| == |ds| && Distinct(ds)
    ensures forall d :: d in Remaining(ds, pend, resolves) ==> d in ds
    ensures forall j :: 0 <= j < |ds| ==> (ds[j] in Remaining(ds, pend, resolves) <==> Kept(ds[j], pend[j], resolves) != [])
  {
    var rest := Remaining(ds, pend, resolves);
    forall d | d in rest ensures d in ds {
      RemainingMembers(ds, pend, resolves, d);
    }
    forall j | 0 <= j < |ds| ensures ds[j] in rest <==> Kept(ds[j], pend[j], resolves) != [] {
      RemainingMembers(ds, pend, resolves, ds[j]);
    }
  }
}

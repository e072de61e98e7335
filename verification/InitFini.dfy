/** Constructors and finalizers under one lock and one condition (libc/ldso/dynlink.c:1400-1428, 1510-1548). */
module InitFini {
  import opened Basics

  type Tid = nat
  type Dso = nat

  /** Where a call stands. Waiting calls need the lock; cond_wait may wake at any time. */
  datatype Frame =
    | InitWait(q: seq<Dso>, i: nat)     // do_init_fini before its loop, or in pthread_cond_wait
    | InitCheck(q: seq<Dso>, i: nat)    // holds the lock, about to look at q[i]
    | InitRun(q: seq<Dso>, i: nat)      // running the constructors of q[i]
    | InitRelock(q: seq<Dso>, i: nat)   // they returned, waiting for the lock
    | FiniEnter                         // __libc_exit_fini before it has the lock
    | FiniWait(rest: seq<Dso>)          // in pthread_cond_wait on rest[0]
    | FiniCheck(rest: seq<Dso>)         // holds the lock, about to look at rest[0]
    | FiniDone                          // returned, still holding the lock

  /** The calls of a thread, innermost first. */
  datatype Calls = Idle | In(top: Frame, outer: Calls)

  /** The lock, the linker's fields, each thread's calls, and what has run so far. */
  datatype State = State(
    lock: Option<Tid>,
    down: bool,                         // shutting_down
    visitor: map<Dso, Tid>,             // ctor_visitor, absent for null
    built: set<Dso>,                    // constructed
    finis: seq<Dso>,                    // from fini_head along fini_next
    stack: map<Tid, Calls>,
    started: seq<Dso>,                  // constructors, in order of their start
    ended: seq<Dso>,                    // finalizers, in order
    exiters: seq<Tid>)                  // threads that called __libc_exit_fini

  datatype Action =
    | CallInit(t: Tid, q: seq<Dso>)
    | CallExit(t: Tid)
    | Lock(t: Tid)
    | Check(t: Tid)
    | Return(t: Tid)                    // the constructors of the innermost call return

  function CallsOf(s: State, t: Tid): (c: Calls) {
    if t in s.stack then s.stack[t] else Idle
  }

  function WithCalls(s: State, t: Tid, c: Calls): (r: State) {
    s.(stack := s.stack[t := c])
  }

  /** A thread may call into the linker when it runs no linker code itself: outside, or in a constructor. */
  predicate MayCall(c: Calls) {
    c.Idle? || c.top.InitRun?
  }

  /** The next thing do_init_fini does with the lock held. fini is the set with finalizers. */
  function CheckInit(fini: set<Dso>, s: State, t: Tid, q: seq<Dso>, i: nat, outer: Calls): (r: State) {
    if i >= |q| then WithCalls(s, t, outer).(lock := None)
    else
      var p := q[i];
      if (p in s.visitor && s.visitor[p] != t) || s.down then WithCalls(s, t, In(InitWait(q, i), outer)).(lock := None)
      else if p in s.visitor || p in s.built then WithCalls(s, t, In(InitCheck(q, i + 1), outer))
      else WithCalls(s, t, In(InitRun(q, i), outer)).(
        lock := None,
        visitor := s.visitor[p := t],
        finis := (if p in fini then [p] else []) + s.finis,
        started := s.started + [p])
  }

  function CheckFini(s: State, t: Tid, rest: seq<Dso>, outer: Calls): (r: State) {
    if rest == [] then WithCalls(s, t, In(FiniDone, outer))
    else
      var p := rest[0];
      if p in s.visitor && s.visitor[p] != t then WithCalls(s, t, In(FiniWait(rest), outer)).(lock := None)
      else if p !in s.built then WithCalls(s, t, In(FiniCheck(rest[1..]), outer))
      else WithCalls(s, t, In(FiniCheck(rest[1..]), outer)).(ended := s.ended + [p])
  }

  /** What a call does on getting the lock. */
  function Locked(s: State, t: Tid, f: Frame, outer: Calls): (r: State) {
    match f
    case InitWait(q, i) => WithCalls(s, t, In(InitCheck(q, i), outer)).(lock := Some(t))
    case InitRelock(q, i) =>
      if i < |q| then
        WithCalls(s, t, In(InitCheck(q, i + 1), outer)).(
          lock := Some(t), visitor := s.visitor - {q[i]}, built := s.built + {q[i]})
      else s
    case FiniEnter => WithCalls(s, t, In(FiniCheck(s.finis), outer)).(lock := Some(t), down := true)
    case FiniWait(rest) => WithCalls(s, t, In(FiniCheck(rest), outer)).(lock := Some(t))
    case _ => s
  }

  /** One step of one thread; an action that is not possible changes nothing. */
  function Do(fini: set<Dso>, s: State, a: Action): (r: State) {
    var c := CallsOf(s, a.t);
    match a
    case CallInit(t, q) => if MayCall(c) then WithCalls(s, t, In(InitWait(q, 0), c)) else s
    case CallExit(t) =>
      if MayCall(c) then WithCalls(s, t, In(FiniEnter, c)).(exiters := s.exiters + [t]) else s
    case Lock(t) => if s.lock.None? && c.In? then Locked(s, t, c.top, c.outer) else s
    case Check(t) =>
      if c.Idle? then s
      else (match c.top
        case InitCheck(q, i) => CheckInit(fini, s, t, q, i, c.outer)
        case FiniCheck(rest) => CheckFini(s, t, rest, c.outer)
        case _ => s)
    case Return(t) =>
      if c.In? && c.top.InitRun? then WithCalls(s, t, In(InitRelock(c.top.q, c.top.i), c.outer)) else s
  }

  function Initial(): (s: State) {
    State(None, false, map[], {}, [], map[], [], [], [])
  }

  function Run(fini: set<Dso>, acts: seq<Action>): (s: State) {
    if acts == [] then Initial()
    else Do(fini, Run(fini, acts[..|acts| - 1]), acts[|acts| - 1])
  }

  // ---- Invariants ----

  predicate Holds(f: Frame) {
    f.InitCheck? || f.FiniCheck? || f.FiniDone?
  }

  predicate Init(f: Frame) {
    f.InitWait? || f.InitCheck? || f.InitRun? || f.InitRelock?
  }

  /** The call is between marking q[i] as visited and recording it as constructed. */
  predicate Busy(f: Frame) {
    f.InitRun? || f.InitRelock?
  }

  function Obj(f: Frame): (p: Dso) {
    if Busy(f) && f.i < |f.q| then f.q[f.i] else 0
  }

  /** Constructed, or being visited by thread t. */
  ghost predicate Settled(s: State, t: Tid, p: Dso) {
    p in s.built || (p in s.visitor && s.visitor[p] == t)
  }

  /** What a call has passed in its queue is settled; a busy call's object is marked with its thread. */
  ghost predicate FrameOk(s: State, t: Tid, f: Frame) {
    && (Init(f) ==> f.i <= |f.q| && forall m :: 0 <= m < f.i ==> Settled(s, t, f.q[m]))
    && (Busy(f) ==> f.i < |f.q| && Obj(f) in s.visitor && s.visitor[Obj(f)] == t)
  }

  ghost function BusyWith(c: Calls): (r: set<Dso>) {
    if c.Idle? then {} else (if Busy(c.top) then {Obj(c.top)} else {}) + BusyWith(c.outer)
  }

  /** Every call is in order, and no two calls of a thread are busy with one object. */
  ghost predicate CallsOk(s: State, t: Tid, c: Calls) {
    c.In? ==>
      && FrameOk(s, t, c.top) && CallsOk(s, t, c.outer)
      && (Busy(c.top) ==> Obj(c.top) !in BusyWith(c.outer))
  }

  /** Outer calls run constructors. */
  ghost predicate AllRun(c: Calls) {
    c.In? ==> c.top.InitRun? && AllRun(c.outer)
  }

  ghost predicate ThreadOk(s: State, t: Tid) {
    var c := CallsOf(s, t);
    && (s.lock == Some(t) <==> c.In? && Holds(c.top))
    && (c.In? ==> AllRun(c.outer))
    && CallsOk(s, t, c)
  }

  ghost predicate ThreadsOk(s: State) {
    forall t: Tid :: ThreadOk(s, t)
  }

  /** The elements of s that are in keep, last first. */
  ghost function RevFilter(s: seq<Dso>, keep: set<Dso>): (r: seq<Dso>) {
    if s == [] then [] else
    var n := |s| - 1;
    (if s[n] in keep then [s[n]] else []) + RevFilter(s[..n], keep)
  }

  /** Started objects are the visited and the constructed ones, once each; the finalizer list
      is their reversal. */
  ghost predicate StartInv(fini: set<Dso>, s: State) {
    && NoDup(s.started)
    && (forall p :: p in s.started <==> p in s.visitor || p in s.built)
    && (forall p :: p in s.visitor ==> p !in s.built)
    && s.finis == RevFilter(s.started, fini)
  }

  ghost predicate Suffix(rest: seq<Dso>, s: seq<Dso>) {
    |rest| <= |s| && rest == s[|s| - |rest|..]
  }

  /** A finalizing call works through the finalizer list, which no longer changes. */
  ghost predicate FiniOk(s: State, t: Tid) {
    var c := CallsOf(s, t);
    c.In? && (c.top.FiniWait? || c.top.FiniCheck?) ==> s.down && Suffix(c.top.rest, s.finis)
  }

  /** Only constructed objects with finalizers are finalized. */
  ghost predicate FiniInv(fini: set<Dso>, s: State) {
    && (forall t: Tid :: FiniOk(s, t))
    && (forall p :: p in s.ended ==> p in s.built && p in fini)
  }

  /** r keeps what thread u relies on in s. */
  ghost predicate Spares(s: State, r: State, u: Tid) {
    && CallsOf(r, u) == CallsOf(s, u)
    && (r.lock == Some(u) <==> s.lock == Some(u))
    && (forall p :: Settled(s, u, p) ==> Settled(r, u, p))
    && (forall p :: p in s.visitor && s.visitor[p] == u ==> p in r.visitor && r.visitor[p] == u)
  }

  /** t's step leaves what other threads rely on. */
  ghost predicate Harmless(s: State, r: State, t: Tid) {
    forall u: Tid :: u != t ==> Spares(s, r, u)
  }

  lemma {:induction false} CallsKeep(s: State, r: State, t: Tid, c: Calls)
    requires CallsOk(s, t, c)
    requires forall p :: Settled(s, t, p) ==> Settled(r, t, p)
    requires forall p :: p in BusyWith(c) ==> p in r.visitor && r.visitor[p] == t
    ensures CallsOk(r, t, c)
  {
    if c.In? {
      CallsKeep(s, r, t, c.outer);
    }
  }

  lemma {:induction false} BusyMarked(s: State, t: Tid, c: Calls, p: Dso)
    requires CallsOk(s, t, c) && p in BusyWith(c)
    ensures p in s.visitor && s.visitor[p] == t
  {
    if !(Busy(c.top) && p == Obj(c.top)) {
      BusyMarked(s, t, c.outer, p);
    }
  }

  lemma OthersKeep(s: State, r: State, t: Tid)
    requires ThreadsOk(s) && Harmless(s, r, t) && ThreadOk(r, t)
    ensures ThreadsOk(r)
  {
    forall u: Tid ensures ThreadOk(r, u) {
      if u != t {
        assert ThreadOk(s, u) && Spares(s, r, u);
        forall p | p in BusyWith(CallsOf(s, u)) ensures p in r.visitor && r.visitor[p] == u {
          BusyMarked(s, u, CallsOf(s, u), p);
        }
        CallsKeep(s, r, u, CallsOf(s, u));
      }
    }
  }

  lemma LockHarmless(fini: set<Dso>, s: State, a: Action, u: Tid)
    requires ThreadOk(s, a.t) && u != a.t
    ensures var r := Do(fini, s, a); CallsOf(r, u) == CallsOf(s, u) && (r.lock == Some(u) <==> s.lock == Some(u))
  {
  }

  lemma MarksHarmless(fini: set<Dso>, s: State, r: State, t: Tid, p: Dso, u: Tid)
    requires Quiet(s, r) || Starts(fini, s, r, t, p) || Records(s, r, t, p)
    requires u != t
    ensures forall q :: Settled(s, u, q) ==> Settled(r, u, q)
    ensures forall q :: q in s.visitor && s.visitor[q] == u ==> q in r.visitor && r.visitor[q] == u
  {
  }

  lemma StepHarmless(fini: set<Dso>, s: State, a: Action)
    requires ThreadsOk(s)
    ensures Harmless(s, Do(fini, s, a), a.t)
  {
    assert ThreadOk(s, a.t);
    var p := StepKinds(fini, s, a);
    forall u: Tid | u != a.t ensures Spares(s, Do(fini, s, a), u) {
      LockHarmless(fini, s, a, u);
      MarksHarmless(fini, s, Do(fini, s, a), a.t, p, u);
    }
  }

  /** The thread's own calls after a step that keeps visitor and built. */
  lemma SameMarks(s: State, r: State, t: Tid, c: Calls)
    requires CallsOk(s, t, c) && r.visitor == s.visitor && r.built == s.built
    ensures CallsOk(r, t, c)
  {
    forall p | p in BusyWith(c) ensures p in r.visitor && r.visitor[p] == t { BusyMarked(s, t, c, p); }
    CallsKeep(s, r, t, c);
  }

  lemma OwnCall(fini: set<Dso>, s: State, a: Action)
    requires ThreadOk(s, a.t) && (a.CallInit? || a.CallExit? || a.Return?)
    ensures ThreadOk(Do(fini, s, a), a.t)
  {
    var c := CallsOf(s, a.t);
    SameMarks(s, Do(fini, s, a), a.t, c);
    if c.In? { SameMarks(s, Do(fini, s, a), a.t, c.outer); }
  }

  lemma OwnLock(fini: set<Dso>, s: State, t: Tid)
    requires ThreadOk(s, t)
    ensures ThreadOk(Do(fini, s, Lock(t)), t)
  {
    var c, r := CallsOf(s, t), Do(fini, s, Lock(t));
    if s.lock.None? && c.In? {
      forall p | p in BusyWith(c.outer) ensures p in r.visitor && r.visitor[p] == t { BusyMarked(s, t, c.outer, p); }
      CallsKeep(s, r, t, c.outer);
      if c.top.InitRelock? {
        assert Settled(r, t, Obj(c.top));
      }
    }
  }

  lemma OwnCheck(fini: set<Dso>, s: State, t: Tid)
    requires ThreadOk(s, t)
    ensures ThreadOk(Do(fini, s, Check(t)), t)
  {
    var c, r := CallsOf(s, t), Do(fini, s, Check(t));
    if c.In? {
      match c.top {
        case InitCheck(q, i) => OwnCheckInit(fini, s, t, q, i, c.outer);
        case FiniCheck(rest) => SameMarks(s, r, t, c.outer);
        case _ =>
      }
    }
  }

  lemma OwnCheckInit(fini: set<Dso>, s: State, t: Tid, q: seq<Dso>, i: nat, outer: Calls)
    requires ThreadOk(s, t) && CallsOf(s, t) == In(InitCheck(q, i), outer)
    ensures ThreadOk(CheckInit(fini, s, t, q, i, outer), t)
  {
    var r := CheckInit(fini, s, t, q, i, outer);
    forall p | p in BusyWith(outer) ensures p in s.visitor && s.visitor[p] == t { BusyMarked(s, t, outer, p); }
    CallsKeep(s, r, t, outer);
    assert FrameOk(s, t, InitCheck(q, i));
  }

  lemma ThreadsStep(fini: set<Dso>, s: State, a: Action)
    requires ThreadsOk(s)
    ensures ThreadsOk(Do(fini, s, a))
  {
    assert ThreadOk(s, a.t);
    StepHarmless(fini, s, a);
    match a {
      case Lock(t) => OwnLock(fini, s, t);
      case Check(t) => OwnCheck(fini, s, t);
      case _ => OwnCall(fini, s, a);
    }
    OthersKeep(s, Do(fini, s, a), a.t);
  }

  /** A step that marks, records and starts nothing. */
  ghost predicate Quiet(s: State, r: State) {
    r.visitor == s.visitor && r.built == s.built && r.started == s.started && r.finis == s.finis
  }

  /** A step that starts the constructors of p. */
  ghost predicate Starts(fini: set<Dso>, s: State, r: State, t: Tid, p: Dso) {
    && !s.down && p !in s.visitor && p !in s.built
    && r.visitor == s.visitor[p := t] && r.built == s.built
    && r.started == s.started + [p] && r.finis == (if p in fini then [p] else []) + s.finis
    && r.ended == s.ended && r.down == s.down
  }

  /** A step that records p as constructed. */
  ghost predicate Records(s: State, r: State, t: Tid, p: Dso) {
    && p in s.visitor && s.visitor[p] == t
    && r.visitor == s.visitor - {p} && r.built == s.built + {p}
    && r.started == s.started && r.finis == s.finis && r.ended == s.ended
  }

  lemma StepKinds(fini: set<Dso>, s: State, a: Action) returns (p: Dso)
    requires ThreadOk(s, a.t)
    ensures var r := Do(fini, s, a); Quiet(s, r) || Starts(fini, s, r, a.t, p) || Records(s, r, a.t, p)
  {
    var c := CallsOf(s, a.t);
    p := if c.In? && Init(c.top) && c.top.i < |c.top.q| then c.top.q[c.top.i] else 0;
  }

  lemma StartStep(fini: set<Dso>, s: State, a: Action)
    requires ThreadsOk(s) && StartInv(fini, s)
    ensures StartInv(fini, Do(fini, s, a))
  {
    assert ThreadOk(s, a.t);
    var r := Do(fini, s, a);
    var p := StepKinds(fini, s, a);
    if Starts(fini, s, r, a.t, p) {
      assert r.started[..|s.started|] == s.started;
    }
  }

  lemma {:induction false} RevFilterMembers(s: seq<Dso>, keep: set<Dso>)
    ensures forall p :: p in RevFilter(s, keep) <==> p in s && p in keep
  {
    if s != [] {
      RevFilterMembers(s[..|s| - 1], keep);
      assert s == s[..|s| - 1] + [s[|s| - 1]];
    }
  }

  lemma FiniStep(fini: set<Dso>, s: State, a: Action)
    requires ThreadsOk(s) && StartInv(fini, s) && FiniInv(fini, s)
    ensures FiniInv(fini, Do(fini, s, a))
  {
    var r := Do(fini, s, a);
    assert ThreadOk(s, a.t) && FiniOk(s, a.t);
    FiniOwn(fini, s, a);
    FiniOthers(fini, s, a);
    EndedStep(fini, s, a);
  }

  lemma FiniOwn(fini: set<Dso>, s: State, a: Action)
    requires ThreadOk(s, a.t) && FiniOk(s, a.t)
    ensures FiniOk(Do(fini, s, a), a.t)
  {
  }

  lemma FiniOthers(fini: set<Dso>, s: State, a: Action)
    requires ThreadsOk(s) && forall t: Tid :: FiniOk(s, t)
    ensures forall t: Tid :: t != a.t ==> FiniOk(Do(fini, s, a), t)
  {
    var r := Do(fini, s, a);
    assert ThreadOk(s, a.t);
    var p := StepKinds(fini, s, a);
    StepHarmless(fini, s, a);
    forall t: Tid | t != a.t ensures FiniOk(r, t) {
      assert FiniOk(s, t) && Spares(s, r, t);
    }
  }

  lemma EndedStep(fini: set<Dso>, s: State, a: Action)
    requires ThreadOk(s, a.t) && FiniOk(s, a.t) && StartInv(fini, s)
    requires forall p :: p in s.ended ==> p in s.built && p in fini
    ensures var r := Do(fini, s, a); forall p :: p in r.ended ==> p in r.built && p in fini
  {
    RevFilterMembers(s.started, fini);
    var p := StepKinds(fini, s, a);
    var c := CallsOf(s, a.t);
    if a.Check? && c.In? && c.top.FiniCheck? && c.top.rest != [] {
      assert c.top.rest[0] in s.finis;
    }
  }

  // ---- A single exit ----

  predicate FiniTop(c: Calls) {
    c.In? && (c.top.FiniEnter? || c.top.FiniWait? || c.top.FiniCheck? || c.top.FiniDone?)
  }

  /** The elements of s that are in keep, in order. */
  ghost function Filter(s: seq<Dso>, keep: set<Dso>): (r: seq<Dso>) {
    if s == [] then [] else
    var n := |s| - 1;
    Filter(s[..n], keep) + (if s[n] in keep then [s[n]] else [])
  }

  /** The first k entries of the finalizer list are dealt with by thread e. */
  ghost predicate Dealt(s: State, e: Tid, k: nat) {
    && k <= |s.finis| && s.ended == Filter(s.finis[..k], s.built)
    && forall j :: 0 <= j < k ==> Settled(s, e, s.finis[j])
  }

  ghost predicate Progress(s: State, e: Tid, f: Frame) {
    match f
    case FiniEnter => !s.down && s.ended == []
    case FiniWait(rest) => |rest| <= |s.finis| && Dealt(s, e, |s.finis| - |rest|)
    case FiniCheck(rest) => |rest| <= |s.finis| && Dealt(s, e, |s.finis| - |rest|)
    case FiniDone => s.down && Dealt(s, e, |s.finis|)
    case _ => false
  }

  ghost predicate ExitInv(s: State) {
    && (s.exiters == [] ==> !s.down && s.ended == [] && forall t: Tid :: !FiniTop(CallsOf(s, t)))
    && (|s.exiters| == 1 ==>
          var e := s.exiters[0];
          && (forall t: Tid :: FiniTop(CallsOf(s, t)) ==> t == e)
          && FiniTop(CallsOf(s, e)) && Progress(s, e, CallsOf(s, e).top))
  }

  lemma {:induction false} FilterGrows(s: seq<Dso>, keep: set<Dso>, p: Dso)
    requires p !in s
    ensures Filter(s, keep + {p}) == Filter(s, keep)
  {
    if s != [] {
      assert s[|s| - 1] in s;
      FilterGrows(s[..|s| - 1], keep, p);
    }
  }

  /** Another thread recording its object does not disturb what e has dealt with. */
  lemma DealtKeeps(fini: set<Dso>, s: State, r: State, e: Tid, k: nat, t: Tid, p: Dso)
    requires Dealt(s, e, k) && t != e && StartInv(fini, s)
    requires r.ended == s.ended && r.finis == s.finis
    requires Quiet(s, r) || Records(s, r, t, p)
    ensures Dealt(r, e, k)
  {
    if Records(s, r, t, p) {
      forall j | 0 <= j < k ensures s.finis[j] != p && Settled(r, e, s.finis[j]) {
        assert Settled(s, e, s.finis[j]);
      }
      FilterGrows(s.finis[..k], s.built, p);
    }
  }

  lemma ExitOther(fini: set<Dso>, s: State, a: Action)
    requires ThreadsOk(s) && StartInv(fini, s) && FiniInv(fini, s) && ExitInv(s)
    requires |s.exiters| == 1 && a.t != s.exiters[0]
    ensures ExitInv(Do(fini, s, a))
  {
    var e, r := s.exiters[0], Do(fini, s, a);
    assert ThreadOk(s, a.t) && FiniOk(s, e);
    StepHarmless(fini, s, a);
    var p := StepKinds(fini, s, a);
    QuietForFini(fini, s, a);
    assert Spares(s, r, e);
    OthersOutside(s, r, a.t);
    match CallsOf(s, e).top {
      case FiniWait(rest) => DealtKeeps(fini, s, r, e, |s.finis| - |rest|, a.t, p);
      case FiniCheck(rest) => DealtKeeps(fini, s, r, e, |s.finis| - |rest|, a.t, p);
      case FiniDone => DealtKeeps(fini, s, r, e, |s.finis|, a.t, p);
      case _ =>
    }
  }

  /** A thread outside __libc_exit_fini neither shuts down nor finalizes. */
  lemma QuietForFini(fini: set<Dso>, s: State, a: Action)
    requires ThreadOk(s, a.t) && !FiniTop(CallsOf(s, a.t))
    ensures var r := Do(fini, s, a);
      && r.down == s.down && r.ended == s.ended
      && (r.exiters == s.exiters || r.exiters == s.exiters + [a.t])
      && (r.exiters == s.exiters <==> !FiniTop(CallsOf(r, a.t)))
      && (FiniTop(CallsOf(r, a.t)) ==> CallsOf(r, a.t).top == FiniEnter)
  {
  }

  lemma ExitNone(fini: set<Dso>, s: State, a: Action)
    requires ThreadsOk(s) && ExitInv(s) && s.exiters == []
    ensures ExitInv(Do(fini, s, a))
  {
    assert ThreadOk(s, a.t);
    StepHarmless(fini, s, a);
    OthersOutside(s, Do(fini, s, a), a.t);
    QuietForFini(fini, s, a);
  }

  lemma DealtNext(fini: set<Dso>, s: State, r: State, e: Tid, k: nat)
    requires Dealt(s, e, k) && k < |s.finis| && Settled(s, e, s.finis[k]) && Quiet(s, r)
    requires r.ended == s.ended + (if s.finis[k] in s.built then [s.finis[k]] else [])
    ensures Dealt(r, e, k + 1)
  {
    assert s.finis[..k + 1][..k] == s.finis[..k];
    forall j | 0 <= j < k + 1 ensures Settled(r, e, s.finis[j]) {
      assert Settled(s, e, s.finis[j]);
    }
  }

  lemma DealtSame(s: State, r: State, e: Tid, k: nat)
    requires Dealt(s, e, k) && Quiet(s, r) && r.ended == s.ended
    ensures Dealt(r, e, k)
  {
    forall j | 0 <= j < k ensures Settled(r, e, r.finis[j]) { assert Settled(s, e, s.finis[j]); }
  }

  lemma RestAt(s: State, rest: seq<Dso>)
    requires Suffix(rest, s.finis) && rest != []
    ensures s.finis[|s.finis| - |rest|] == rest[0] && rest[0] in s.finis
  {
  }

  /** The loop of __libc_exit_fini passes rest[0]. */
  lemma ExitPasses(fini: set<Dso>, s: State, e: Tid, rest: seq<Dso>, outer: Calls)
    requires s.down && Suffix(rest, s.finis) && StartInv(fini, s) && Dealt(s, e, |s.finis| - |rest|)
    requires rest != [] && !(rest[0] in s.visitor && s.visitor[rest[0]] != e)
    ensures Dealt(CheckFini(s, e, rest, outer), e, |s.finis| - |rest| + 1)
  {
    RestAt(s, rest);
    RevFilterMembers(s.started, fini);
    DealtNext(fini, s, CheckFini(s, e, rest, outer), e, |s.finis| - |rest|);
  }

  lemma ExitCheck(fini: set<Dso>, s: State, e: Tid, rest: seq<Dso>, outer: Calls)
    requires s.down && Suffix(rest, s.finis) && StartInv(fini, s) && Dealt(s, e, |s.finis| - |rest|)
    ensures var r := CheckFini(s, e, rest, outer);
      FiniTop(CallsOf(r, e)) && Progress(r, e, CallsOf(r, e).top) && r.exiters == s.exiters
  {
    var r := CheckFini(s, e, rest, outer);
    if rest == [] || (rest[0] in s.visitor && s.visitor[rest[0]] != e) {
      DealtSame(s, r, e, |s.finis| - |rest|);
    } else {
      ExitPasses(fini, s, e, rest, outer);
    }
  }

  /** __libc_exit_fini gets the lock. */
  lemma ExitLocks(s: State, e: Tid, f: Frame, outer: Calls)
    requires Progress(s, e, f)
    ensures Locked(s, e, f, outer).exiters == s.exiters
    ensures var r := Locked(s, e, f, outer);
      if f.FiniEnter? || f.FiniWait? then FiniTop(CallsOf(r, e)) && Progress(r, e, CallsOf(r, e).top) else r == s
  {
    var r := Locked(s, e, f, outer);
    match f {
      case FiniEnter => assert Filter(s.finis[..0], s.built) == [];
      case FiniWait(rest) => DealtSame(s, r, e, |s.finis| - |rest|);
      case _ =>
    }
  }

  /** The calls of the other threads are in __libc_exit_fini after the step if they were before. */
  lemma OthersOutside(s: State, r: State, t: Tid)
    requires Harmless(s, r, t)
    ensures forall u: Tid :: u != t && FiniTop(CallsOf(r, u)) ==> FiniTop(CallsOf(s, u))
  {
    forall u: Tid | u != t ensures FiniTop(CallsOf(r, u)) ==> FiniTop(CallsOf(s, u)) {
      assert Spares(s, r, u);
    }
  }

  lemma ExitMoves(fini: set<Dso>, s: State, a: Action)
    requires ThreadOk(s, a.t) && FiniOk(s, a.t) && StartInv(fini, s)
    requires FiniTop(CallsOf(s, a.t)) && Progress(s, a.t, CallsOf(s, a.t).top)
    ensures var r := Do(fini, s, a);
      r.exiters == s.exiters && FiniTop(CallsOf(r, a.t)) && Progress(r, a.t, CallsOf(r, a.t).top)
  {
    var c := CallsOf(s, a.t);
    if a.Check? && c.top.FiniCheck? {
      ExitCheck(fini, s, a.t, c.top.rest, c.outer);
    } else if a.Lock? {
      ExitLocks(s, a.t, c.top, c.outer);
    } else {
      assert Do(fini, s, a) == s;
    }
  }

  lemma ExitOwn(fini: set<Dso>, s: State, a: Action)
    requires ThreadsOk(s) && StartInv(fini, s) && FiniInv(fini, s) && ExitInv(s)
    requires |s.exiters| == 1 && a.t == s.exiters[0]
    ensures ExitInv(Do(fini, s, a))
  {
    assert ThreadOk(s, a.t) && FiniOk(s, a.t);
    StepHarmless(fini, s, a);
    OthersOutside(s, Do(fini, s, a), a.t);
    ExitMoves(fini, s, a);
  }

  lemma ExitStep(fini: set<Dso>, s: State, a: Action)
    requires ThreadsOk(s) && StartInv(fini, s) && FiniInv(fini, s) && ExitInv(s)
    ensures ExitInv(Do(fini, s, a))
  {
    if s.exiters == [] {
      ExitNone(fini, s, a);
    } else if |s.exiters| == 1 {
      if a.t == s.exiters[0] { ExitOwn(fini, s, a); } else { ExitOther(fini, s, a); }
    } else {
      assert |Do(fini, s, a).exiters| >= 2;
    }
  }

  // ---- Every run ----

  lemma {:induction false} RunInv(fini: set<Dso>, acts: seq<Action>)
    ensures var s := Run(fini, acts); ThreadsOk(s) && StartInv(fini, s) && FiniInv(fini, s) && ExitInv(s)
  {
    if acts != [] {
      var n := |acts| - 1;
      RunInv(fini, acts[..n]);
      ThreadsStep(fini, Run(fini, acts[..n]), acts[n]);
      StartStep(fini, Run(fini, acts[..n]), acts[n]);
      FiniStep(fini, Run(fini, acts[..n]), acts[n]);
      ExitStep(fini, Run(fini, acts[..n]), acts[n]);
    } else {
      assert forall t: Tid :: CallsOf(Initial(), t) == Idle;
    }
  }

  /** In every interleaving, constructors of each object start at most once. */
  lemma StartedOnce(fini: set<Dso>, acts: seq<Action>)
    ensures NoDup(Run(fini, acts).started)
  {
    RunInv(fini, acts);
  }

  /** Once shutting_down is set, it stays set and no constructors start. */
  lemma {:induction false} NoneAfterShutdown(fini: set<Dso>, acts: seq<Action>, more: seq<Action>)
    requires Run(fini, acts).down
    ensures Run(fini, acts + more).down && Run(fini, acts + more).started == Run(fini, acts).started
    decreases |more|
  {
    if more == [] {
      assert acts + more == acts;
    } else {
      var n := |more| - 1;
      NoneAfterShutdown(fini, acts, more[..n]);
      assert (acts + more)[..|acts + more| - 1] == acts + more[..n];
      DownStays(fini, Run(fini, acts + more[..n]), more[n]);
    }
  }

  lemma DownStays(fini: set<Dso>, s: State, a: Action)
    requires s.down
    ensures Do(fini, s, a).down && Do(fini, s, a).started == s.started
  {
  }

  lemma OuterLess(c: Calls)
    requires c.In?
    ensures Depth(c) == Depth(c.outer) + 1 && c != c.outer
  {
  }

  function Depth(c: Calls): (n: nat) {
    if c.Idle? then 0 else 1 + Depth(c.outer)
  }

  /** Whenever do_init_fini returns, every queued object is constructed or being visited by its caller. */
  lemma ReturnsSettled(fini: set<Dso>, acts: seq<Action>, a: Action, t: Tid)
    requires CallsOf(Run(fini, acts), t).In? && Init(CallsOf(Run(fini, acts), t).top)
    requires CallsOf(Run(fini, acts + [a]), t) == CallsOf(Run(fini, acts), t).outer
    ensures forall p :: p in CallsOf(Run(fini, acts), t).top.q ==> Settled(Run(fini, acts + [a]), t, p)
  {
    RunInv(fini, acts);
    Then(fini, acts, a);
    var s := Run(fini, acts);
    assert ThreadOk(s, t) && FrameOk(s, t, CallsOf(s, t).top);
    OnlyAtEnd(fini, s, a, t);
  }

  /** It does so only at the end of its queue, with the lock held. */
  lemma OnlyAtEnd(fini: set<Dso>, s: State, a: Action, t: Tid)
    requires var c := CallsOf(s, t); c.In? && Init(c.top) && CallsOf(Do(fini, s, a), t) == c.outer
    ensures var f := CallsOf(s, t).top; a == Check(t) && f.InitCheck? && f.i >= |f.q|
  {
    OuterLess(CallsOf(s, t));
    OuterLess(In(CallsOf(s, t).top, CallsOf(s, t)));
  }

  // ---- No return while shutting down ----

  /** The call at depth d, counted from the outermost. */
  function FrameAt(c: Calls, d: nat): (f: Frame)
    requires 1 <= d <= Depth(c)
  {
    if Depth(c) == d then c.top else FrameAt(c.outer, d)
  }

  /** A call of do_init_fini that has an object to come. */
  predicate Unpassed(f: Frame, q: seq<Dso>) {
    Init(f) && f.q == q && if Busy(f) then f.i + 1 < |q| else f.i < |q|
  }

  ghost predicate Held(s: State, t: Tid, d: nat, q: seq<Dso>) {
    1 <= d <= Depth(CallsOf(s, t)) && Unpassed(FrameAt(CallsOf(s, t), d), q)
  }

  lemma HeldStep(fini: set<Dso>, s: State, a: Action, t: Tid, d: nat, q: seq<Dso>)
    requires s.down && ThreadOk(s, t) && Held(s, t, d, q)
    ensures Held(Do(fini, s, a), t, d, q)
  {
    var c, c' := CallsOf(s, t), CallsOf(Do(fini, s, a), t);
    if a.t == t {
      OuterLess(c);
      if c'.In? { OuterLess(c'); }
    }
  }

  /** Once shutting down, a call with an object to come never returns. */
  lemma {:induction false} NoReturnWhileDown(fini: set<Dso>, acts: seq<Action>, more: seq<Action>, t: Tid, d: nat, q: seq<Dso>)
    requires Run(fini, acts).down && Held(Run(fini, acts), t, d, q)
    ensures Held(Run(fini, acts + more), t, d, q)
    decreases |more|
  {
    if more == [] {
      assert acts + more == acts;
    } else {
      var n := |more| - 1;
      NoReturnWhileDown(fini, acts, more[..n], t, d, q);
      NoneAfterShutdown(fini, acts, more[..n]);
      assert (acts + more)[..|acts + more| - 1] == acts + more[..n];
      RunInv(fini, acts + more[..n]);
      assert ThreadOk(Run(fini, acts + more[..n]), t);
      HeldStep(fini, Run(fini, acts + more[..n]), more[n], t, d, q);
    }
  }

  /** The objects that the calls of a thread are busy with, innermost first. */
  ghost function BusyList(c: Calls): (r: seq<Dso>) {
    if c.Idle? then [] else (if Busy(c.top) then [Obj(c.top)] else []) + BusyList(c.outer)
  }

  lemma {:induction false} BusyListed(c: Calls)
    ensures forall p :: p in BusyList(c) <==> p in BusyWith(c)
  {
    if c.In? { BusyListed(c.outer); }
  }

  lemma {:induction false} BusyOnce(s: State, t: Tid, c: Calls)
    requires CallsOk(s, t, c)
    ensures NoDup(BusyList(c))
  {
    if c.In? {
      BusyOnce(s, t, c.outer);
      BusyListed(c.outer);
    }
  }

  /** No two threads, and no two calls of one thread, run constructors of one object at a time. */
  lemma RunsAlone(fini: set<Dso>, acts: seq<Action>, t: Tid, u: Tid, p: Dso)
    requires p in BusyList(CallsOf(Run(fini, acts), t)) && p in BusyList(CallsOf(Run(fini, acts), u))
    ensures t == u && NoDup(BusyList(CallsOf(Run(fini, acts), t)))
  {
    RunInv(fini, acts);
    var s := Run(fini, acts);
    assert ThreadOk(s, t) && ThreadOk(s, u);
    BusyListed(CallsOf(s, t));
    BusyListed(CallsOf(s, u));
    BusyMarked(s, t, CallsOf(s, t), p);
    BusyMarked(s, u, CallsOf(s, u), p);
    BusyOnce(s, t, CallsOf(s, t));
  }

  lemma {:induction false} RevFilterNoDup(s: seq<Dso>, keep: set<Dso>)
    requires NoDup(s)
    ensures NoDup(RevFilter(s, keep))
  {
    if s != [] {
      var n := |s| - 1;
      RevFilterNoDup(s[..n], keep);
      RevFilterMembers(s[..n], keep);
    }
  }

  lemma {:induction false} FilterNoDup(s: seq<Dso>, keep: set<Dso>)
    requires NoDup(s)
    ensures NoDup(Filter(s, keep)) && forall p :: p in Filter(s, keep) ==> p in s
  {
    if s != [] {
      var n := |s| - 1;
      FilterNoDup(s[..n], keep);
      assert forall p :: p in s[..n] ==> p in s && p != s[n];
      var f := Filter(s[..n], keep);
      assert forall i :: 0 <= i < |f| ==> f[i] in f;
    }
  }

  lemma {:induction false} FilterAppend(s: seq<Dso>, t: seq<Dso>, keep: set<Dso>)
    ensures Filter(s + t, keep) == Filter(s, keep) + Filter(t, keep)
  {
    if t == [] {
      assert s + t == s;
    } else {
      var n := |t| - 1;
      FilterAppend(s, t[..n], keep);
      assert (s + t)[..|s + t| - 1] == s + t[..n];
    }
  }

  lemma {:induction false} FilterRev(s: seq<Dso>, keep: set<Dso>, more: set<Dso>)
    ensures Filter(RevFilter(s, keep), more) == RevFilter(s, keep * more)
  {
    if s != [] {
      var n := |s| - 1;
      FilterRev(s[..n], keep, more);
      var head := if s[n] in keep then [s[n]] else [];
      FilterAppend(head, RevFilter(s[..n], keep), more);
      assert Filter(head, more) == if s[n] in keep * more then [s[n]] else [];
    }
  }

  /** With a single exit, finalizers have run once each, for constructed objects only, in reverse
      order of constructor start. */
  lemma FinalizedInReverse(fini: set<Dso>, acts: seq<Action>)
    requires |Run(fini, acts).exiters| <= 1
    ensures var s := Run(fini, acts);
      && NoDup(s.ended) && (forall p :: p in s.ended ==> p in s.built && p in fini)
      && exists k :: 0 <= k <= |RevFilter(s.started, fini)| && s.ended == Filter(RevFilter(s.started, fini)[..k], s.built)
  {
    RunInv(fini, acts);
    var s := Run(fini, acts);
    RevFilterNoDup(s.started, fini);
    assert Filter(s.finis[..0], s.built) == [];
    var k :| 0 <= k <= |s.finis| && s.ended == Filter(s.finis[..k], s.built);
    FilterNoDup(s.finis[..k], s.built);
  }

  /** When __libc_exit_fini returns, every constructed object with finalizers has been finalized. */
  lemma FinalizedAll(fini: set<Dso>, acts: seq<Action>)
    requires |Run(fini, acts).exiters| == 1
    requires CallsOf(Run(fini, acts), Run(fini, acts).exiters[0]).In?
    requires CallsOf(Run(fini, acts), Run(fini, acts).exiters[0]).top == FiniDone
    ensures var s := Run(fini, acts); s.ended == RevFilter(s.started, fini * s.built)
  {
    RunInv(fini, acts);
    var s := Run(fini, acts);
    assert s.finis[..|s.finis|] == s.finis;
    FilterRev(s.started, fini, s.built);
  }

  // ---- Two exits ----

  lemma Then(fini: set<Dso>, acts: seq<Action>, a: Action)
    ensures Run(fini, acts + [a]) == Do(fini, Run(fini, acts), a)
  {
    assert (acts + [a])[..|acts|] == acts;
  }

  /** Thread 1 starts object 0 and stays in its constructors. */
  lemma TwoExitsA() returns (acts: seq<Action>)
    ensures Run({0, 1}, acts) ==
      State(None, false, map[0 := 1], {}, [0], map[1 := In(InitRun([0], 0), Idle)], [0], [], [])
  {
    acts := [];
    Then({0, 1}, acts, CallInit(1, [0]));
    acts := acts + [CallInit(1, [0])];
    Then({0, 1}, acts, Lock(1));
    acts := acts + [Lock(1)];
    Then({0, 1}, acts, Check(1));
    acts := acts + [Check(1)];
  }

  /** Thread 2 starts object 1 */
  lemma TwoExitsB() returns (acts: seq<Action>)
    ensures Run({0, 1}, acts) ==
      State(None, false, map[0 := 1, 1 := 2], {}, [1, 0],
            map[1 := In(InitRun([0], 0), Idle), 2 := In(InitRun([1], 0), Idle)], [0, 1], [], [])
  {
    acts := TwoExitsA();
    var m := Run({0, 1}, acts);
    Then({0, 1}, acts, CallInit(2, [1]));
    acts := acts + [CallInit(2, [1])];
    Then({0, 1}, acts, Lock(2));
    acts := acts + [Lock(2)];
    Then({0, 1}, acts, Check(2));
    acts := acts + [Check(2)];
    FirstStarts({0, 1}, m, 2, 1);
  }

  /** A thread outside the linker starts an object that no thread visits. */
  lemma FirstStarts(fini: set<Dso>, s: State, t: Tid, p: Dso)
    requires s.lock == None && CallsOf(s, t) == Idle && !s.down && p !in s.visitor && p !in s.built && p in fini
    ensures Do(fini, Do(fini, Do(fini, s, CallInit(t, [p])), Lock(t)), Check(t)) ==
      s.(visitor := s.visitor[p := t], finis := [p] + s.finis, started := s.started + [p],
         stack := s.stack[t := In(InitRun([p], 0), Idle)])
  {
    var m := Do(fini, s, CallInit(t, [p]));
    assert m.stack[t := In(InitCheck([p], 0), Idle)] == s.stack[t := In(InitCheck([p], 0), Idle)];
    var n := Do(fini, m, Lock(t));
    assert n.stack[t := In(InitRun([p], 0), Idle)] == s.stack[t := In(InitRun([p], 0), Idle)];
  }

  /** and completes it. */
  lemma TwoExitsC() returns (acts: seq<Action>)
    ensures Run({0, 1}, acts) ==
      State(None, false, map[0 := 1], {1}, [1, 0], map[1 := In(InitRun([0], 0), Idle), 2 := Idle], [0, 1], [], [])
  {
    acts := TwoExitsB();
    Then({0, 1}, acts, Return(2));
    acts := acts + [Return(2)];
    Then({0, 1}, acts, Lock(2));
    acts := acts + [Lock(2)];
    Then({0, 1}, acts, Check(2));
    acts := acts + [Check(2)];
  }

  /** With object 1 constructed and first on the list, an exiting thread finalizes it. */
  lemma ExitsAndFinalizes(fini: set<Dso>, acts: seq<Action>, t: Tid)
    requires var s := Run(fini, acts);
      s.lock == None && CallsOf(s, t) == Idle && s.finis == [1, 0] && 1 in s.built && 1 !in s.visitor
    ensures var s, r := Run(fini, acts), Run(fini, acts + [CallExit(t)] + [Lock(t)] + [Check(t)]);
      r == s.(lock := Some(t), down := true, ended := s.ended + [1], exiters := s.exiters + [t],
              stack := s.stack[t := In(FiniCheck([0]), Idle)])
  {
    var s := Run(fini, acts);
    Then(fini, acts, CallExit(t));
    Then(fini, acts + [CallExit(t)], Lock(t));
    Then(fini, acts + [CallExit(t)] + [Lock(t)], Check(t));
    EntersExit(fini, s, t);
    FinalizesFirst(fini, Do(fini, Do(fini, s, CallExit(t)), Lock(t)), t);
  }

  lemma EntersExit(fini: set<Dso>, s: State, t: Tid)
    requires s.lock == None && CallsOf(s, t) == Idle
    ensures Do(fini, Do(fini, s, CallExit(t)), Lock(t)) ==
      s.(lock := Some(t), down := true, exiters := s.exiters + [t], stack := s.stack[t := In(FiniCheck(s.finis), Idle)])
  {
    var m := Do(fini, s, CallExit(t));
    assert CallsOf(m, t) == In(FiniEnter, Idle);
    assert m.stack[t := In(FiniCheck(s.finis), Idle)] == s.stack[t := In(FiniCheck(s.finis), Idle)];
  }

  lemma FinalizesFirst(fini: set<Dso>, s: State, t: Tid)
    requires CallsOf(s, t) == In(FiniCheck([1, 0]), Idle) && 1 in s.built && 1 !in s.visitor
    ensures Do(fini, s, Check(t)) == s.(ended := s.ended + [1], stack := s.stack[t := In(FiniCheck([0]), Idle)])
  {
    assert [1, 0][1..] == [0];
  }

  /** Thread 3 exits, finalizes object 1 and waits for object 0, giving up the lock. */
  lemma TwoExitsD() returns (acts: seq<Action>)
    ensures var s := Run({0, 1}, acts);
      s.lock == None && s.exiters == [3] && s.finis == [1, 0] && s.built == {1} && s.visitor == map[0 := 1] &&
      s.ended == [1] && CallsOf(s, 4) == Idle
  {
    acts := TwoExitsC();
    ExitsAndFinalizes({0, 1}, acts, 3);
    acts := acts + [CallExit(3)] + [Lock(3)] + [Check(3)];
    Then({0, 1}, acts, Check(3));
    acts := acts + [Check(3)];
  }

  /** Thread 4 exits meanwhile and finalizes object 1 again. */
  lemma TwoExits() returns (acts: seq<Action>)
    ensures |Run({0, 1}, acts).exiters| == 2 && !NoDup(Run({0, 1}, acts).ended)
  {
    acts := TwoExitsD();
    ExitsAndFinalizes({0, 1}, acts, 4);
    acts := acts + [CallExit(4)] + [Lock(4)] + [Check(4)];
    var e := Run({0, 1}, acts).ended;
    assert e[0] == 1 && e[1] == 1;
  }

  /** Finalizers run at most once in all runs with up to n exits exactly when n is at most 1. */
  lemma ExitOnce(n: nat)
    ensures (forall fini, acts :: |Run(fini, acts).exiters| <= n ==> NoDup(Run(fini, acts).ended)) <==> n <= 1
  {
    if n <= 1 {
      forall fini, acts | |Run(fini, acts).exiters| <= n ensures NoDup(Run(fini, acts).ended) {
        FinalizedInReverse(fini, acts);
      }
    } else {
      var acts := TwoExits();
    }
  }
}

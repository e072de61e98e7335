/** The same threads when pthread_cond_wait returns only after a broadcast (libc/ldso/dynlink.c:1400-1428, 1510-1548). */
module InitWakes {
  import opened Basics
  import opened InitFini

  /** asleep: the threads in pthread_cond_wait that no broadcast has reached yet. */
  datatype Wakes = Wakes(s: State, asleep: set<Tid>)

  predicate Waits(c: Calls) {
    c.In? && (c.top.InitWait? || c.top.FiniWait?)
  }

  predicate Checks(c: Calls) {
    c.In? && (c.top.InitCheck? || c.top.FiniCheck?)
  }

  /** Recording an object as constructed is what broadcasts. */
  predicate Broadcasts(s: State, t: Tid) {
    var c := CallsOf(s, t);
    s.lock.None? && c.In? && c.top.InitRelock? && c.top.i < |c.top.q|
  }

  function Wake(fini: set<Dso>, w: Wakes, a: Action): (r: Wakes) {
    if a.Lock? && a.t in w.asleep then w else
    var s := Do(fini, w.s, a);
    Wakes(s,
      if a.Lock? && Broadcasts(w.s, a.t) then {}
      else if a.Check? && Checks(CallsOf(w.s, a.t)) && Waits(CallsOf(s, a.t)) then w.asleep + {a.t}
      else w.asleep)
  }

  function WakeRun(fini: set<Dso>, acts: seq<Action>): (w: Wakes) {
    if acts == [] then Wakes(Initial(), {})
    else Wake(fini, WakeRun(fini, acts[..|acts| - 1]), acts[|acts| - 1])
  }

  /** Leaving out the calls that sleep on, this is a run as before: what holds of those holds of these. */
  lemma {:induction false} IsRun(fini: set<Dso>, acts: seq<Action>) returns (done: seq<Action>)
    ensures Run(fini, done) == WakeRun(fini, acts).s
    decreases |acts|
  {
    if acts == [] {
      done := [];
    } else {
      var n := |acts| - 1;
      done := IsRun(fini, acts[..n]);
      if !(acts[n].Lock? && acts[n].t in WakeRun(fini, acts[..n]).asleep) {
        Then(fini, done, acts[n]);
        done := done + [acts[n]];
      }
    }
  }

  // ---- Invariants ----

  /** The thread's wait condition holds. */
  ghost predicate Blocked(s: State, t: Tid) {
    var c := CallsOf(s, t);
    && Waits(c)
    && (c.top.InitWait? ==> c.top.i < |c.top.q| && (s.down || VisitedByOther(s, t, c.top.q[c.top.i])))
    && (c.top.FiniWait? ==> c.top.rest != [] && VisitedByOther(s, t, c.top.rest[0]))
  }

  ghost predicate VisitedByOther(s: State, t: Tid, p: Dso) {
    p in s.visitor && s.visitor[p] != t
  }

  ghost predicate AllBlocked(w: Wakes) {
    forall t :: t in w.asleep ==> Blocked(w.s, t)
  }

  /** Whoever visits an object is between starting and recording it. */
  ghost predicate VisitorsBusy(s: State) {
    forall p :: p in s.visitor ==> p in BusyWith(CallsOf(s, s.visitor[p]))
  }

  ghost predicate DoneDown(s: State) {
    forall t: Tid :: CallsOf(s, t).In? && CallsOf(s, t).top.FiniDone? ==> s.down
  }

  /** What a step leaves alone. */
  lemma OtherCalls(fini: set<Dso>, s: State, a: Action, u: Tid)
    requires u != a.t
    ensures var r := Do(fini, s, a);
      CallsOf(r, u) == CallsOf(s, u) && (s.down ==> r.down) && forall p :: p in r.visitor && r.visitor[p] == u ==> p in s.visitor && s.visitor[p] == u
  {
  }

  lemma VisitorsStep(fini: set<Dso>, s: State, a: Action)
    requires VisitorsBusy(s)
    ensures VisitorsBusy(Do(fini, s, a))
  {
    var r := Do(fini, s, a);
    forall p | p in r.visitor ensures p in BusyWith(CallsOf(r, r.visitor[p])) {
      if r.visitor[p] == a.t {
        OwnVisit(fini, s, a, r, p);
      } else {
        OtherCalls(fini, s, a, r.visitor[p]);
      }
    }
  }

  lemma BusyIn(c: Calls, p: Dso)
    ensures p in BusyWith(c) <==> c.In? && ((Busy(c.top) && p == Obj(c.top)) || p in BusyWith(c.outer))
  {
  }

  lemma OwnVisit(fini: set<Dso>, s: State, a: Action, r: State, p: Dso)
    requires VisitorsBusy(s) && r == Do(fini, s, a) && p in r.visitor && r.visitor[p] == a.t
    ensures p in BusyWith(CallsOf(r, a.t))
  {
    BusyIn(CallsOf(s, a.t), p);
    BusyIn(CallsOf(r, a.t), p);
    if !(a.Check? && Checks(CallsOf(s, a.t))) {
      assert p in s.visitor && s.visitor[p] == a.t;
    } else {
      CheckVisit(fini, s, a.t, p);
    }
  }

  lemma CheckVisit(fini: set<Dso>, s: State, t: Tid, p: Dso)
    requires VisitorsBusy(s) && Checks(CallsOf(s, t)) && p in Do(fini, s, Check(t)).visitor && Do(fini, s, Check(t)).visitor[p] == t
    ensures p in BusyWith(CallsOf(Do(fini, s, Check(t)), t))
  {
    var c, d := CallsOf(s, t), CallsOf(Do(fini, s, Check(t)), t);
    BusyIn(c, p);
    BusyIn(d, p);
  }

  lemma DoneStep(fini: set<Dso>, s: State, a: Action)
    requires DoneDown(s) && FiniInv(fini, s) && ThreadOk(s, a.t)
    ensures DoneDown(Do(fini, s, a))
  {
    var r := Do(fini, s, a);
    assert FiniOk(s, a.t);
    forall t: Tid | CallsOf(r, t).In? && CallsOf(r, t).top.FiniDone? ensures r.down {
      if t != a.t { OtherCalls(fini, s, a, t); }
    }
  }

  /** A wait condition ends only with a broadcast. */
  lemma BlockedKeeps(fini: set<Dso>, s: State, a: Action, t: Tid)
    requires Blocked(s, t) && t != a.t && !(a.Lock? && Broadcasts(s, a.t))
    ensures Blocked(Do(fini, s, a), t)
  {
    var r := Do(fini, s, a);
    assert CallsOf(r, t) == CallsOf(s, t);
    assert s.down ==> r.down;
    assert forall p :: p in s.visitor ==> p in r.visitor && r.visitor[p] == s.visitor[p];
  }

  /** A thread goes to sleep with its wait condition true. */
  lemma SleepsBlocked(fini: set<Dso>, s: State, t: Tid)
    requires Checks(CallsOf(s, t)) && Waits(CallsOf(Do(fini, s, Check(t)), t)) && AllRun(CallsOf(s, t).outer)
    ensures Blocked(Do(fini, s, Check(t)), t)
  {
  }

  lemma AsleepStep(fini: set<Dso>, w: Wakes, a: Action)
    requires AllBlocked(w) && ThreadsOk(w.s)
    ensures AllBlocked(Wake(fini, w, a))
  {
    var r := Wake(fini, w, a);
    assert ThreadOk(w.s, a.t);
    forall t | t in r.asleep ensures Blocked(r.s, t) {
      if t == a.t {
        AsleepOwn(fini, w, a);
      } else if r != w {
        BlockedKeeps(fini, w.s, a, t);
      }
    }
  }

  lemma AsleepOwn(fini: set<Dso>, w: Wakes, a: Action)
    requires AllBlocked(w) && ThreadOk(w.s, a.t) && a.t in Wake(fini, w, a).asleep
    ensures Blocked(Wake(fini, w, a).s, a.t)
  {
    if a.Check? && Checks(CallsOf(w.s, a.t)) && Waits(CallsOf(Do(fini, w.s, a), a.t)) {
      SleepsBlocked(fini, w.s, a.t);
    } else {
      assert Blocked(w.s, a.t);
    }
  }

  lemma {:induction false} WakeInv(fini: set<Dso>, acts: seq<Action>)
    ensures var w := WakeRun(fini, acts); AllBlocked(w) && VisitorsBusy(w.s) && DoneDown(w.s) && ThreadsOk(w.s) && FiniInv(fini, w.s)
    decreases |acts|
  {
    var done := IsRun(fini, acts);
    RunInv(fini, done);
    if acts != [] {
      var n := |acts| - 1;
      WakeInv(fini, acts[..n]);
      var w := WakeRun(fini, acts[..n]);
      AsleepStep(fini, w, acts[n]);
      VisitorsStep(fini, w.s, acts[n]);
      assert ThreadOk(w.s, acts[n].t);
      DoneStep(fini, w.s, acts[n]);
    }
  }

  /** No wakeup is lost: in every run, a sleeping thread is waiting for something that is still to come. */
  lemma NoLostWakeup(fini: set<Dso>, acts: seq<Action>, t: Tid)
    requires t in WakeRun(fini, acts).asleep
    ensures Blocked(WakeRun(fini, acts).s, t)
  {
    WakeInv(fini, acts);
  }

  // ---- Progress ----

  /** The thread can take a step inside the linker, or return from a constructor. */
  predicate CanStep(w: Wakes, t: Tid) {
    var c := CallsOf(w.s, t);
    c.In? && (Checks(c) || c.top.InitRun? || (w.s.lock.None? && t !in w.asleep && !c.top.FiniDone?))
  }

  /** The thread is outside, has finished its exit, or is held up by an exit, as it should be. */
  predicate AtRest(w: Wakes, t: Tid) {
    var c := CallsOf(w.s, t);
    c.Idle? || c.top.FiniDone? || (w.s.down && (c.top.InitWait? || w.s.lock.Some?))
  }

  /** Some thread can go on, or all are where they should be. */
  ghost predicate Goes(w: Wakes) {
    (exists t: Tid :: CanStep(w, t)) || forall t: Tid :: AtRest(w, t)
  }

  ghost predicate DepthAtMost(s: State, n: nat) {
    forall t: Tid :: Depth(CallsOf(s, t)) <= n
  }

  /** A thread that keeps another waiting can go on, or is in a call it made from a constructor. */
  lemma VisitorSteps(w: Wakes, t: Tid, p: Dso)
    requires VisitorsBusy(w.s) && VisitedByOther(w.s, t, p) && w.s.lock.None?
    requires w.s.visitor[p] in w.asleep ==> Blocked(w.s, w.s.visitor[p])
    ensures var u := w.s.visitor[p]; CanStep(w, u) || Depth(CallsOf(w.s, u)) >= 2
  {
    var c := CallsOf(w.s, w.s.visitor[p]);
    assert p in BusyWith(c);
    if c.outer.Idle? { assert Busy(c.top); }
  }

  lemma LockedSteps(w: Wakes, t: Tid)
    requires ThreadsOk(w.s) && DoneDown(w.s) && w.s.lock.Some?
    ensures CanStep(w, w.s.lock.value) || AtRest(w, t)
  {
    assert ThreadOk(w.s, w.s.lock.value);
  }

  /** Without calls from constructors, the threads never wait for each other for good. */
  lemma ShallowGoes(fini: set<Dso>, acts: seq<Action>)
    requires DepthAtMost(WakeRun(fini, acts).s, 1)
    ensures Goes(WakeRun(fini, acts))
  {
    var w := WakeRun(fini, acts);
    WakeInv(fini, acts);
    if !exists t: Tid :: CanStep(w, t) {
      forall t: Tid ensures AtRest(w, t) {
        if w.s.lock.Some? {
          LockedSteps(w, t);
        } else {
          FreeRest(w, t);
        }
      }
    }
  }

  lemma FreeRest(w: Wakes, t: Tid)
    requires AllBlocked(w) && VisitorsBusy(w.s) && ThreadsOk(w.s) && w.s.lock.None? && DepthAtMost(w.s, 1)
    requires forall u: Tid :: !CanStep(w, u)
    ensures AtRest(w, t)
  {
    var c := CallsOf(w.s, t);
    assert ThreadOk(w.s, t) && !CanStep(w, t);
    if c.In? && t in w.asleep {
      assert Blocked(w.s, t);
      if !AtRest(w, t) {
        var p := if c.top.InitWait? then c.top.q[c.top.i] else c.top.rest[0];
        VisitorSteps(w, t, p);
      }
    }
  }

  // ---- Calls from constructors ----

  lemma ThenWake(fini: set<Dso>, acts: seq<Action>, a: Action)
    ensures WakeRun(fini, acts + [a]) == Wake(fini, WakeRun(fini, acts), a)
  {
    assert (acts + [a])[..|acts|] == acts;
  }

  /** Thread t, outside or in a constructor, queues object p: it starts it, or sleeps if another visits it. */
  lemma Queues(acts: seq<Action>, t: Tid, p: Dso) returns (more: seq<Action>)
    requires var w := WakeRun({}, acts);
      w.s.lock.None? && !w.s.down && MayCall(CallsOf(w.s, t)) && t !in w.asleep && p !in w.s.built && (p in w.s.visitor ==> w.s.visitor[p] != t)
    ensures var w, r := WakeRun({}, acts), WakeRun({}, more);
      && r.s.lock.None? && !r.s.down && r.s.built == w.s.built && (forall u: Tid :: u != t ==> CallsOf(r.s, u) == CallsOf(w.s, u))
      && (p in w.s.visitor ==> r.s.visitor == w.s.visitor && CallsOf(r.s, t) == In(InitWait([p], 0), CallsOf(w.s, t)) && r.asleep == w.asleep + {t})
      && (p !in w.s.visitor ==> r.s.visitor == w.s.visitor[p := t] && CallsOf(r.s, t) == In(InitRun([p], 0), CallsOf(w.s, t)) && r.asleep == w.asleep)
  {
    ThenWake({}, acts, CallInit(t, [p]));
    var m1 := acts + [CallInit(t, [p])];
    ThenWake({}, m1, Lock(t));
    var m2 := m1 + [Lock(t)];
    ThenWake({}, m2, Check(t));
    more := m2 + [Check(t)];
  }

  /** Two threads, each in the constructors of one object, queue the other's: neither will ever go on. */
  lemma Deadlock() returns (acts: seq<Action>)
    ensures DepthAtMost(WakeRun({}, acts).s, 2) && !Goes(WakeRun({}, acts))
  {
    assert forall t: Tid :: CallsOf(Initial(), t) == Idle;
    acts := Queues([], 1, 1);
    acts := Queues(acts, 2, 2);
    acts := Queues(acts, 1, 2);
    acts := Queues(acts, 2, 1);
    var w := WakeRun({}, acts);
    assert CallsOf(w.s, 1).top.InitWait? && CallsOf(w.s, 2).top.InitWait?;
    assert !AtRest(w, 1);
    forall t: Tid ensures !CanStep(w, t) && Depth(CallsOf(w.s, t)) <= 2 {
      if t == 1 || t == 2 { DepthTwo(CallsOf(w.s, t)); } else { assert CallsOf(w.s, t) == Idle; }
    }
  }

  lemma DepthTwo(c: Calls)
    requires c.In? && c.outer.In? && c.outer.outer.Idle?
    ensures Depth(c) == 2
  {
    assert Depth(c.outer) == 1;
  }

  /** The threads always go on in runs with calls nested up to n deep exactly when n is at most 1. */
  lemma GoesExactly(n: nat)
    ensures (forall fini, acts :: DepthAtMost(WakeRun(fini, acts).s, n) ==> Goes(WakeRun(fini, acts))) <==> n <= 1
  {
    if n <= 1 {
      forall fini, acts | DepthAtMost(WakeRun(fini, acts).s, n) ensures Goes(WakeRun(fini, acts)) {
        ShallowGoes(fini, acts);
      }
    } else {
      var acts := Deadlock();
      assert DepthAtMost(WakeRun({}, acts).s, n);
    }
  }
}

/** Sleeping locks (kernel/sleeplock.c) over sleep and wakeup (kernel/proc.c), as a step
    system: any number of threads, one step between any two accesses to shared state. */
module SleepLock {
  import opened Wrappers

  /** Where a thread is. Asleep threads have state SLEEPING with the lock as channel. */
  datatype Pc =
    | Idle
    | Acquire         // acquiresleep: about to acquire(&lk->lk)
    | Test            // holds lk; about to test lk->locked
    | Taken           // holds lk; has set lk->locked and lk->pid; about to release(&lk->lk)
    | Sleep           // sleep: holds lk; about to acquire(&ptable.lock)
    | SleepBoth       // holds lk and ptable.lock; about to release(lk)
    | SleepMark       // holds ptable.lock; about to set SLEEPING
    | SleepSwitch     // holds ptable.lock, SLEEPING; about to hand the CPU over
    | Asleep
    | Woken           // RUNNABLE; about to be scheduled, which needs ptable.lock
    | Holder          // acquiresleep has returned
    | Release         // releasesleep: about to acquire(&lk->lk)
    | Clear           // holds lk; about to reset lk->locked and lk->pid
    | Wakeup          // holds lk; about to acquire(&ptable.lock)
    | WakeAll         // holds lk and ptable.lock; about to scan the process table
    | Leave           // holds lk; about to release(&lk->lk)

  /** `pid` is the thread that lk->pid names, `lk` and `ptable` hold the owners of the spinlocks. */
  datatype State = State(pcs: seq<Pc>, locked: bool, pid: Option<nat>, lk: Option<nat>, ptable: Option<nat>)

  predicate HasSpin(pc: Pc) {
    pc in {Test, Taken, Sleep, SleepBoth, Clear, Wakeup, WakeAll, Leave}
  }

  predicate HasPtable(pc: Pc) {
    pc in {SleepBoth, SleepMark, SleepSwitch, WakeAll}
  }

  /** The thread owns the sleeping lock. */
  predicate Owns(pc: Pc) {
    pc in {Taken, Holder, Release, Clear}
  }

  /** The thread has decided to sleep or sleeps. */
  predicate Sleeper(pc: Pc) {
    pc in {Sleep, SleepBoth, SleepMark, SleepSwitch, Asleep}
  }

  /** The lock has been given up but its sleepers have not been woken yet. */
  predicate Waking(pc: Pc) {
    pc == Wakeup || pc == WakeAll
  }

  predicate Enabled(s: State, t: nat)
  {
    t < |s.pcs| &&
    match s.pcs[t]
    case Acquire => s.lk.None?
    case Release => s.lk.None?
    case Sleep => s.ptable.None?
    case Wakeup => s.ptable.None?
    case Woken => s.ptable.None?
    case Asleep => false
    case _ => true
  }

  /** wakeup1: every thread asleep on the lock becomes runnable. */
  function WakeSleepers(pcs: seq<Pc>): (r: seq<Pc>)
    ensures |r| == |pcs|
    ensures forall t :: 0 <= t < |pcs| ==> r[t] == if pcs[t] == Asleep then Woken else pcs[t]
  {
    seq(|pcs|, t requires 0 <= t < |pcs| => if pcs[t] == Asleep then Woken else pcs[t])
  }

  function Step(s: State, t: nat): (r: State)
    requires Enabled(s, t)
  {
    match s.pcs[t]
    case Idle => s.(pcs := s.pcs[t := Acquire])
    case Acquire => s.(pcs := s.pcs[t := Test], lk := Some(t))
    case Test =>
      if s.locked then s.(pcs := s.pcs[t := Sleep]) else s.(pcs := s.pcs[t := Taken], locked := true, pid := Some(t))
    case Taken => s.(pcs := s.pcs[t := Holder], lk := None)
    case Sleep => s.(pcs := s.pcs[t := SleepBoth], ptable := Some(t))
    case SleepBoth => s.(pcs := s.pcs[t := SleepMark], lk := None)
    case SleepMark => s.(pcs := s.pcs[t := SleepSwitch])
    case SleepSwitch => s.(pcs := s.pcs[t := Asleep], ptable := None)
    case Woken => s.(pcs := s.pcs[t := Acquire])
    case Holder => s.(pcs := s.pcs[t := Release])
    case Release => s.(pcs := s.pcs[t := Clear], lk := Some(t))
    case Clear => s.(pcs := s.pcs[t := Wakeup], locked := false, pid := None)
    case Wakeup => s.(pcs := s.pcs[t := WakeAll], ptable := Some(t))
    case WakeAll => s.(pcs := WakeSleepers(s.pcs)[t := Leave], ptable := None)
    case Leave => s.(pcs := s.pcs[t := Idle], lk := None)
  }

  ghost predicate Init(s: State) {
    !s.locked && s.pid.None? && s.lk.None? && s.ptable.None? && forall t :: 0 <= t < |s.pcs| ==> s.pcs[t] == Idle
  }

  /** Spinlocks exclude. */
  ghost predicate SpinsExclude(s: State) {
    && (forall t :: 0 <= t < |s.pcs| ==> (HasSpin(s.pcs[t]) <==> s.lk == Some(t)))
    && (s.lk.Some? ==> s.lk.value < |s.pcs|)
    && (forall t :: 0 <= t < |s.pcs| ==> (HasPtable(s.pcs[t]) <==> s.ptable == Some(t)))
    && (s.ptable.Some? ==> s.ptable.value < |s.pcs|)
  }

  /** The sleeping lock has at most one owner, and one exactly when it is locked. */
  ghost predicate OneOwner(s: State) {
    && (forall t, u :: 0 <= t < |s.pcs| && 0 <= u < |s.pcs| && Owns(s.pcs[t]) && Owns(s.pcs[u]) ==> t == u)
    && (s.locked <==> exists t :: 0 <= t < |s.pcs| && Owns(s.pcs[t]))
  }

  /** Whoever has decided to sleep sleeps on a lock that is held, or is about to be woken. */
  ghost predicate NoLostWakeup(s: State) {
    forall t :: 0 <= t < |s.pcs| && Sleeper(s.pcs[t]) ==> s.locked || WakePending(s)
  }

  ghost predicate WakePending(s: State) {
    s.lk.Some? && s.lk.value < |s.pcs| && Waking(s.pcs[s.lk.value])
  }

  /** Whoever is about to leave releasesleep has woken everyone. */
  ghost predicate AllWoken(s: State) {
    forall t, u :: 0 <= t < |s.pcs| && 0 <= u < |s.pcs| && s.pcs[t] == Leave ==> !Sleeper(s.pcs[u])
  }

  /** The lock names its owner. */
  ghost predicate OwnerNamed(s: State) {
    forall t :: 0 <= t < |s.pcs| ==> (Owns(s.pcs[t]) <==> s.pid == Some(t))
  }

  ghost predicate Inv(s: State) {
    SpinsExclude(s) && OneOwner(s) && NoLostWakeup(s) && AllWoken(s) && OwnerNamed(s)
  }

  lemma StepSpins(s: State, t: nat, u: nat)
    requires SpinsExclude(s) && Enabled(s, t) && u < |s.pcs|
    ensures HasSpin(Step(s, t).pcs[u]) <==> Step(s, t).lk == Some(u)
  {
    assert HasSpin(s.pcs[u]) <==> s.lk == Some(u);
    assert HasSpin(s.pcs[t]) <==> s.lk == Some(t);
  }

  lemma StepPtable(s: State, t: nat, u: nat)
    requires SpinsExclude(s) && Enabled(s, t) && u < |s.pcs|
    ensures HasPtable(Step(s, t).pcs[u]) <==> Step(s, t).ptable == Some(u)
  {
    assert HasPtable(s.pcs[u]) <==> s.ptable == Some(u);
    assert HasPtable(s.pcs[t]) <==> s.ptable == Some(t);
  }

  lemma StepKeepsSpins(s: State, t: nat)
    requires SpinsExclude(s) && Enabled(s, t)
    ensures SpinsExclude(Step(s, t))
  {
    StepLocked(s, t);
    forall u: nat | u < |s.pcs|
      ensures HasSpin(Step(s, t).pcs[u]) <==> Step(s, t).lk == Some(u)
      ensures HasPtable(Step(s, t).pcs[u]) <==> Step(s, t).ptable == Some(u)
    {
      StepSpins(s, t, u);
      StepPtable(s, t, u);
    }
    hide HasSpin, HasPtable;
  }

  lemma StepOwners(s: State, t: nat, u: nat)
    requires Enabled(s, t) && u < |s.pcs|
    ensures Owns(Step(s, t).pcs[u]) <==>
            if u != t then Owns(s.pcs[u]) else (Owns(s.pcs[t]) && s.pcs[t] != Clear) || (s.pcs[t] == Test && !s.locked)
  {
  }

  lemma StepKeepsOwner(s: State, t: nat)
    requires SpinsExclude(s) && OneOwner(s) && Enabled(s, t)
    ensures OneOwner(Step(s, t))
  {
    var r := Step(s, t);
    hide SpinsExclude;
    forall u: nat | u < |s.pcs|
      ensures Owns(r.pcs[u]) <==>
        if u != t then Owns(s.pcs[u]) else (Owns(s.pcs[t]) && s.pcs[t] != Clear) || (s.pcs[t] == Test && !s.locked)
    {
      StepOwners(s, t, u);
    }
    StepLocked(s, t);
    hide Step;
    if s.locked {
      var o :| 0 <= o < |s.pcs| && Owns(s.pcs[o]);
      if r.locked { assert Owns(r.pcs[o]); }
    } else if r.locked {
      assert Owns(r.pcs[t]);
    }
  }

  lemma StepLocked(s: State, t: nat)
    requires Enabled(s, t)
    ensures |Step(s, t).pcs| == |s.pcs|
    ensures Step(s, t).locked <==> if s.pcs[t] == Clear then false else s.locked || s.pcs[t] == Test
  {
  }

  /** The order of the two locks in sleep is what makes this hold: a sleeper takes
      ptable.lock before it gives up lk, so no wakeup can slip in between. */
  lemma StepKeepsWakeups(s: State, t: nat)
    requires SpinsExclude(s) && OneOwner(s) && NoLostWakeup(s) && Enabled(s, t)
    ensures NoLostWakeup(Step(s, t))
  {
    var r, pc := Step(s, t), s.pcs[t];
    forall u | 0 <= u < |r.pcs| && Sleeper(r.pcs[u])
      ensures r.locked || WakePending(r)
    {
      assert HasSpin(s.pcs[u]) <==> s.lk == Some(u);
      assert HasPtable(s.pcs[u]) <==> s.ptable == Some(u);
      assert HasSpin(s.pcs[t]) <==> s.lk == Some(t);
      assert HasPtable(s.pcs[t]) <==> s.ptable == Some(t);
      if u == t && pc == Test {
      } else {
        assert Sleeper(s.pcs[u]);
      }
    }
  }

  lemma StepKeepsWoken(s: State, t: nat)
    requires SpinsExclude(s) && AllWoken(s) && Enabled(s, t)
    ensures AllWoken(Step(s, t))
  {
    var r := Step(s, t);
    forall v, u | 0 <= v < |r.pcs| && 0 <= u < |r.pcs| && r.pcs[v] == Leave ensures !Sleeper(r.pcs[u]) {
      assert HasSpin(s.pcs[u]) <==> s.lk == Some(u);
      assert HasPtable(s.pcs[u]) <==> s.ptable == Some(u);
      assert HasSpin(s.pcs[v]) <==> s.lk == Some(v);
      assert HasPtable(s.pcs[v]) <==> s.ptable == Some(v);
    }
  }

  lemma StepKeepsNamed(s: State, t: nat)
    requires OneOwner(s) && OwnerNamed(s) && Enabled(s, t)
    ensures OwnerNamed(Step(s, t))
  {
    var r := Step(s, t);
    StepLocked(s, t);
    forall u: nat | u < |r.pcs| ensures Owns(r.pcs[u]) <==> r.pid == Some(u) {
      StepOwners(s, t, u);
      assert Owns(s.pcs[u]) <==> s.pid == Some(u);
      assert Owns(s.pcs[t]) <==> s.pid == Some(t);
    }
  }

  /** Every step of every thread keeps the invariant. */
  lemma StepKeepsInv(s: State, t: nat)
    requires Inv(s) && Enabled(s, t)
    ensures Inv(Step(s, t))
  {
    hide SpinsExclude, OneOwner, NoLostWakeup, AllWoken, OwnerNamed, Step;
    StepKeepsWoken(s, t);
    StepKeepsNamed(s, t);
    StepKeepsSpins(s, t);
    StepKeepsOwner(s, t);
    StepKeepsWakeups(s, t);
  }

  // ----- runs --------------------------------------------------------------

  /** `run` is a run in which thread `who[i]` makes the i-th step. */
  ghost predicate IsRun(run: seq<State>, who: seq<nat>) {
    && |run| == |who| + 1 && Init(run[0])
    && forall i :: 0 <= i < |who| ==> Enabled(run[i], who[i]) && run[i + 1] == Step(run[i], who[i])
  }

  lemma {:induction false} RunKeepsInv(run: seq<State>, who: seq<nat>, i: nat)
    requires IsRun(run, who) && i < |run|
    ensures Inv(run[i])
    decreases i
  {
    hide Inv, Step;
    if i > 0 {
      var k := i - 1;
      RunKeepsInv(run, who, k);
      assert Enabled(run[k], who[k]) && run[k + 1] == Step(run[k], who[k]);
      StepKeepsInv(run[k], who[k]);
    } else {
      InitInv(run[0]);
    }
  }

  lemma InitInv(s: State)
    requires Init(s)
    ensures Inv(s)
  {
  }

  /** acquiresleep admits at most one holder, in every run. */
  lemma MutualExclusion(run: seq<State>, who: seq<nat>, i: nat, t: nat, u: nat)
    requires IsRun(run, who) && i < |run| && t < |run[i].pcs| && u < |run[i].pcs|
    requires run[i].pcs[t] == Holder && run[i].pcs[u] == Holder
    ensures t == u
  {
    RunKeepsInv(run, who, i);
  }

  /** holdingsleep */
  predicate HoldingSleep(s: State, t: nat) {
    s.locked && s.pid == Some(t)
  }

  /** holdingsleep is true of the owner, in every run, and of nobody else. */
  lemma HoldingSleepIff(run: seq<State>, who: seq<nat>, i: nat, t: nat)
    requires IsRun(run, who) && i < |run| && t < |run[i].pcs|
    ensures HoldingSleep(run[i], t) <==> Owns(run[i].pcs[t])
  {
    RunKeepsInv(run, who, i);
  }

  /** No thread sleeps on a free lock without a wakeup on its way, in every run. */
  lemma NeverAsleepOnAFreeLock(run: seq<State>, who: seq<nat>, i: nat, t: nat)
    requires IsRun(run, who) && i < |run| && t < |run[i].pcs| && run[i].pcs[t] == Asleep
    ensures (exists u :: 0 <= u < |run[i].pcs| && Owns(run[i].pcs[u]))
            || (exists u :: 0 <= u < |run[i].pcs| && Waking(run[i].pcs[u]))
  {
    RunKeepsInv(run, who, i);
  }

  /** No deadlock: as long as some thread is busy with the lock, some thread that is can
      take a step. */
  lemma SomeoneCanStep(s: State, t: nat)
    requires Inv(s) && t < |s.pcs| && s.pcs[t] != Idle
    ensures exists u :: 0 <= u < |s.pcs| && s.pcs[u] != Idle && Enabled(s, u)
  {
    if s.ptable.Some? {
      assert Enabled(s, s.ptable.value);
    } else if s.lk.Some? {
      assert Enabled(s, s.lk.value);
    } else if Enabled(s, t) {
    } else {
      var o :| 0 <= o < |s.pcs| && Owns(s.pcs[o]);
      assert Enabled(s, o);
    }
  }

  // ----- what callers get --------------------------------------------------

  /** The thread is inside acquiresleep. */
  predicate InAcquire(pc: Pc) {
    pc in {Acquire, Test, Taken, Sleep, SleepBoth, SleepMark, SleepSwitch, Asleep, Woken}
  }

  /** The thread is inside releasesleep. */
  predicate InRelease(pc: Pc) {
    pc in {Release, Clear, Wakeup, WakeAll, Leave}
  }

  /** The lock is taken by `u` and by nobody else, and says so. */
  ghost predicate SoleOwner(s: State, u: nat) {
    HoldingSleep(s, u) && forall v :: 0 <= v < |s.pcs| && v != u ==> !Owns(s.pcs[v])
  }

  /** A thread enters and leaves the two calls by its own steps only, in turn: acquiresleep
      brings it nowhere but to the lock, which it then owns alone, and releasesleep takes it
      back to where it was before. */
  lemma CallsInTurn(s: State, t: nat, u: nat)
    requires Inv(s) && Enabled(s, t) && u < |s.pcs|
    ensures var a, r := s.pcs[u], Step(s, t);
      && |r.pcs| == |s.pcs|
      && (a == Idle ==> r.pcs[u] == Idle || (u == t && r.pcs[u] == Acquire))
      && (InAcquire(a) ==> InAcquire(r.pcs[u]) || (u == t && r.pcs[u] == Holder))
      && (a == Holder ==> r.pcs[u] == Holder || (u == t && r.pcs[u] == Release))
      && (InRelease(a) ==> InRelease(r.pcs[u]) || (u == t && r.pcs[u] == Idle))
      && (r.pcs[u] == Holder ==> SoleOwner(r, u))
  {
    hide Inv, SoleOwner;
    StepKeepsInv(s, t);
    if Step(s, t).pcs[u] == Holder { HolderOwns(Step(s, t), u); }
  }

  lemma HolderOwns(s: State, u: nat)
    requires Inv(s) && u < |s.pcs| && s.pcs[u] == Holder
    ensures SoleOwner(s, u)
  {
    assert Owns(s.pcs[u]);
    hide SpinsExclude, NoLostWakeup, AllWoken;
  }

  /** In every run, a thread that has got out of acquiresleep got out as the holder of the
      lock, by its own step at `k`. */
  lemma {:induction false} AcquireEndsWithTheLock(run: seq<State>, who: seq<nat>, i: nat, j: nat, u: nat)
    returns (k: nat)
    requires IsRun(run, who) && i < j < |run| && u < |run[i].pcs| && InAcquire(run[i].pcs[u])
    requires |run[j].pcs| == |run[i].pcs| && !InAcquire(run[j].pcs[u])
    ensures i <= k < j && who[k] == u && |run[k + 1].pcs| == |run[i].pcs|
    ensures forall m :: i <= m <= k ==> |run[m].pcs| == |run[i].pcs| && InAcquire(run[m].pcs[u])
    ensures run[k + 1].pcs[u] == Holder && SoleOwner(run[k + 1], u)
  {
    hide Inv, Step, Enabled, InAcquire, InRelease, Owns, Init;
    k := i;
    while true
      invariant i <= k < j
      invariant forall m :: i <= m <= k ==> |run[m].pcs| == |run[i].pcs| && InAcquire(run[m].pcs[u])
      decreases j - k
    {
      RunKeepsInv(run, who, k);
      assert Enabled(run[k], who[k]) && run[k + 1] == Step(run[k], who[k]);
      CallsInTurn(run[k], who[k], u);
      if !InAcquire(run[k + 1].pcs[u]) { return; }
      k := k + 1;
    }
  }

  /** In every run, a thread that has got out of releasesleep is outside both calls, and has
      left no thread asleep or on its way to sleep. */
  lemma {:induction false} ReleaseWakesEveryone(run: seq<State>, who: seq<nat>, i: nat, j: nat, u: nat)
    returns (k: nat)
    requires IsRun(run, who) && i < j < |run| && u < |run[i].pcs| && InRelease(run[i].pcs[u])
    requires |run[j].pcs| == |run[i].pcs| && !InRelease(run[j].pcs[u])
    ensures i <= k < j && who[k] == u && |run[k].pcs| == |run[k + 1].pcs| == |run[i].pcs|
    ensures forall m :: i <= m <= k ==> |run[m].pcs| == |run[i].pcs| && InRelease(run[m].pcs[u])
    ensures run[k + 1].pcs[u] == Idle && forall v :: 0 <= v < |run[i].pcs| ==> !Sleeper(run[k].pcs[v])
  {
    hide Inv, Step, Enabled, InAcquire, InRelease, Owns, Init, Sleeper;
    k := i;
    while true
      invariant i <= k < j
      invariant forall m :: i <= m <= k ==> |run[m].pcs| == |run[i].pcs| && InRelease(run[m].pcs[u])
      decreases j - k
    {
      RunKeepsInv(run, who, k);
      assert Enabled(run[k], who[k]) && run[k + 1] == Step(run[k], who[k]);
      CallsInTurn(run[k], who[k], u);
      if !InRelease(run[k + 1].pcs[u]) {
        LastOfRelease(run[k], u);
        return;
      }
      k := k + 1;
    }
  }

  lemma LastOfRelease(s: State, u: nat)
    requires Inv(s) && Enabled(s, u) && InRelease(s.pcs[u]) && Step(s, u).pcs[u] == Idle
    ensures forall v :: 0 <= v < |s.pcs| ==> !Sleeper(s.pcs[v])
  {
    assert s.pcs[u] == Leave;
  }

  /** `n` steps of thread `t`, as far as it can go. */
  ghost function Solo(s: State, t: nat, n: nat): (r: State)
    decreases n
  {
    if n == 0 || !Enabled(s, t) then s else Solo(Step(s, t), t, n - 1)
  }

  lemma AloneFree(s: State, t: nat)
    requires Inv(s) && t < |s.pcs| && InAcquire(s.pcs[t]) && forall u :: 0 <= u < |s.pcs| && u != t ==> s.pcs[u] == Idle
    ensures s.lk == (if HasSpin(s.pcs[t]) then Some(t) else None) && s.ptable.None?
    ensures s.locked == (s.pcs[t] == Taken) && (s.locked ==> s.pid == Some(t)) && !Sleeper(s.pcs[t])
  {
  }

  lemma TestSucceeds(s: State, t: nat)
    requires t < |s.pcs| && s.pcs[t] == Test && !s.locked && s.ptable.None?
    ensures Solo(s, t, 2) == State(s.pcs[t := Holder], true, Some(t), None, None)
  {
    hide Solo;
    var s1 := s.(pcs := s.pcs[t := Taken], locked := true, pid := Some(t));
    SoloStep(s, t, 1, s1);
    var s2 := State(s.pcs[t := Holder], true, Some(t), None, None);
    SoloStep(s1, t, 0, s2);
    SoloNone(s2, t);
  }

  lemma AcquireSucceeds(s: State, t: nat)
    requires t < |s.pcs| && s.pcs[t] == Acquire && !s.locked && s.lk.None? && s.ptable.None?
    ensures Solo(s, t, 3) == State(s.pcs[t := Holder], true, Some(t), None, None)
  {
    hide Solo;
    var s1 := s.(pcs := s.pcs[t := Test], lk := Some(t));
    SoloStep(s, t, 2, s1);
    TestSucceeds(s1, t);
    assert s1.pcs[t := Holder] == s.pcs[t := Holder];
  }

  /** A thread that is alone with the lock gets it, wherever in acquiresleep it is. */
  lemma AloneItAcquires(s: State, t: nat)
    requires Inv(s) && t < |s.pcs| && InAcquire(s.pcs[t]) && forall u :: 0 <= u < |s.pcs| && u != t ==> s.pcs[u] == Idle
    ensures exists n :: 0 <= n <= 4 && Solo(s, t, n) == State(s.pcs[t := Holder], true, Some(t), None, None)
  {
    hide Inv, Solo;
    AloneFree(s, t);
    match s.pcs[t]
    case Taken =>
      var s1 := State(s.pcs[t := Holder], true, Some(t), None, None);
      SoloStep(s, t, 0, s1);
      SoloNone(s1, t);
    case Test => TestSucceeds(s, t);
    case Acquire => AcquireSucceeds(s, t);
    case Woken =>
      var s1 := s.(pcs := s.pcs[t := Acquire]);
      SoloStep(s, t, 3, s1);
      AcquireSucceeds(s1, t);
      assert s1.pcs[t := Holder] == s.pcs[t := Holder];
  }

  /** A holder that finds the spinlocks free gives the lock back in six steps of its own: the
      lock is free, everyone who slept is awake, and nothing else has changed. */
  lemma UndisturbedItReleases(s: State, t: nat)
    requires t < |s.pcs| && s.pcs[t] == Holder && s.lk.None? && s.ptable.None?
    ensures Solo(s, t, 6) == State(WakeSleepers(s.pcs)[t := Idle], false, None, None, None)
  {
    hide Solo;
    var s1 := s.(pcs := s.pcs[t := Release]);
    SoloStep(s, t, 5, s1);
    var s2 := State(s.pcs[t := Clear], s.locked, s.pid, Some(t), None);
    SoloStep(s1, t, 4, s2);
    var s3 := State(s.pcs[t := Wakeup], false, None, Some(t), None);
    SoloStep(s2, t, 3, s3);
    var s4 := State(s.pcs[t := WakeAll], false, None, Some(t), Some(t));
    SoloStep(s3, t, 2, s4);
    var s5 := State(WakeSleepers(s.pcs)[t := Leave], false, None, Some(t), None);
    assert WakeSleepers(s4.pcs)[t := Leave] == s5.pcs;
    SoloStep(s4, t, 1, s5);
    var s6 := State(WakeSleepers(s.pcs)[t := Idle], false, None, None, None);
    SoloStep(s5, t, 0, s6);
    SoloNone(s6, t);
  }

  /** A thread that comes to a taken lock with the spinlocks free is asleep after six steps of its
      own, holds neither spinlock, and can make no further step until it is woken. */
  lemma UndisturbedItSleeps(s: State, t: nat)
    requires t < |s.pcs| && s.pcs[t] == Acquire && s.locked && s.lk.None? && s.ptable.None?
    ensures Solo(s, t, 6) == s.(pcs := s.pcs[t := Asleep]) && !Enabled(Solo(s, t, 6), t)
  {
    hide Solo;
    var s1 := s.(pcs := s.pcs[t := Test], lk := Some(t));
    SoloStep(s, t, 5, s1);
    var s2 := s.(pcs := s.pcs[t := Sleep], lk := Some(t));
    SoloStep(s1, t, 4, s2);
    var s3 := s.(pcs := s.pcs[t := SleepBoth], lk := Some(t), ptable := Some(t));
    SoloStep(s2, t, 3, s3);
    var s4 := s.(pcs := s.pcs[t := SleepMark], ptable := Some(t));
    SoloStep(s3, t, 2, s4);
    var s5 := s.(pcs := s.pcs[t := SleepSwitch], ptable := Some(t));
    SoloStep(s4, t, 1, s5);
    var s6 := s.(pcs := s.pcs[t := Asleep]);
    SoloStep(s5, t, 0, s6);
    SoloNone(s6, t);
  }

  lemma SoloStep(s: State, t: nat, n: nat, r: State)
    requires Enabled(s, t) && Step(s, t) == r
    ensures Solo(s, t, n + 1) == Solo(r, t, n)
  {
  }

  lemma SoloNone(s: State, t: nat)
    ensures Solo(s, t, 0) == s
  {
  }
}

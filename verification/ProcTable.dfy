/** The process table (kernel/proc.c) on any number of CPUs. A step is one section under
    ptable.lock, or one of fork's unlocked writes to the slot that it allocated. */
module ProcTable {
  import opened Wrappers

  datatype ProcState = UNUSED | EMBRYO | SLEEPING | RUNNABLE | RUNNING | ZOMBIE | STOPPED

  /** Channels: a process sleeps in waitpid on its own slot, elsewhere on other addresses. */
  datatype Chan = NoChan | Slot(p: nat) | Other(addr: nat)

  /** `waits` is the pid argument of the waitpid in which the process sleeps, `child` the slot
      that a fork in progress has allocated, and `gone` says that exit was called. */
  datatype Proc = Proc(
    state: ProcState, pid: nat, parent: Option<nat>, chan: Chan, waits: int,
    child: Option<nat>, gone: bool)

  datatype State = State(procs: seq<Proc>, cpus: seq<Option<nat>>, nextpid: nat, init: nat)

  const FREE: Proc := Proc(UNUSED, 0, None, NoChan, 0, None, false)

  predicate Alive(p: Proc) {
    p.state in {SLEEPING, RUNNABLE, RUNNING, STOPPED}
  }

  /** The child test of waitpid. */
  predicate Reapable(p: Proc, parent: nat, pid: int) {
    p.parent == Some(parent) && (pid == -1 || p.pid == pid) && p.state == ZOMBIE
  }

  // ----- table scans -------------------------------------------------------

  function FirstUnused(procs: seq<Proc>, i: nat): (r: Option<nat>)
    requires i <= |procs|
    ensures r.Some? ==> i <= r.value < |procs| && procs[r.value].state == UNUSED
    ensures forall k :: i <= k < (if r.Some? then r.value else |procs|) ==> procs[k].state != UNUSED
    decreases |procs| - i
  {
    if i == |procs| then None else if procs[i].state == UNUSED then Some(i) else FirstUnused(procs, i + 1)
  }

  function FirstReapable(procs: seq<Proc>, parent: nat, pid: int, i: nat): (r: Option<nat>)
    requires i <= |procs|
    ensures r.Some? ==> i <= r.value < |procs| && Reapable(procs[r.value], parent, pid)
    ensures forall k :: i <= k < (if r.Some? then r.value else |procs|) ==> !Reapable(procs[k], parent, pid)
    decreases |procs| - i
  {
    if i == |procs| then None
    else if Reapable(procs[i], parent, pid) then Some(i)
    else FirstReapable(procs, parent, pid, i + 1)
  }

  predicate HasKids(procs: seq<Proc>, parent: nat) {
    exists k :: 0 <= k < |procs| && procs[k].parent == Some(parent)
  }

  function Wake(p: Proc, chan: Chan): Proc {
    if p.state == SLEEPING && p.chan == chan then p.(state := RUNNABLE) else p
  }

  /** wakeup1 */
  function WakeAll(procs: seq<Proc>, chan: Chan): (r: seq<Proc>)
    ensures |r| == |procs| && forall k :: 0 <= k < |procs| ==> r[k] == Wake(procs[k], chan)
  {
    seq(|procs|, k requires 0 <= k < |procs| => Wake(procs[k], chan))
  }

  /** exit hands the children of `p` to init. */
  function Adopt(q: Proc, p: nat, init: nat): Proc {
    if q.parent == Some(p) then q.(parent := Some(init)) else q
  }

  predicate ZombieKid(procs: seq<Proc>, p: nat) {
    exists k :: 0 <= k < |procs| && procs[k].parent == Some(p) && procs[k].state == ZOMBIE
  }

  /** What becomes of slot `q` when `p` exits. */
  function ExitOne(procs: seq<Proc>, p: nat, init: nat, q: Proc): Proc
    requires p < |procs| && procs[p].parent.Some?
  {
    var w := Adopt(Wake(q, Slot(procs[p].parent.value)), p, init);
    if ZombieKid(procs, p) then Wake(w, Slot(init)) else w
  }

  function ExitAll(procs: seq<Proc>, p: nat, init: nat): (r: seq<Proc>)
    requires p < |procs| && procs[p].parent.Some?
    ensures |r| == |procs| && forall k :: 0 <= k < |procs| ==> r[k] == ExitOne(procs, p, init, procs[k])
  {
    seq(|procs|, k requires 0 <= k < |procs| => ExitOne(procs, p, init, procs[k]))
  }

  // ----- steps -------------------------------------------------------------

  datatype Step =
    | Dispatch(c: nat, p: nat)
    | Yield(c: nat)
    | Sleep(c: nat, addr: nat)
    | Wakeup(addr: nat)
    | Kill(p: nat)                               // a terminating signal makes a sleeper runnable
    | ForkAlloc(c: nat)                          // allocproc
    | ForkFail(c: nat)                           // no kernel stack or no page table
    | ForkParent(c: nat)
    | ForkDone(c: nat)
    | Exit(c: nat)
    | Wait(c: nat, pid: int, killed: bool)

  predicate Running(s: State, c: nat) {
    c < |s.cpus| && s.cpus[c].Some? && s.cpus[c].value < |s.procs|
  }

  function Current(s: State, c: nat): Proc
    requires Running(s, c)
  {
    s.procs[s.cpus[c].value]
  }

  predicate Forking(s: State, c: nat) {
    Running(s, c) && Current(s, c).child.Some? && Current(s, c).child.value < |s.procs|
  }

  /** A process in the middle of fork neither exits, nor waits, nor forks; init does not
      exit, as exit panics there. */
  predicate Enabled(s: State, a: Step) {
    match a
    case Dispatch(c, p) => c < |s.cpus| && s.cpus[c].None? && p < |s.procs| && s.procs[p].state == RUNNABLE
    case Yield(c) => Running(s, c)
    case Sleep(c, _) => Running(s, c)
    case Wakeup(_) => true
    case Kill(p) => p < |s.procs|
    case ForkAlloc(c) => Running(s, c) && Current(s, c).child.None?
    case ForkFail(c) => Forking(s, c) && s.procs[Current(s, c).child.value].parent.None?
    case ForkParent(c) => Forking(s, c) && s.procs[Current(s, c).child.value].parent.None?
    case ForkDone(c) => Forking(s, c) && s.procs[Current(s, c).child.value].parent.Some?
    case Exit(c) => Running(s, c) && Current(s, c).child.None? && s.cpus[c].value != s.init
                    && Current(s, c).parent.Some?
    case Wait(c, _, _) => Running(s, c) && Current(s, c).child.None?
  }

  /** The current process of `c` enters `state` and the CPU goes back to its scheduler. */
  function Leave(s: State, c: nat, p: Proc): State
    requires Running(s, c)
  {
    s.(procs := s.procs[s.cpus[c].value := p], cpus := s.cpus[c := None])
  }

  function Next(s: State, a: Step): State
    requires Enabled(s, a)
  {
    match a
    case Dispatch(c, p) =>
      s.(procs := s.procs[p := s.procs[p].(state := RUNNING, chan := NoChan)], cpus := s.cpus[c := Some(p)])
    case Yield(c) => Leave(s, c, Current(s, c).(state := RUNNABLE))
    case Sleep(c, addr) => Leave(s, c, Current(s, c).(state := SLEEPING, chan := Other(addr)))
    case Wakeup(addr) => s.(procs := WakeAll(s.procs, Other(addr)))
    case Kill(p) => s.(procs := s.procs[p := Wake(s.procs[p], s.procs[p].chan)])
    case ForkAlloc(c) => AllocStep(s, s.cpus[c].value)
    case ForkFail(c) => FailAt(s, s.cpus[c].value, Current(s, c).child.value)
    case ForkParent(c) => LinkAt(s, s.cpus[c].value, Current(s, c).child.value)
    case ForkDone(c) => DoneAt(s, s.cpus[c].value, Current(s, c).child.value)
    case Exit(c) =>
      var p := s.cpus[c].value;
      var left := ExitAll(s.procs, p, s.init);
      Leave(s.(procs := left), c, left[p].(state := ZOMBIE, gone := true))
    case Wait(c, pid, killed) => WaitStep(s, c, pid, killed)
  }

  /** Slot `i` of process `p`'s fork: allocated, given up, linked, released. */
  function AllocAt(s: State, p: nat, i: nat): State
    requires p < |s.procs| && i < |s.procs|
  {
    s.(procs := s.procs[i := s.procs[i].(state := EMBRYO, pid := s.nextpid)][p := s.procs[p].(child := Some(i))],
       nextpid := s.nextpid + 1)
  }

  function FailAt(s: State, p: nat, i: nat): State
    requires p < |s.procs| && i < |s.procs|
  {
    s.(procs := s.procs[i := s.procs[i].(state := UNUSED)][p := s.procs[p].(child := None)])
  }

  function LinkAt(s: State, p: nat, i: nat): State
    requires p < |s.procs| && i < |s.procs|
  {
    s.(procs := s.procs[i := s.procs[i].(parent := Some(p))])
  }

  function DoneAt(s: State, p: nat, i: nat): State
    requires p < |s.procs| && i < |s.procs|
  {
    s.(procs := s.procs[i := s.procs[i].(state := RUNNABLE)][p := s.procs[p].(child := None)])
  }

  function AllocStep(s: State, p: nat): State
    requires p < |s.procs|
  {
    match FirstUnused(s.procs, 0)
    case None => s
    case Some(i) => AllocAt(s, p, i)
  }

  function WaitStep(s: State, c: nat, pid: int, killed: bool): State
    requires Running(s, c)
  {
    var p := s.cpus[c].value;
    match FirstReapable(s.procs, p, pid, 0)
    case Some(z) => s.(procs := s.procs[z := FREE])
    case None =>
      if !HasKids(s.procs, p) || killed then s
      else Leave(s, c, s.procs[p].(state := SLEEPING, chan := Slot(p), waits := pid))
  }

  // ----- the invariant -----------------------------------------------------

  /** A process is RUNNING exactly when it is current on a CPU, and on one CPU only. */
  ghost predicate CpusMatch(s: State) {
    && (forall c :: 0 <= c < |s.cpus| && s.cpus[c].Some? ==>
          s.cpus[c].value < |s.procs| && s.procs[s.cpus[c].value].state == RUNNING)
    && (forall p :: 0 <= p < |s.procs| && s.procs[p].state == RUNNING ==> OnCpu(s, p))
    && (forall c, d :: 0 <= c < |s.cpus| && 0 <= d < |s.cpus| && s.cpus[c].Some? && s.cpus[c] == s.cpus[d] ==> c == d)
  }

  ghost predicate OnCpu(s: State, p: nat) {
    exists c :: 0 <= c < |s.cpus| && s.cpus[c] == Some(p)
  }

  /** Parents are alive; every process but init has one; only free slots have none. */
  ghost predicate ParentsLive(s: State) {
    && s.init < |s.procs| && Alive(s.procs[s.init]) && s.procs[s.init].parent.None?
    && (forall p :: 0 <= p < |s.procs| && s.procs[p].parent.Some? ==> s.procs[p].parent.value < |s.procs|)
    && (forall p, q :: 0 <= p < |s.procs| && 0 <= q < |s.procs| && s.procs[p].parent == Some(q) ==> Alive(s.procs[q]))
    && (forall p :: 0 <= p < |s.procs| && s.procs[p].state == UNUSED ==> s.procs[p].parent.None?)
    && (forall p :: 0 <= p < |s.procs| && p != s.init && (Alive(s.procs[p]) || s.procs[p].state == ZOMBIE) ==>
          s.procs[p].parent.Some?)
  }

  /** Process `p` sleeps in waitpid. */
  predicate InWait(s: State, p: nat)
    requires p < |s.procs|
  {
    s.procs[p].state == SLEEPING && s.procs[p].chan == Slot(p)
  }

  /** Nobody sleeps in waitpid in front of a child that it could reap. */
  ghost predicate WaitersWait(s: State) {
    && (forall p :: 0 <= p < |s.procs| && s.procs[p].state == SLEEPING && s.procs[p].chan.Slot? ==>
          s.procs[p].chan.p == p)
    && (forall p, z :: 0 <= p < |s.procs| && 0 <= z < |s.procs| && InWait(s, p) ==>
          !Reapable(s.procs[z], p, s.procs[p].waits))
  }

  /** Process ids in use differ. */
  ghost predicate PidsDiffer(s: State) {
    && (forall p :: 0 <= p < |s.procs| && s.procs[p].state != UNUSED ==> 0 < s.procs[p].pid < s.nextpid)
    && (forall p, q :: 0 <= p < q < |s.procs| ==>
          s.procs[p].state == UNUSED || s.procs[q].state == UNUSED || s.procs[p].pid != s.procs[q].pid)
  }

  /** A parent is older than its children, and init is the oldest. */
  ghost predicate PidsGrow(s: State) {
    && s.init < |s.procs|
    && (forall p :: 0 <= p < |s.procs| && p != s.init && s.procs[p].state != UNUSED ==>
          s.procs[s.init].pid < s.procs[p].pid)
    && (forall p, q :: 0 <= p < |s.procs| && 0 <= q < |s.procs| ==> Older(s, p, q))
  }

  predicate Older(s: State, p: nat, q: nat)
    requires p < |s.procs| && q < |s.procs|
  {
    s.procs[q].parent == Some(p) || s.procs[p].child == Some(q) ==> s.procs[p].pid < s.procs[q].pid
  }

  /** A fork in progress has a slot of its own. */
  ghost predicate ForksMatch(s: State) {
    && (forall p :: 0 <= p < |s.procs| && s.procs[p].child.Some? ==>
          Alive(s.procs[p]) && s.procs[p].child.value < |s.procs|)
    && (forall p, q :: 0 <= p < q < |s.procs| ==> s.procs[p].child.None? || s.procs[p].child != s.procs[q].child)
  }

  /** That slot is in the making, and its parent, once set, is the forking process. */
  ghost predicate Embryos(s: State) {
    forall p, i :: 0 <= p < |s.procs| && 0 <= i < |s.procs| ==> Embryo(s, p, i)
  }

  predicate Embryo(s: State, p: nat, i: nat)
    requires p < |s.procs| && i < |s.procs|
  {
    && (s.procs[p].child == Some(i) ==>
          s.procs[i].state == EMBRYO && (s.procs[i].parent.None? || s.procs[i].parent == Some(p)))
    && (s.procs[i].state == EMBRYO && s.procs[i].parent == Some(p) ==> s.procs[p].child == Some(i))
  }

  /** Every slot in the making belongs to a fork in progress: none leaks. */
  ghost predicate NoLeaks(s: State) {
    forall i :: 0 <= i < |s.procs| && s.procs[i].state == EMBRYO ==> Forked(s, i)
  }

  ghost predicate Forked(s: State, i: nat) {
    exists p :: 0 <= p < |s.procs| && s.procs[p].child == Some(i)
  }

  /** Who called exit never runs again. */
  ghost predicate GoneStay(s: State) {
    forall p :: 0 <= p < |s.procs| ==> (s.procs[p].gone <==> s.procs[p].state == ZOMBIE)
  }

  ghost predicate Inv(s: State) {
    CpusMatch(s) && ParentsLive(s) && WaitersWait(s) && PidsDiffer(s) && PidsGrow(s) && ForksMatch(s) && Embryos(s)
    && NoLeaks(s) && GoneStay(s)
  }

  // ----- every step keeps it -----------------------------------------------

  lemma SameCpus(s: State, r: State)
    requires CpusMatch(s) && r.cpus == s.cpus && |r.procs| == |s.procs|
    requires forall p :: 0 <= p < |s.procs| ==> (r.procs[p].state == RUNNING <==> s.procs[p].state == RUNNING)
    ensures CpusMatch(r)
  {
    forall p | 0 <= p < |r.procs| && r.procs[p].state == RUNNING ensures OnCpu(r, p) {
      assert OnCpu(s, p);
    }
  }

  lemma LeaveCpus(s: State, c: nat, p: Proc)
    requires CpusMatch(s) && Running(s, c) && p.state != RUNNING
    ensures CpusMatch(Leave(s, c, p))
  {
    var r := Leave(s, c, p);
    forall q | 0 <= q < |r.procs| && r.procs[q].state == RUNNING ensures OnCpu(r, q) {
      assert OnCpu(s, q);
      var d :| 0 <= d < |s.cpus| && s.cpus[d] == Some(q);
      assert r.cpus[d] == Some(q);
    }
  }

  lemma DispatchCpus(s: State, c: nat, p: nat)
    requires CpusMatch(s) && Enabled(s, Dispatch(c, p))
    ensures CpusMatch(Next(s, Dispatch(c, p)))
  {
    var r := Next(s, Dispatch(c, p));
    forall q | 0 <= q < |r.procs| && r.procs[q].state == RUNNING ensures OnCpu(r, q) {
      if q == p {
        assert r.cpus[c] == Some(p);
      } else {
        assert OnCpu(s, q);
        var d :| 0 <= d < |s.cpus| && s.cpus[d] == Some(q);
        assert r.cpus[d] == Some(q);
      }
    }
  }

  lemma ExitCpus(s: State, c: nat)
    requires CpusMatch(s) && Enabled(s, Exit(c))
    ensures CpusMatch(Next(s, Exit(c)))
  {
    var p := s.cpus[c].value;
    var left := ExitAll(s.procs, p, s.init);
    hide CpusMatch, ZombieKid;
    SameCpus(s, s.(procs := left));
    LeaveCpus(s.(procs := left), c, left[p].(state := ZOMBIE, gone := true));
  }

  lemma StepCpus(s: State, a: Step)
    requires CpusMatch(s) && Embryos(s) && Enabled(s, a)
    ensures CpusMatch(Next(s, a))
  {
    hide CpusMatch;
    match a
    case Dispatch(c, p) => DispatchCpus(s, c, p);
    case Yield(c) => LeaveCpus(s, c, Current(s, c).(state := RUNNABLE));
    case Sleep(c, addr) => LeaveCpus(s, c, Current(s, c).(state := SLEEPING, chan := Other(addr)));
    case Wakeup(addr) => SameCpus(s, Next(s, a));
    case Kill(p) => SameCpus(s, Next(s, a));
    case ForkAlloc(c) => SameCpus(s, Next(s, a));
    case ForkFail(c) =>
      assert Embryo(s, s.cpus[c].value, Current(s, c).child.value);
      SameCpus(s, Next(s, a));
    case ForkParent(c) => SameCpus(s, Next(s, a));
    case ForkDone(c) =>
      assert Embryo(s, s.cpus[c].value, Current(s, c).child.value);
      SameCpus(s, Next(s, a));
    case Exit(c) => ExitCpus(s, c);
    case Wait(c, pid, killed) =>
      if FirstReapable(s.procs, s.cpus[c].value, pid, 0).Some? {
        SameCpus(s, Next(s, a));
      } else {
        LeaveCpus(s, c, Current(s, c).(state := SLEEPING, chan := Slot(s.cpus[c].value), waits := pid));
      }
  }

  // ----- steps that only schedule ------------------------------------------

  /** Only scheduling changed: who lives, who is whose child and who forks stays. */
  ghost predicate Shuffled(s: State, r: State) {
    && |r.procs| == |s.procs| && r.init == s.init && r.nextpid == s.nextpid
    && forall p :: 0 <= p < |s.procs| ==> SameProcess(s.procs[p], r.procs[p])
  }

  predicate SameProcess(p: Proc, q: Proc) {
    && q.pid == p.pid && q.parent == p.parent && q.child == p.child && q.gone == p.gone
    && (if Alive(p) then Alive(q) else q.state == p.state)
  }

  lemma ShuffledParents(s: State, r: State)
    requires Shuffled(s, r) && ParentsLive(s)
    ensures ParentsLive(r)
  {
    assert SameProcess(s.procs[s.init], r.procs[s.init]);
  }

  lemma ShuffledPids(s: State, r: State)
    requires Shuffled(s, r) && PidsDiffer(s) && PidsGrow(s)
    ensures PidsDiffer(r) && PidsGrow(r)
  {
    assert SameProcess(s.procs[s.init], r.procs[s.init]);
    forall q, j | 0 <= q < |r.procs| && 0 <= j < |r.procs| ensures Older(r, q, j) {
      assert Older(s, q, j);
    }
  }

  lemma ShuffledForks(s: State, r: State)
    requires Shuffled(s, r) && ForksMatch(s) && Embryos(s)
    ensures ForksMatch(r) && Embryos(r)
  {
    forall q, j | 0 <= q < |r.procs| && 0 <= j < |r.procs| ensures Embryo(r, q, j) {
      assert Embryo(s, q, j);
    }
  }

  lemma ShuffledLeaks(s: State, r: State)
    requires Shuffled(s, r) && NoLeaks(s)
    ensures NoLeaks(r)
  {
    forall i | 0 <= i < |r.procs| && r.procs[i].state == EMBRYO ensures Forked(r, i) {
      assert SameProcess(s.procs[i], r.procs[i]);
      assert Forked(s, i);
      var p :| 0 <= p < |s.procs| && s.procs[p].child == Some(i);
      assert SameProcess(s.procs[p], r.procs[p]);
    }
  }

  lemma ShuffledGone(s: State, r: State)
    requires Shuffled(s, r) && GoneStay(s)
    ensures GoneStay(r)
  {
    forall p | 0 <= p < |r.procs| ensures r.procs[p].gone <==> r.procs[p].state == ZOMBIE {
      assert SameProcess(s.procs[p], r.procs[p]);
    }
  }

  predicate Schedules(s: State, a: Step)
    requires Enabled(s, a)
  {
    a.Dispatch? || a.Yield? || a.Sleep? || a.Wakeup? || a.Kill? ||
    (a.Wait? && FirstReapable(s.procs, s.cpus[a.c].value, a.pid, 0).None?)
  }

  lemma StepShuffles(s: State, a: Step)
    requires CpusMatch(s) && Enabled(s, a) && Schedules(s, a)
    ensures Shuffled(s, Next(s, a))
  {
  }

  lemma ShuffleWaiters(s: State, a: Step)
    requires CpusMatch(s) && WaitersWait(s) && Enabled(s, a) && Schedules(s, a)
    ensures WaitersWait(Next(s, a))
  {
  }

  lemma ScheduleKeeps(s: State, a: Step)
    requires Inv(s) && Enabled(s, a) && Schedules(s, a)
    ensures Inv(Next(s, a))
  {
    hide Next, CpusMatch, ParentsLive, WaitersWait, PidsDiffer, PidsGrow, ForksMatch, Embryos, NoLeaks, GoneStay,
         Shuffled;
    StepCpus(s, a);
    StepShuffles(s, a);
    ShuffleWaiters(s, a);
    ShuffledParents(s, Next(s, a));
    ShuffledPids(s, Next(s, a));
    ShuffledForks(s, Next(s, a));
    ShuffledLeaks(s, Next(s, a));
    ShuffledGone(s, Next(s, a));
  }

  // ----- fork --------------------------------------------------------------

  /** `r` is `s` after a step of `p`'s fork into slot `i`. */
  ghost predicate ForkEdit(s: State, r: State, p: nat, i: nat) {
    && |r.procs| == |s.procs| && r.init == s.init && p < |s.procs| && i < |s.procs| && p != i
    && (forall q :: 0 <= q < |s.procs| && q != p && q != i ==> r.procs[q] == s.procs[q])
    && Alive(s.procs[p]) && r.procs[p] == s.procs[p].(child := r.procs[p].child)
    && (if s.procs[i].state == UNUSED then s.procs[p].child.None?
        else s.procs[i].state == EMBRYO && s.procs[p].child == Some(i))
    && EditedSlot(s, r, p, i)
  }

  ghost predicate EditedSlot(s: State, r: State, p: nat, i: nat)
    requires |r.procs| == |s.procs| && p < |s.procs| && i < |s.procs|
  {
    var was, now := s.procs[i], r.procs[i];
    && now == was.(state := now.state, pid := now.pid, parent := now.parent)
    && now.state in {UNUSED, EMBRYO, RUNNABLE}
    && (r.procs[p].child == if now.state == EMBRYO then Some(i) else None)
    && (now.state == UNUSED ==> now.parent.None?) && (now.state == RUNNABLE ==> now.parent == Some(p))
    && (now.parent.None? || (now.parent == Some(p) && was.state == EMBRYO))
    && (if was.state == EMBRYO then now.pid == was.pid && r.nextpid == s.nextpid
        else now.pid == s.nextpid && now.state == EMBRYO && r.nextpid == s.nextpid + 1)
  }

  lemma EditParents(s: State, r: State, p: nat, i: nat)
    requires ParentsLive(s) && ForkEdit(s, r, p, i)
    ensures ParentsLive(r)
  {
  }

  lemma EditWaiters(s: State, r: State, p: nat, i: nat)
    requires WaitersWait(s) && GoneStay(s) && ForkEdit(s, r, p, i)
    ensures WaitersWait(r) && GoneStay(r)
  {
  }

  lemma EditDiffer(s: State, r: State, p: nat, i: nat)
    requires PidsDiffer(s) && ForkEdit(s, r, p, i)
    ensures PidsDiffer(r)
  {
  }

  lemma EditGrow(s: State, r: State, p: nat, i: nat)
    requires ParentsLive(s) && PidsDiffer(s) && PidsGrow(s) && ForksMatch(s) && Embryos(s) && ForkEdit(s, r, p, i)
    ensures PidsGrow(r)
  {
    forall q, j | 0 <= q < |r.procs| && 0 <= j < |r.procs| ensures Older(r, q, j) {
      assert Older(s, q, j) && Embryo(s, q, j);
    }
  }

  lemma EditForks(s: State, r: State, p: nat, i: nat)
    requires ForksMatch(s) && Embryos(s) && ForkEdit(s, r, p, i)
    ensures ForksMatch(r)
  {
    forall q | 0 <= q < |s.procs| && q != p ensures s.procs[q].child != Some(i) {
      assert Embryo(s, q, i);
    }
  }

  lemma EditEmbryos(s: State, r: State, p: nat, i: nat)
    requires ParentsLive(s) && ForksMatch(s) && Embryos(s) && ForkEdit(s, r, p, i)
    ensures Embryos(r)
  {
    forall q, j | 0 <= q < |r.procs| && 0 <= j < |r.procs| ensures Embryo(r, q, j) {
      assert Embryo(s, q, j) && Embryo(s, q, i);
    }
  }

  lemma EditLeaks(s: State, r: State, p: nat, i: nat)
    requires NoLeaks(s) && ForkEdit(s, r, p, i)
    ensures NoLeaks(r)
  {
    forall j | 0 <= j < |r.procs| && r.procs[j].state == EMBRYO ensures Forked(r, j) {
      if j == i {
        assert r.procs[p].child == Some(i);
      } else {
        assert Forked(s, j);
        var k :| 0 <= k < |s.procs| && s.procs[k].child == Some(j);
        assert r.procs[k].child == Some(j);
      }
    }
  }

  predicate Forks(a: Step) {
    a.ForkAlloc? || a.ForkFail? || a.ForkParent? || a.ForkDone?
  }

  lemma ForkEdits(s: State, a: Step, i: nat)
    requires CpusMatch(s) && ParentsLive(s) && Embryos(s) && Enabled(s, a) && Forks(a)
    requires Some(i) == if a.ForkAlloc? then FirstUnused(s.procs, 0) else Current(s, a.c).child
    ensures ForkEdit(s, Next(s, a), s.cpus[a.c].value, i)
  {
    var p := s.cpus[a.c].value;
    assert Embryo(s, p, i);
    assert s.procs[p].state == RUNNING;
    assert s.procs[i].state == UNUSED ==> s.procs[i].parent.None?;
    hide CpusMatch, ParentsLive, Embryos;
    if a.ForkAlloc? { AllocEdits(s, p, i); }
  }

  lemma AllocEdits(s: State, p: nat, i: nat)
    requires p < |s.procs| && i < |s.procs| && Alive(s.procs[p]) && s.procs[p].child.None?
    requires s.procs[i].state == UNUSED && s.procs[i].parent.None?
    ensures ForkEdit(s, AllocAt(s, p, i), p, i)
  {
  }

  lemma ForkKeeps(s: State, a: Step)
    requires Inv(s) && Enabled(s, a) && Forks(a)
    ensures Inv(Next(s, a))
  {
    var p, slot := s.cpus[a.c].value, if a.ForkAlloc? then FirstUnused(s.procs, 0) else Current(s, a.c).child;
    hide CpusMatch, ParentsLive, WaitersWait, PidsDiffer, PidsGrow, ForksMatch, Embryos, NoLeaks, GoneStay, ForkEdit;
    if slot.Some? {
      var i, r := slot.value, Next(s, a);
      hide Next;
      StepCpus(s, a);
      ForkEdits(s, a, i);
      EditParents(s, r, p, i);
      EditWaiters(s, r, p, i);
      EditDiffer(s, r, p, i);
      EditGrow(s, r, p, i);
      EditForks(s, r, p, i);
      EditEmbryos(s, r, p, i);
      EditLeaks(s, r, p, i);
    }
  }

  // ----- exit --------------------------------------------------------------

  /** Slot `q` before and after `p` exits. */
  predicate AfterExit(q: Proc, r: Proc, mine: bool, p: nat, init: nat) {
    && r.pid == q.pid && r.child == q.child && r.chan == q.chan && r.waits == q.waits
    && r.parent == (if q.parent == Some(p) then Some(init) else q.parent)
    && (if mine then r.state == ZOMBIE && r.gone
        else r.gone == q.gone && (r.state == q.state || (q.state == SLEEPING && r.state == RUNNABLE)))
  }

  /** `r` is `s` after `p` exits. */
  ghost predicate Exited(s: State, r: State, p: nat) {
    && |r.procs| == |s.procs| && r.init == s.init < |s.procs| && r.nextpid == s.nextpid
    && p < |s.procs| && p != s.init && s.procs[p].state == RUNNING && s.procs[p].child.None?
    && forall q :: 0 <= q < |s.procs| ==> AfterExit(s.procs[q], r.procs[q], q == p, p, s.init)
  }

  lemma ExitShape(s: State, c: nat)
    requires CpusMatch(s) && s.init < |s.procs| && Enabled(s, Exit(c))
    ensures Exited(s, Next(s, Exit(c)), s.cpus[c].value)
  {
  }

  lemma ExitParents(s: State, r: State, p: nat)
    requires ParentsLive(s) && PidsGrow(s) && Exited(s, r, p)
    ensures ParentsLive(r)
  {
    assert AfterExit(s.procs[s.init], r.procs[s.init], false, p, s.init);
    assert Older(s, p, p);
    forall q, o | 0 <= q < |r.procs| && 0 <= o < |r.procs| && r.procs[q].parent == Some(o)
      ensures Alive(r.procs[o])
    {
      assert AfterExit(s.procs[q], r.procs[q], q == p, p, s.init);
      assert AfterExit(s.procs[o], r.procs[o], o == p, p, s.init);
    }
  }

  lemma ExitPids(s: State, r: State, p: nat)
    requires ParentsLive(s) && PidsDiffer(s) && PidsGrow(s) && Exited(s, r, p)
    ensures PidsDiffer(r) && PidsGrow(r)
  {
    assert AfterExit(s.procs[s.init], r.procs[s.init], false, p, s.init);
    forall q, o | 0 <= q < |r.procs| && 0 <= o < |r.procs| ensures Older(r, q, o) {
      assert AfterExit(s.procs[q], r.procs[q], q == p, p, s.init);
      assert AfterExit(s.procs[o], r.procs[o], o == p, p, s.init);
      assert Older(s, q, o);
    }
  }

  lemma ExitForks(s: State, r: State, p: nat)
    requires ParentsLive(s) && ForksMatch(s) && Embryos(s) && Exited(s, r, p)
    ensures ForksMatch(r) && Embryos(r)
  {
    forall q, j | 0 <= q < |r.procs| && 0 <= j < |r.procs| ensures Embryo(r, q, j) {
      assert AfterExit(s.procs[q], r.procs[q], q == p, p, s.init);
      assert AfterExit(s.procs[j], r.procs[j], j == p, p, s.init);
      assert Embryo(s, q, j) && Embryo(s, p, j);
    }
  }

  lemma ExitLeaks(s: State, r: State, p: nat)
    requires NoLeaks(s) && GoneStay(s) && Exited(s, r, p)
    ensures NoLeaks(r) && GoneStay(r)
  {
    forall j | 0 <= j < |r.procs| && r.procs[j].state == EMBRYO ensures Forked(r, j) {
      assert AfterExit(s.procs[j], r.procs[j], j == p, p, s.init);
      assert Forked(s, j);
      var k :| 0 <= k < |s.procs| && s.procs[k].child == Some(j);
      assert AfterExit(s.procs[k], r.procs[k], k == p, p, s.init);
    }
  }

  /** Whoever sleeps in waitpid after the exit slept before, and is neither the parent of
      `p` nor, if a zombie was handed over, init. */
  lemma ExitWaiter(s: State, c: nat, q: nat)
    requires CpusMatch(s) && s.init < |s.procs| && Enabled(s, Exit(c)) && q < |s.procs|
    requires InWait(Next(s, Exit(c)), q)
    ensures InWait(s, q) && Current(s, c).parent != Some(q)
    ensures q == s.init ==> !ZombieKid(s.procs, s.cpus[c].value)
  {
  }

  lemma ExitWaiters(s: State, c: nat)
    requires CpusMatch(s) && ParentsLive(s) && PidsGrow(s) && WaitersWait(s) && Enabled(s, Exit(c))
    ensures WaitersWait(Next(s, Exit(c)))
  {
    var r, p := Next(s, Exit(c)), s.cpus[c].value;
    ExitShape(s, c);
    assert Older(s, p, p);
    hide Next, CpusMatch, ParentsLive, PidsGrow;
    forall q | 0 <= q < |r.procs| && r.procs[q].state == SLEEPING && r.procs[q].chan.Slot?
      ensures r.procs[q].chan.p == q
    {
      assert AfterExit(s.procs[q], r.procs[q], q == p, p, s.init);
    }
    forall q, z | 0 <= q < |r.procs| && 0 <= z < |r.procs| && InWait(r, q)
      ensures !Reapable(r.procs[z], q, r.procs[q].waits)
    {
      assert AfterExit(s.procs[q], r.procs[q], q == p, p, s.init);
      assert AfterExit(s.procs[z], r.procs[z], z == p, p, s.init);
      ExitWaiter(s, c, q);
      assert !Reapable(s.procs[z], q, s.procs[q].waits);
    }
  }

  lemma ExitKeeps(s: State, c: nat)
    requires Inv(s) && Enabled(s, Exit(c))
    ensures Inv(Next(s, Exit(c)))
  {
    var r, p := Next(s, Exit(c)), s.cpus[c].value;
    ExitShape(s, c);
    StepCpus(s, Exit(c));
    hide Next, CpusMatch, ParentsLive, WaitersWait, PidsDiffer, PidsGrow, ForksMatch, Embryos, NoLeaks, GoneStay,
         Exited;
    ExitParents(s, r, p);
    ExitPids(s, r, p);
    ExitForks(s, r, p);
    ExitLeaks(s, r, p);
    ExitWaiters(s, c);
  }

  // ----- reaping -----------------------------------------------------------

  function ReapAt(s: State, z: nat): State
    requires z < |s.procs|
  {
    s.(procs := s.procs[z := FREE])
  }

  lemma ReapParents(s: State, z: nat)
    requires ParentsLive(s) && WaitersWait(s) && GoneStay(s) && z < |s.procs| && s.procs[z].state == ZOMBIE
    ensures ParentsLive(ReapAt(s, z)) && WaitersWait(ReapAt(s, z)) && GoneStay(ReapAt(s, z))
  {
  }

  lemma ReapPids(s: State, z: nat)
    requires ParentsLive(s) && PidsDiffer(s) && PidsGrow(s) && Embryos(s) && z < |s.procs| && s.procs[z].state == ZOMBIE
    ensures PidsDiffer(ReapAt(s, z)) && PidsGrow(ReapAt(s, z))
  {
    var r := ReapAt(s, z);
    forall q, o | 0 <= q < |r.procs| && 0 <= o < |r.procs| ensures Older(r, q, o) {
      assert Older(s, q, o) && Embryo(s, q, o);
    }
  }

  lemma ReapForks(s: State, z: nat)
    requires ParentsLive(s) && ForksMatch(s) && Embryos(s) && z < |s.procs| && s.procs[z].state == ZOMBIE
    ensures ForksMatch(ReapAt(s, z)) && Embryos(ReapAt(s, z))
  {
    var r := ReapAt(s, z);
    forall q, j | 0 <= q < |r.procs| && 0 <= j < |r.procs| ensures Embryo(r, q, j) {
      assert Embryo(s, q, j);
    }
  }

  lemma ReapLeaks(s: State, z: nat)
    requires ForksMatch(s) && NoLeaks(s) && z < |s.procs| && s.procs[z].state == ZOMBIE
    ensures NoLeaks(ReapAt(s, z))
  {
    var r := ReapAt(s, z);
    forall j | 0 <= j < |r.procs| && r.procs[j].state == EMBRYO ensures Forked(r, j) {
      assert Forked(s, j);
      var k :| 0 <= k < |s.procs| && s.procs[k].child == Some(j);
      assert r.procs[k].child == Some(j);
    }
  }

  lemma ReapKeeps(s: State, a: Step)
    requires Inv(s) && Enabled(s, a) && a.Wait? && !Schedules(s, a)
    ensures Inv(Next(s, a))
  {
    var z := FirstReapable(s.procs, s.cpus[a.c].value, a.pid, 0).value;
    StepCpus(s, a);
    assert Next(s, a) == ReapAt(s, z);
    hide Next, CpusMatch, ParentsLive, WaitersWait, PidsDiffer, PidsGrow, ForksMatch, Embryos, NoLeaks, GoneStay,
         ReapAt;
    ReapParents(s, z);
    ReapPids(s, z);
    ReapForks(s, z);
    ReapLeaks(s, z);
  }

  /** Every step of every CPU keeps the invariant. */
  lemma StepKeepsInv(s: State, a: Step)
    requires Inv(s) && Enabled(s, a)
    ensures Inv(Next(s, a))
  {
    hide Inv, Next, Enabled;
    if Schedules(s, a) {
      ScheduleKeeps(s, a);
    } else if Forks(a) {
      ForkKeeps(s, a);
    } else if a.Exit? {
      ExitKeeps(s, a.c);
    } else {
      ReapKeeps(s, a);
    }
  }

  // ----- runs --------------------------------------------------------------

  /** After userinit: init is runnable and every other slot is free. */
  ghost predicate Boot(s: State) {
    && s.init < |s.procs| && s.nextpid == 2 && s.procs[s.init] == FREE.(state := RUNNABLE, pid := 1)
    && (forall p :: 0 <= p < |s.procs| && p != s.init ==> s.procs[p] == FREE)
    && (forall c :: 0 <= c < |s.cpus| ==> s.cpus[c].None?)
  }

  ghost predicate IsRun(run: seq<State>, steps: seq<Step>) {
    && |run| == |steps| + 1 && Boot(run[0])
    && forall i :: 0 <= i < |steps| ==> Enabled(run[i], steps[i]) && run[i + 1] == Next(run[i], steps[i])
  }

  lemma BootInv(s: State)
    requires Boot(s)
    ensures Inv(s)
  {
    hide CpusMatch, WaitersWait, PidsDiffer, ForksMatch, NoLeaks, GoneStay;
    BootRest(s);
  }

  lemma BootRest(s: State)
    requires Boot(s)
    ensures CpusMatch(s) && WaitersWait(s) && PidsDiffer(s) && ForksMatch(s) && NoLeaks(s) && GoneStay(s)
  {
  }

  lemma {:induction false} RunKeepsInv(run: seq<State>, steps: seq<Step>, i: nat)
    requires IsRun(run, steps) && i < |run|
    ensures Inv(run[i])
    decreases i
  {
    hide Inv, Next, Enabled;
    if i > 0 {
      var k := i - 1;
      RunKeepsInv(run, steps, k);
      assert Enabled(run[k], steps[k]) && run[k + 1] == Next(run[k], steps[k]);
      StepKeepsInv(run[k], steps[k]);
    } else {
      BootInv(run[0]);
    }
  }

  /** In every run: RUNNING means current on exactly one CPU. */
  lemma RunningIffCurrent(run: seq<State>, steps: seq<Step>, i: nat, p: nat)
    requires IsRun(run, steps) && i < |run| && p < |run[i].procs|
    ensures run[i].procs[p].state == RUNNING <==> OnCpu(run[i], p)
    ensures forall c, d :: 0 <= c < d < |run[i].cpus| && run[i].cpus[c] == Some(p) ==> run[i].cpus[d] != Some(p)
  {
    RunKeepsInv(run, steps, i);
  }

  /** In every run: no free slot and no zombie is anyone's parent, and no process asleep in
      waitpid has a child that it could reap. */
  lemma ParentsAndWaiters(run: seq<State>, steps: seq<Step>, i: nat, p: nat, q: nat)
    requires IsRun(run, steps) && i < |run| && p < |run[i].procs| && q < |run[i].procs|
    ensures run[i].procs[p].parent == Some(q) ==> run[i].procs[q].state != UNUSED && run[i].procs[q].state != ZOMBIE
    ensures InWait(run[i], q) ==> !Reapable(run[i].procs[p], q, run[i].procs[q].waits)
  {
    RunKeepsInv(run, steps, i);
  }

  /** Following parents from `p` ends at init. */
  ghost predicate ReachesInit(s: State, p: nat)
    requires ParentsLive(s) && PidsGrow(s) && p < |s.procs|
    decreases s.procs[p].pid
  {
    p == s.init ||
    (s.procs[p].parent.Some? && assert Older(s, s.procs[p].parent.value, p); ReachesInit(s, s.procs[p].parent.value))
  }

  /** The processes form a tree with init at the root: no cycles and no orphans. */
  lemma {:induction false} ProcessTree(s: State, p: nat)
    requires ParentsLive(s) && PidsGrow(s) && p < |s.procs| && (Alive(s.procs[p]) || s.procs[p].state == ZOMBIE)
    ensures ReachesInit(s, p)
    decreases s.procs[p].pid
  {
    if p != s.init {
      var q := s.procs[p].parent.value;
      assert Older(s, q, p);
      ProcessTree(s, q);
    }
  }

  /** A process that exits while its parent sleeps in waitpid makes the parent runnable. */
  lemma ExitWakesParent(s: State, c: nat)
    requires Inv(s) && Enabled(s, Exit(c))
    ensures InWait(s, Current(s, c).parent.value) ==>
              Next(s, Exit(c)).procs[Current(s, c).parent.value].state == RUNNABLE
  {
    var q := Current(s, c).parent.value;
    ExitShape(s, c);
    assert Older(s, q, s.cpus[c].value);
    assert AfterExit(s.procs[q], Next(s, Exit(c)).procs[q], q == s.cpus[c].value, s.cpus[c].value, s.init);
    if InWait(Next(s, Exit(c)), q) { ExitWaiter(s, c, q); }
  }

  // ----- stop and continue signals -----------------------------------------

  /** prockill with SIGSTOP or SIGCONT, unhandled: the state is set whatever it was. */
  function SetState(s: State, p: nat, state: ProcState): State
    requires p < |s.procs|
  {
    s.(procs := s.procs[p := s.procs[p].(state := state)])
  }

  /** A stop or continue signal keeps the invariant exactly when its target is asleep,
      runnable or stopped already. */
  lemma SignalKeepsIff(s: State, p: nat, state: ProcState)
    requires Inv(s) && p < |s.procs| && (state == STOPPED || state == RUNNABLE)
    ensures Inv(SetState(s, p, state)) <==> s.procs[p].state in {SLEEPING, RUNNABLE, STOPPED}
  {
    var r := SetState(s, p, state);
    match s.procs[p].state
    case UNUSED => assert !ParentsLive(r) by { assert p != s.init && Alive(r.procs[p]); }
    case EMBRYO => NotForAnEmbryo(s, p, state);
    case RUNNING => NotForTheRunning(s, p, state);
    case ZOMBIE => assert !GoneStay(r) by { assert r.procs[p].gone; }
    case _ => SignalKeeps(s, p, state);
  }

  lemma NotForAnEmbryo(s: State, p: nat, state: ProcState)
    requires NoLeaks(s) && p < |s.procs| && s.procs[p].state == EMBRYO && (state == STOPPED || state == RUNNABLE)
    ensures !Embryos(SetState(s, p, state))
  {
    assert Forked(s, p);
    var k :| 0 <= k < |s.procs| && s.procs[k].child == Some(p);
    assert !Embryo(SetState(s, p, state), k, p);
  }

  lemma NotForTheRunning(s: State, p: nat, state: ProcState)
    requires CpusMatch(s) && p < |s.procs| && s.procs[p].state == RUNNING && (state == STOPPED || state == RUNNABLE)
    ensures !CpusMatch(SetState(s, p, state))
  {
    assert OnCpu(s, p);
    var c :| 0 <= c < |s.cpus| && s.cpus[c] == Some(p);
    assert SetState(s, p, state).cpus[c] == Some(p);
  }

  lemma SignalWaiters(s: State, p: nat, state: ProcState)
    requires CpusMatch(s) && WaitersWait(s) && p < |s.procs| && (state == STOPPED || state == RUNNABLE)
    requires s.procs[p].state in {SLEEPING, RUNNABLE, STOPPED}
    ensures CpusMatch(SetState(s, p, state)) && WaitersWait(SetState(s, p, state)) && Shuffled(s, SetState(s, p, state))
  {
    SameCpus(s, SetState(s, p, state));
    hide CpusMatch;
  }

  lemma SignalKeeps(s: State, p: nat, state: ProcState)
    requires Inv(s) && p < |s.procs| && (state == STOPPED || state == RUNNABLE)
    requires s.procs[p].state in {SLEEPING, RUNNABLE, STOPPED}
    ensures Inv(SetState(s, p, state))
  {
    var r := SetState(s, p, state);
    SignalWaiters(s, p, state);
    hide CpusMatch, ParentsLive, WaitersWait, PidsDiffer, PidsGrow, ForksMatch, Embryos, NoLeaks, GoneStay, Shuffled,
         SetState;
    ShuffledParents(s, r);
    ShuffledPids(s, r);
    ShuffledForks(s, r);
    ShuffledLeaks(s, r);
    ShuffledGone(s, r);
  }

  /** From boot: init, running on CPU 0, sends itself SIGCONT, and the scheduler of CPU 1 takes
      it as well. */
  lemma AContinuedProcessRunsTwice(s: State)
    requires Boot(s) && |s.cpus| >= 2
    ensures var s1 := Next(s, Dispatch(0, s.init));
      var s2 := SetState(s1, s.init, RUNNABLE);
      var s3 := Next(s2, Dispatch(1, s.init));
      && Enabled(s, Dispatch(0, s.init)) && Inv(s1) && Enabled(s2, Dispatch(1, s.init)) && !Inv(s2)
      && s3.cpus[0] == s3.cpus[1] == Some(s.init)
  {
    BootInv(s);
    StepKeepsInv(s, Dispatch(0, s.init));
    SignalKeepsIff(Next(s, Dispatch(0, s.init)), s.init, RUNNABLE);
  }

  /** kill_all_procs with SIGSTOP or SIGCONT, unhandled: every slot is set, free or not. */
  function SetAll(s: State, state: ProcState): (r: State)
    ensures |r.procs| == |s.procs| && r.cpus == s.cpus
    ensures forall p :: 0 <= p < |s.procs| ==> r.procs[p] == s.procs[p].(state := state)
  {
    s.(procs := seq(|s.procs|, p requires 0 <= p < |s.procs| => s.procs[p].(state := state)))
  }

  /** From boot: init, running on CPU 0, calls kill(-1, SIGCONT). Every free slot is runnable, so
      that the scheduler of another CPU may switch to a slot that holds no process. */
  lemma AContinuedFreeSlotIsDispatched(s: State, p: nat, c: nat)
    requires Boot(s) && p < |s.procs| && p != s.init && 0 < c < |s.cpus|
    ensures var s1 := Next(s, Dispatch(0, s.init));
      var s2 := SetAll(s1, RUNNABLE);
      && Enabled(s, Dispatch(0, s.init)) && Inv(s1) && s1.procs[p].state == UNUSED
      && !Inv(s2) && Enabled(s2, Dispatch(c, p)) && s2.procs[p].pid == 0
  {
    BootInv(s);
    StepKeepsInv(s, Dispatch(0, s.init));
    var s2 := SetAll(Next(s, Dispatch(0, s.init)), RUNNABLE);
    assert !ParentsLive(s2) by { assert p != s2.init && Alive(s2.procs[p]); }
  }

  // ----- the code ----------------------------------------------------------

  /** What one pass of waitpid's outer loop comes to. */
  datatype Waited = Reaped(pid: nat) | NoChild | Asleep

  /** The table in memory. Each method is one step of the system above, so StepKeepsInv says
      that it keeps the invariant. */
  class Table {
    const proc: array<Proc>
    const cpus: array<Option<nat>>
    const init: nat
    var nextpid: nat

    ghost function View(): State
      reads this, proc, cpus
    {
      State(proc[..], cpus[..], nextpid, init)
    }

    /** The table after userinit, which makes process 1 in slot `first`. */
    constructor (nproc: nat, ncpu: nat, first: nat)
      requires first < nproc
      ensures fresh(proc) && fresh(cpus) && proc.Length == nproc && cpus.Length == ncpu && Boot(View())
    {
      proc := new Proc[nproc](i => if i == first then FREE.(state := RUNNABLE, pid := 1) else FREE);
      cpus := new Option<nat>[ncpu](_ => None);
      init, nextpid := first, 2;
    }

    /** wakeup1 */
    method Wakeup1(chan: Chan)
      modifies proc
      ensures proc[..] == WakeAll(old(proc[..]), chan)
    {
      for i := 0 to proc.Length
        invariant forall k :: 0 <= k < i ==> proc[k] == Wake(old(proc[k]), chan)
        invariant forall k :: i <= k < proc.Length ==> proc[k] == old(proc[k])
      {
        if proc[i].state == SLEEPING && proc[i].chan == chan {
          proc[i] := proc[i].(state := RUNNABLE);
        }
      }
    }

    /** One pass of scheduler's search, from slot `from` on. */
    method Dispatch(c: nat, from: nat) returns (p: Option<nat>)
      requires c < cpus.Length && cpus[c].None? && from <= proc.Length
      modifies proc, cpus
      ensures p.Some? ==> from <= p.value < proc.Length && old(proc[p.value]).state == RUNNABLE
      ensures p.Some? ==> View() == Next(old(View()), Step.Dispatch(c, p.value))
      ensures p.None? ==> View() == old(View())
      ensures forall k :: from <= k < (if p.Some? then p.value else proc.Length) ==> old(proc[k]).state != RUNNABLE
    {
      var i := from;
      while i < proc.Length && proc[i].state != RUNNABLE
        invariant from <= i <= proc.Length
        invariant forall k :: from <= k < i ==> proc[k].state != RUNNABLE
      {
        i := i + 1;
      }
      if i == proc.Length { return None; }
      ghost var before := View();
      cpus[c] := Some(i);
      proc[i] := proc[i].(state := RUNNING, chan := NoChan);
      assert View() == Next(before, Step.Dispatch(c, i));
      p := Some(i);
    }

    /** yield */
    method Yield(c: nat)
      requires Running(View(), c)
      modifies proc, cpus
      ensures View() == Next(old(View()), Step.Yield(c))
    {
      var p := cpus[c].value;
      proc[p] := proc[p].(state := RUNNABLE);
      cpus[c] := None;
      assert View() == Next(old(View()), Step.Yield(c));
    }

    /** sleep, once the other lock is released */
    method Sleep(c: nat, addr: nat)
      requires Running(View(), c)
      modifies proc, cpus
      ensures View() == Next(old(View()), Step.Sleep(c, addr))
    {
      var p := cpus[c].value;
      proc[p] := proc[p].(chan := Other(addr));
      proc[p] := proc[p].(state := SLEEPING);
      cpus[c] := None;
      assert View() == Next(old(View()), Step.Sleep(c, addr));
    }

    /** wakeup */
    method Wakeup(addr: nat)
      modifies proc
      ensures View() == Next(old(View()), Step.Wakeup(addr))
    {
      Wakeup1(Other(addr));
    }

    /** allocproc, called by the current process of `c` in fork */
    method AllocProc(c: nat) returns (slot: Option<nat>)
      requires Enabled(View(), ForkAlloc(c)) && Current(View(), c).state == RUNNING
      modifies this`nextpid, proc
      ensures View() == Next(old(View()), ForkAlloc(c))
      ensures slot.None? <==> forall k :: 0 <= k < proc.Length ==> old(proc[k]).state != UNUSED
      ensures slot.Some? ==> slot == Current(View(), c).child && proc[slot.value].pid == old(nextpid)
    {
      var i := 0;
      while i < proc.Length && proc[i].state != UNUSED
        invariant 0 <= i <= proc.Length
        invariant FirstUnused(proc[..], 0) == FirstUnused(proc[..], i)
      {
        i := i + 1;
      }
      if i == proc.Length { return None; }
      assert FirstUnused(proc[..], 0) == Some(i);
      ghost var s := View();
      var p := cpus[c].value;
      proc[i] := proc[i].(state := EMBRYO, pid := nextpid);
      nextpid := nextpid + 1;
      proc[p] := proc[p].(child := Some(i));
      assert View() == AllocAt(s, p, i);
      slot := Some(i);
    }

    /** exit, after the files are closed */
    method Exit(c: nat)
      requires Enabled(View(), Step.Exit(c))
      modifies proc, cpus
      ensures View() == Next(old(View()), Step.Exit(c))
    {
      var p := cpus[c].value;
      ghost var procs := proc[..];
      ghost var woken := WakeAll(procs, Slot(procs[p].parent.value));
      Wakeup1(Slot(proc[p].parent.value));
      for i := 0 to proc.Length
        invariant cpus[..] == old(cpus[..])
        invariant forall k :: 0 <= k < proc.Length ==> proc[k] == Handed(procs, woken[k], p, init, i, k < i)
      {
        var mine := proc[i].parent == Some(p);
        if mine {
          proc[i] := proc[i].(parent := Some(init));
          if proc[i].state == ZOMBIE {
            Wakeup1(Slot(init));
          }
        }
        forall k | 0 <= k < proc.Length ensures proc[k] == Handed(procs, woken[k], p, init, i + 1, k < i + 1) {
          HandedStep(procs, woken[k], p, init, i);
        }
      }
      ghost var left := ExitAll(procs, p, init);
      assert proc[..] == left;
      proc[p] := proc[p].(state := ZOMBIE, gone := true);
      cpus[c] := None;
      assert proc[..] == left[p := left[p].(state := ZOMBIE, gone := true)];
    }

    /** One pass of waitpid's outer loop */
    method WaitPid(c: nat, pid: int, killed: bool) returns (r: Waited)
      requires Enabled(View(), Wait(c, pid, killed))
      modifies proc, cpus
      ensures View() == Next(old(View()), Wait(c, pid, killed))
      ensures r.Reaped? ==> exists z ::
                0 <= z < proc.Length && Reapable(old(proc[z]), old(cpus[c]).value, pid) && r.pid == old(proc[z]).pid
      ensures r.NoChild? ==> killed || !HasKids(old(proc[..]), old(cpus[c]).value)
      ensures r.Asleep? ==> !killed && HasKids(old(proc[..]), old(cpus[c]).value)
      ensures !r.Reaped? <==> forall z :: 0 <= z < proc.Length ==> !Reapable(old(proc[z]), old(cpus[c]).value, pid)
    {
      var p, havekids, i := cpus[c].value, false, 0;
      while i < proc.Length
        invariant 0 <= i <= proc.Length && View() == old(View())
        invariant FirstReapable(proc[..], p, pid, 0) == FirstReapable(proc[..], p, pid, i)
        invariant havekids <==> exists k :: 0 <= k < i && proc[k].parent == Some(p)
      {
        if proc[i].parent == Some(p) {
          havekids := true;
          if (pid == -1 || proc[i].pid == pid) && proc[i].state == ZOMBIE {
            assert FirstReapable(proc[..], p, pid, 0) == Some(i);
            r := Reaped(proc[i].pid);
            proc[i] := FREE;
            assert View() == Next(old(View()), Wait(c, pid, killed));
            return;
          }
        }
        i := i + 1;
      }
      if !havekids || killed { return NoChild; }
      proc[p] := proc[p].(state := SLEEPING, chan := Slot(p), waits := pid);
      cpus[c] := None;
      assert View() == Next(old(View()), Wait(c, pid, killed));
      r := Asleep;
    }
  }

  predicate ZombieKidBelow(procs: seq<Proc>, p: nat, n: nat)
    requires n <= |procs|
  {
    exists k :: 0 <= k < n && procs[k].parent == Some(p) && procs[k].state == ZOMBIE
  }

  /** A slot of the table `w` (already woken for the parent) after exit's loop has passed
      `n` slots; `passed` says whether it is one of them. */
  function Handed(procs: seq<Proc>, w: Proc, p: nat, init: nat, n: nat, passed: bool): Proc
    requires n <= |procs|
  {
    var q := if passed then Adopt(w, p, init) else w;
    if ZombieKidBelow(procs, p, n) then Wake(q, Slot(init)) else q
  }

  lemma HandedStep(procs: seq<Proc>, w: Proc, p: nat, init: nat, i: nat)
    requires i < |procs|
    ensures ZombieKidBelow(procs, p, i + 1) <==>
            ZombieKidBelow(procs, p, i) || (procs[i].parent == Some(p) && procs[i].state == ZOMBIE)
  {
  }
}

/** What the steps of the process table do to a process, seen from the process: from which
    state it comes to which, who wakes it, what fork, exit and waitpid come to. */
module ProcessLife {
  import opened Wrappers
  import opened ProcTable

  // ----- the diagram of states ---------------------------------------------

  /** The process that makes the step. */
  function Actor(s: State, a: Step): Option<nat>
    requires Enabled(s, a)
  {
    match a
    case Dispatch(_, _) => None
    case Wakeup(_) => None
    case Kill(_) => None
    case _ => s.cpus[a.c]
  }

  /** waitpid by `p` finds children, but none that it could reap, and `p` is not killed. */
  predicate WaitBlocks(s: State, p: nat, pid: int, killed: bool) {
    HasKids(s.procs, p) && !killed && forall z :: 0 <= z < |s.procs| ==> !Reapable(s.procs[z], p, pid)
  }

  predicate FallsAsleep(s: State, a: Step, p: nat)
    requires Enabled(s, a)
  {
    Actor(s, a) == Some(p) && (a.Sleep? || (a.Wait? && WaitBlocks(s, p, a.pid, a.killed)))
  }

  /** Slot `p` is the lowest that fork can take. */
  predicate Taken(s: State, a: Step, p: nat)
    requires Enabled(s, a) && p < |s.procs|
  {
    a.ForkAlloc? && s.procs[p].state == UNUSED && forall k :: 0 <= k < p ==> s.procs[k].state != UNUSED
  }

  /** The slot that the forking process is about to finish or to give up. */
  predicate InTheMaking(s: State, a: Step, p: nat)
    requires Enabled(s, a)
  {
    (a.ForkFail? || a.ForkParent? || a.ForkDone?) && Current(s, a.c).child == Some(p)
  }

  /** Slot `p` is the lowest zombie that the waiting parent may reap. */
  predicate Reaped(s: State, a: Step, p: nat)
    requires Enabled(s, a) && p < |s.procs|
  {
    && a.Wait? && Reapable(s.procs[p], s.cpus[a.c].value, a.pid)
    && forall k :: 0 <= k < p ==> !Reapable(s.procs[k], s.cpus[a.c].value, a.pid)
  }

  /** The state of a process that is not asleep, after the step. */
  function Becomes(s: State, a: Step, p: nat): ProcState
    requires Enabled(s, a) && p < |s.procs|
  {
    match s.procs[p].state
    case UNUSED => if Taken(s, a, p) then EMBRYO else UNUSED
    case EMBRYO =>
      if InTheMaking(s, a, p) && a.ForkDone? then RUNNABLE
      else if InTheMaking(s, a, p) && a.ForkFail? then UNUSED
      else EMBRYO
    case RUNNABLE => if a.Dispatch? && a.p == p then RUNNING else RUNNABLE
    case RUNNING =>
      if Actor(s, a) != Some(p) then RUNNING
      else if a.Yield? then RUNNABLE
      else if a.Exit? then ZOMBIE
      else if FallsAsleep(s, a, p) then SLEEPING
      else RUNNING
    case SLEEPING => SLEEPING
    case ZOMBIE => if Reaped(s, a, p) then UNUSED else ZOMBIE
    case STOPPED => STOPPED
  }

  lemma FirstIs(procs: seq<Proc>, parent: nat, pid: int, p: nat)
    requires p < |procs|
    ensures FirstReapable(procs, parent, pid, 0) == Some(p) <==>
            Reapable(procs[p], parent, pid) && forall k :: 0 <= k < p ==> !Reapable(procs[k], parent, pid)
  {
  }

  lemma FirstIsFree(procs: seq<Proc>, p: nat)
    requires p < |procs|
    ensures FirstUnused(procs, 0) == Some(p) <==>
            procs[p].state == UNUSED && forall k :: 0 <= k < p ==> procs[k].state != UNUSED
  {
  }

  lemma SleepsIff(s: State, c: nat, pid: int, killed: bool)
    requires Enabled(s, Wait(c, pid, killed))
    ensures WaitBlocks(s, s.cpus[c].value, pid, killed) <==>
            FirstReapable(s.procs, s.cpus[c].value, pid, 0).None? && HasKids(s.procs, s.cpus[c].value) && !killed
  {
    hide HasKids;
  }

  /** What the diagram says of process `p`. */
  ghost predicate AsDrawn(s: State, a: Step, p: nat)
    requires Enabled(s, a) && p < |s.procs|
  {
    var r := Next(s, a);
    && |r.procs| == |s.procs|
    && (if s.procs[p].state == SLEEPING then r.procs[p].state in {SLEEPING, RUNNABLE}
        else r.procs[p].state == Becomes(s, a, p))
  }

  lemma WaitDiagram(s: State, c: nat, pid: int, killed: bool, p: nat)
    requires CpusMatch(s) && Enabled(s, Wait(c, pid, killed)) && p < |s.procs|
    ensures AsDrawn(s, Wait(c, pid, killed), p)
  {
    FirstIs(s.procs, s.cpus[c].value, pid, p);
    SleepsIff(s, c, pid, killed);
    hide HasKids, WaitBlocks, FirstReapable;
  }

  lemma AllocDiagram(s: State, c: nat, p: nat)
    requires CpusMatch(s) && Enabled(s, ForkAlloc(c)) && p < |s.procs|
    ensures AsDrawn(s, ForkAlloc(c), p)
  {
    FirstIsFree(s.procs, p);
    hide FirstUnused;
  }

  lemma ForkDiagram(s: State, a: Step, p: nat)
    requires CpusMatch(s) && Enabled(s, a) && Forks(a) && !a.ForkAlloc? && p < |s.procs|
    requires Embryo(s, s.cpus[a.c].value, Current(s, a.c).child.value)
    ensures AsDrawn(s, a, p)
  {
  }

  lemma ScheduleDiagram(s: State, a: Step, p: nat)
    requires CpusMatch(s) && Enabled(s, a) && !Forks(a) && !a.Wait? && p < |s.procs|
    ensures AsDrawn(s, a, p)
  {
    hide ZombieKid;
  }

  lemma MakingIsEmbryo(s: State, a: Step)
    requires Embryos(s) && Enabled(s, a) && Forks(a) && !a.ForkAlloc?
    ensures Running(s, a.c) && Forking(s, a.c) && Embryo(s, s.cpus[a.c].value, Current(s, a.c).child.value)
  {
  }

  /** Every step takes every process that is not asleep where the diagram says. */
  lemma StateDiagram(s: State, a: Step, p: nat)
    requires Inv(s) && Enabled(s, a) && p < |s.procs|
    ensures |Next(s, a).procs| == |s.procs|
    ensures s.procs[p].state != SLEEPING ==> Next(s, a).procs[p].state == Becomes(s, a, p)
    ensures s.procs[p].state == SLEEPING ==> Next(s, a).procs[p].state in {SLEEPING, RUNNABLE}
  {
    assert AsDrawn(s, a, p) by {
      hide AsDrawn, CpusMatch, ParentsLive, WaitersWait, PidsDiffer, PidsGrow, ForksMatch, Embryos, NoLeaks, GoneStay;
      hide Next, Enabled;
      if a.ForkAlloc? {
        AllocDiagram(s, a.c, p);
      } else if Forks(a) {
        MakingIsEmbryo(s, a);
        ForkDiagram(s, a, p);
      } else if a.Wait? {
        WaitDiagram(s, a.c, a.pid, a.killed, p);
      } else {
        ScheduleDiagram(s, a, p);
      }
    }
    hide Inv, Next, Becomes;
  }

  // ----- processors and relations ------------------------------------------

  /** Who is current on CPU `c` after the step. */
  function Holds(s: State, a: Step, c: nat): Option<nat>
    requires Enabled(s, a) && c < |s.cpus|
  {
    if a.Dispatch? then if a.c == c then Some(a.p) else s.cpus[c]
    else if s.cpus[c].Some? && Actor(s, a) == s.cpus[c] && (a.Yield? || a.Exit? || FallsAsleep(s, a, s.cpus[c].value))
    then None
    else s.cpus[c]
  }

  /** A CPU gets a process by Dispatch and loses it when the process yields, exits or falls
      asleep. */
  lemma CpuDiagram(s: State, a: Step, c: nat)
    requires CpusMatch(s) && Enabled(s, a) && c < |s.cpus|
    ensures |Next(s, a).cpus| == |s.cpus| && Next(s, a).cpus[c] == Holds(s, a, c)
  {
    if a.Wait? { SleepsIff(s, a.c, a.pid, a.killed); }
    hide HasKids, WaitBlocks, FirstReapable, FirstUnused, ZombieKid, ExitOne;
  }

  /** Parent and process id of slot `p` after the step. */
  function ParentAfter(s: State, a: Step, p: nat): Option<nat>
    requires Enabled(s, a) && p < |s.procs|
  {
    if Reaped(s, a, p) then None
    else if a.ForkParent? && InTheMaking(s, a, p) then Actor(s, a)
    else if a.Exit? && s.procs[p].parent == Actor(s, a) then Some(s.init)
    else s.procs[p].parent
  }

  function PidAfter(s: State, a: Step, p: nat): nat
    requires Enabled(s, a) && p < |s.procs|
  {
    if Reaped(s, a, p) then 0 else if Taken(s, a, p) then s.nextpid else s.procs[p].pid
  }

  /** A child is its forker's, and init's once the forker has exited, until it is reaped; it
      keeps the process id that fork gave it. */
  lemma FamilyDiagram(s: State, a: Step, p: nat)
    requires Enabled(s, a) && p < |s.procs| && (Forks(a) ==> CpusMatch(s) && Embryos(s))
    ensures |Next(s, a).procs| == |s.procs| && Next(s, a).procs[p].parent == ParentAfter(s, a, p)
    ensures Next(s, a).procs[p].pid == PidAfter(s, a, p)
  {
    if a.ForkAlloc? {
      AllocFamily(s, a.c, p);
    } else if Forks(a) {
      MakingIsEmbryo(s, a);
      hide Embryos, Embryo;
    } else if a.Wait? {
      WaitFamily(s, a.c, a.pid, a.killed, p);
    } else {
      hide ZombieKid;
    }
  }

  lemma WaitFamily(s: State, c: nat, pid: int, killed: bool, p: nat)
    requires Enabled(s, Wait(c, pid, killed)) && p < |s.procs|
    ensures var a := Wait(c, pid, killed);
      && |Next(s, a).procs| == |s.procs| && Next(s, a).procs[p].parent == ParentAfter(s, a, p)
      && Next(s, a).procs[p].pid == PidAfter(s, a, p)
  {
    FirstIs(s.procs, s.cpus[c].value, pid, p);
    hide HasKids, FirstReapable;
  }

  lemma AllocFamily(s: State, c: nat, p: nat)
    requires CpusMatch(s) && Enabled(s, ForkAlloc(c)) && p < |s.procs|
    ensures var a := ForkAlloc(c);
      && |Next(s, a).procs| == |s.procs| && Next(s, a).procs[p].parent == ParentAfter(s, a, p)
      && Next(s, a).procs[p].pid == PidAfter(s, a, p)
  {
    FirstIsFree(s.procs, p);
    hide FirstUnused;
  }

  /** A process id is used up by every fork that finds a slot, and by nothing else. */
  lemma PidsUsed(s: State, a: Step)
    requires Enabled(s, a)
    ensures Next(s, a).nextpid == s.nextpid + if exists k :: 0 <= k < |s.procs| && Taken(s, a, k) then 1 else 0
  {
    if a.ForkAlloc? {
      var f := FirstUnused(s.procs, 0);
      if f.Some? {
        FirstIsFree(s.procs, f.value);
        assert Taken(s, a, f.value);
      }
    }
    hide ZombieKid, HasKids;
  }

  // ----- runs --------------------------------------------------------------

  lemma {:induction false} SameLength(run: seq<State>, steps: seq<Step>, i: nat, j: nat)
    requires IsRun(run, steps) && i <= j < |run|
    ensures |run[j].procs| == |run[i].procs| && |run[j].cpus| == |run[i].cpus| && run[j].init == run[i].init
    decreases j
  {
    hide Next, Enabled, Boot;
    if i < j {
      SameLength(run, steps, i, j - 1);
      assert Enabled(run[j - 1], steps[j - 1]) && run[j - 1 + 1] == Next(run[j - 1], steps[j - 1]);
      StepLength(run[j - 1], steps[j - 1]);
    }
  }

  lemma StepLength(s: State, a: Step)
    requires Enabled(s, a)
    ensures |Next(s, a).procs| == |s.procs| && |Next(s, a).cpus| == |s.cpus| && Next(s, a).init == s.init
  {
  }

  /** From step `i`, which puts it to sleep, up to moment `j` process `p` sleeps. */
  ghost predicate Sleeps(run: seq<State>, steps: seq<Step>, i: nat, j: nat, p: nat) {
    && IsRun(run, steps) && i < j < |run| && Enabled(run[i], steps[i]) && FallsAsleep(run[i], steps[i], p)
    && forall k :: i < k <= j ==> p < |run[k].procs| && run[k].procs[p].state == SLEEPING
  }

  /** Step `a` is one that wakes a process which step `b` put to sleep: a wakeup of the address
      it sleeps on, a signal to it, or, for a process in waitpid, the exit of a child of its own
      or, for init, of a process that leaves it a zombie. */
  predicate Wakes(s: State, a: Step, p: nat, b: Step)
    requires Enabled(s, a)
  {
    match a
    case Wakeup(addr) => b.Sleep? && b.addr == addr
    case Kill(q) => q == p
    case Exit(c) => b.Wait? && (Current(s, c).parent == Some(p) || (p == s.init && ZombieKid(s.procs, s.cpus[c].value)))
    case _ => false
  }

  /** The channel of a process that step `b` put to sleep. */
  function ChannelOf(b: Step, p: nat): Chan {
    if b.Sleep? then Other(b.addr) else Slot(p)
  }

  lemma FallenAsleep(s: State, b: Step, p: nat)
    requires CpusMatch(s) && Enabled(s, b) && FallsAsleep(s, b, p)
    ensures p < |s.procs| == |Next(s, b).procs| && Next(s, b).procs[p].state == SLEEPING
    ensures Next(s, b).procs[p].chan == ChannelOf(b, p)
  {
    if b.Wait? { SleepsIff(s, b.c, b.pid, b.killed); }
  }

  lemma WokenOrNot(s: State, a: Step, p: nat, b: Step)
    requires CpusMatch(s) && Embryos(s) && Enabled(s, a) && p < |s.procs| && (b.Sleep? || b.Wait?)
    requires s.procs[p].state == SLEEPING && s.procs[p].chan == ChannelOf(b, p)
    ensures var q := Next(s, a).procs[p];
      q.state == (if Wakes(s, a, p, b) then RUNNABLE else SLEEPING) && q.chan == ChannelOf(b, p)
  {
    if a.Exit? {
      ExitWakes(s, a.c, p, b);
    } else if Forks(a) {
      ForkLetsSleep(s, a, p);
    } else {
      hide HasKids, Embryos;
    }
  }

  lemma ExitWakes(s: State, c: nat, p: nat, b: Step)
    requires CpusMatch(s) && Enabled(s, Exit(c)) && p < |s.procs| && (b.Sleep? || b.Wait?)
    requires s.procs[p].state == SLEEPING && s.procs[p].chan == ChannelOf(b, p)
    ensures var q := Next(s, Exit(c)).procs[p];
      q.state == (if Wakes(s, Exit(c), p, b) then RUNNABLE else SLEEPING) && q.chan == ChannelOf(b, p)
  {
    hide ZombieKid;
  }

  lemma ForkLetsSleep(s: State, a: Step, p: nat)
    requires CpusMatch(s) && Embryos(s) && Enabled(s, a) && Forks(a) && p < |s.procs| && s.procs[p].state == SLEEPING
    ensures Next(s, a).procs[p].state == SLEEPING && Next(s, a).procs[p].chan == s.procs[p].chan
  {
    if !a.ForkAlloc? { MakingIsEmbryo(s, a); }
    hide Embryos;
  }

  lemma {:induction false} SleepsOn(run: seq<State>, steps: seq<Step>, i: nat, j: nat, p: nat)
    requires Sleeps(run, steps, i, j, p)
    ensures p < |run[j].procs| && run[j].procs[p].chan == ChannelOf(steps[i], p)
    decreases j
  {
    hide Next, Enabled, Boot, FallsAsleep, CpusMatch, Embryos, ParentsLive, ChannelOf;
    hide WaitersWait, PidsDiffer, PidsGrow, ForksMatch, NoLeaks, GoneStay, Wakes;
    var k := j - 1;
    RunKeepsInv(run, steps, k);
    assert Enabled(run[k], steps[k]) && run[k + 1] == Next(run[k], steps[k]);
    if k == i {
      FallenAsleep(run[k], steps[k], p);
    } else {
      SleepsOn(run, steps, i, k, p);
      AsleepBySleep(run[i], steps[i], p);
      WokenOrNot(run[k], steps[k], p, steps[i]);
    }
  }

  lemma AsleepBySleep(s: State, b: Step, p: nat)
    requires Enabled(s, b) && FallsAsleep(s, b, p)
    ensures b.Sleep? || b.Wait?
  {
  }

  /** In every run: a sleeping process is made runnable exactly by those steps, whatever came
      between; no wakeup is lost and none hits the wrong process. */
  lemma WokenIff(run: seq<State>, steps: seq<Step>, i: nat, j: nat, p: nat)
    requires Sleeps(run, steps, i, j, p) && j < |steps| && Enabled(run[j], steps[j])
    ensures p < |run[j + 1].procs|
    ensures run[j + 1].procs[p].state == if Wakes(run[j], steps[j], p, steps[i]) then RUNNABLE else SLEEPING
  {
    hide Next, Enabled, Boot, FallsAsleep, CpusMatch, Embryos, ParentsLive, ChannelOf;
    hide WaitersWait, PidsDiffer, PidsGrow, ForksMatch, NoLeaks, GoneStay, Wakes;
    RunKeepsInv(run, steps, j);
    SleepsOn(run, steps, i, j, p);
    AsleepBySleep(run[i], steps[i], p);
    WokenOrNot(run[j], steps[j], p, steps[i]);
    StepLength(run[j], steps[j]);
  }

  /** A process that has yielded, been woken or come out of fork is runnable until a CPU takes
      it, and any idle CPU may. */
  lemma RunnableUntilDispatched(s: State, a: Step, p: nat, c: nat)
    requires Inv(s) && Enabled(s, a) && p < |s.procs| && s.procs[p].state == RUNNABLE && c < |s.cpus| && s.cpus[c].None?
    ensures Enabled(s, Dispatch(c, p)) && |Next(s, a).procs| == |s.procs|
    ensures Next(s, a).procs[p].state == if a.Dispatch? && a.p == p then RUNNING else RUNNABLE
  {
    StateDiagram(s, a, p);
  }

  // ----- fork --------------------------------------------------------------

  predicate EndsFork(s: State, a: Step, p: nat)
    requires Enabled(s, a)
  {
    Actor(s, a) == Some(p) && (a.ForkDone? || a.ForkFail?)
  }

  /** Process `p` takes slot `z` in step `i` for a fork that is not over before moment `j`. */
  ghost predicate ForkCall(run: seq<State>, steps: seq<Step>, i: nat, j: nat, p: nat, z: nat) {
    && IsRun(run, steps) && i < j < |run| && steps[i].ForkAlloc? && Enabled(run[i], steps[i])
    && Actor(run[i], steps[i]) == Some(p) && z < |run[i].procs| && Taken(run[i], steps[i], z)
    && forall k :: i < k < j ==> Enabled(run[k], steps[k]) && !EndsFork(run[k], steps[k], p)
  }

  /** Process `p` is in a fork that has slot `z` with process id `pid`. */
  ghost predicate HasSlot(s: State, p: nat, z: nat, pid: nat) {
    p < |s.procs| && z < |s.procs| && s.procs[p].child == Some(z) && s.procs[z].pid == pid
  }

  lemma SlotTaken(s: State, c: nat, p: nat, z: nat)
    requires CpusMatch(s) && Enabled(s, ForkAlloc(c)) && s.cpus[c] == Some(p)
    requires z < |s.procs| && Taken(s, ForkAlloc(c), z)
    ensures HasSlot(Next(s, ForkAlloc(c)), p, z, s.nextpid)
  {
    FirstIsFree(s.procs, z);
  }

  lemma SlotKept(s: State, a: Step, p: nat, z: nat, pid: nat)
    requires Inv(s) && Enabled(s, a) && HasSlot(s, p, z, pid) && !EndsFork(s, a, p)
    ensures HasSlot(Next(s, a), p, z, pid)
  {
    hide ParentsLive, WaitersWait, PidsDiffer, PidsGrow, NoLeaks, GoneStay;
    assert Embryo(s, p, z);
    FamilyDiagram(s, a, z);
    ChildKept(s, a, p);
    hide Next, CpusMatch, Embryos, ForksMatch;
  }

  lemma ChildKept(s: State, a: Step, p: nat)
    requires CpusMatch(s) && ForksMatch(s) && Enabled(s, a) && !EndsFork(s, a, p)
    requires p < |s.procs| && s.procs[p].child.Some?
    ensures |Next(s, a).procs| == |s.procs| && Next(s, a).procs[p].child == s.procs[p].child
  {
    hide HasKids, ZombieKid;
  }

  lemma {:induction false} ForkGoesOn(run: seq<State>, steps: seq<Step>, i: nat, j: nat, p: nat, z: nat)
    requires ForkCall(run, steps, i, j, p, z)
    ensures HasSlot(run[j], p, z, run[i].nextpid)
    decreases j
  {
    hide Next, Enabled, Boot, Inv, HasSlot, EndsFork, Taken;
    var k := j - 1;
    RunKeepsInv(run, steps, k);
    assert Enabled(run[k], steps[k]) && run[k + 1] == Next(run[k], steps[k]);
    if k == i {
      InvCpus(run[k]);
      SlotTaken(run[k], steps[k].c, p, z);
    } else {
      ForkGoesOn(run, steps, i, k, p, z);
      SlotKept(run[k], steps[k], p, z, run[i].nextpid);
    }
  }

  lemma InvCpus(s: State)
    requires Inv(s)
    ensures CpusMatch(s) && Embryos(s)
  {
  }

  /** In every run: a fork that comes to its end leaves a runnable child of the forking process,
      with the process id that was next when the fork began; one that fails leaves a free slot. */
  lemma ForkMakesAChild(run: seq<State>, steps: seq<Step>, i: nat, j: nat, p: nat, z: nat)
    requires ForkCall(run, steps, i, j, p, z) && j < |steps| && Enabled(run[j], steps[j])
    requires EndsFork(run[j], steps[j], p)
    ensures p < |run[j + 1].procs| && z < |run[j + 1].procs| && run[j + 1].procs[p].child.None?
    ensures var q := run[j + 1].procs[z];
      if steps[j].ForkDone? then q.state == RUNNABLE && q.parent == Some(p) && q.pid == run[i].nextpid
      else q.state == UNUSED && q.parent.None?
  {
    hide Boot, Inv;
    ForkGoesOn(run, steps, i, j, p, z);
    RunKeepsInv(run, steps, j);
    assert Enabled(run[j], steps[j]) && run[j + 1] == Next(run[j], steps[j]);
    InvCpus(run[j]);
    assert Embryo(run[j], p, z);
    hide Embryos, IsRun;
  }

  // ----- a life ------------------------------------------------------------

  /** `s` with `top` in init's slot, `kid` in slot `z`, and `cur` on CPU 0. */
  function Scene(s: State, z: nat, top: Proc, kid: Proc, cur: Option<nat>, nextpid: nat): State
    requires s.init < |s.procs| && z < |s.procs| && |s.cpus| >= 1
  {
    State(s.procs[z := kid][s.init := top], s.cpus[0 := cur], nextpid, s.init)
  }

  const INIT: Proc := FREE.(state := RUNNABLE, pid := 1)
  const WAITING: Proc := INIT.(state := SLEEPING, waits := -1)

  function Kid(s: State, state: ProcState): Proc {
    FREE.(state := state, pid := 2, parent := Some(s.init), gone := state == ZOMBIE)
  }

  /** Init forks, waits, sleeps; the child runs and exits; init wakes up and reaps it. Then every
      slot but init's is free again, and only a process id has been used up. */
  function Life(s: State, z: nat): (run: seq<State>)
    requires s.init < |s.procs| && z < |s.procs| && |s.cpus| >= 1
    ensures |run| == 10
  {
    var p, top, down := s.init, INIT.(state := RUNNING), WAITING.(chan := Slot(s.init));
    [Scene(s, z, INIT, FREE, None, 2),
     Scene(s, z, top, FREE, Some(p), 2),
     Scene(s, z, top.(child := Some(z)), FREE.(state := EMBRYO, pid := 2), Some(p), 3),
     Scene(s, z, top.(child := Some(z)), Kid(s, EMBRYO), Some(p), 3),
     Scene(s, z, top, Kid(s, RUNNABLE), Some(p), 3),
     Scene(s, z, down, Kid(s, RUNNABLE), None, 3),
     Scene(s, z, down, Kid(s, RUNNING), Some(z), 3),
     Scene(s, z, down.(state := RUNNABLE), Kid(s, ZOMBIE), None, 3),
     Scene(s, z, top.(waits := -1), Kid(s, ZOMBIE), Some(p), 3),
     Scene(s, z, top.(waits := -1), FREE, Some(p), 3)]
  }

  function LifeSteps(s: State, z: nat): (steps: seq<Step>)
    ensures |steps| == 9
  {
    [Dispatch(0, s.init), ForkAlloc(0), ForkParent(0), ForkDone(0), Wait(0, -1, false), Dispatch(0, z), Exit(0),
     Dispatch(0, s.init), Wait(0, -1, false)]
  }

  ghost predicate Follows(s: State, a: Step, r: State) {
    Enabled(s, a) && Next(s, a) == r
  }

  /** A booted machine; slot `z` is the lowest free one. */
  ghost predicate Setting(s: State, z: nat) {
    Boot(s) && |s.cpus| >= 1 && |s.procs| >= 2 && z == if s.init == 0 then 1 else 0
  }

  lemma DispatchScene(s: State, z: nat, top: Proc, kid: Proc, n: nat)
    requires Setting(s, z)
    ensures top.state == RUNNABLE ==>
              Follows(Scene(s, z, top, kid, None, n), Dispatch(0, s.init),
                      Scene(s, z, top.(state := RUNNING, chan := NoChan), kid, Some(s.init), n))
    ensures kid.state == RUNNABLE ==>
              Follows(Scene(s, z, top, kid, None, n), Dispatch(0, z),
                      Scene(s, z, top, kid.(state := RUNNING, chan := NoChan), Some(z), n))
  {
  }

  lemma AllocScene(s: State, z: nat, top: Proc)
    requires Setting(s, z) && top.state == RUNNING && top.child.None?
    ensures Follows(Scene(s, z, top, FREE, Some(s.init), 2), ForkAlloc(0),
                    Scene(s, z, top.(child := Some(z)), FREE.(state := EMBRYO, pid := 2), Some(s.init), 3))
  {
    var s1 := Scene(s, z, top, FREE, Some(s.init), 2);
    assert s1.procs[z].state == UNUSED && (z == 1 ==> s1.procs[0].state == RUNNING);
    FirstIsFree(s1.procs, z);
    hide FirstUnused;
  }

  lemma ForkScenes(s: State, z: nat, top: Proc)
    requires Setting(s, z) && top.state == RUNNING && top.child.None?
    ensures Follows(Scene(s, z, top.(child := Some(z)), FREE.(state := EMBRYO, pid := 2), Some(s.init), 3),
                    ForkParent(0), Scene(s, z, top.(child := Some(z)), Kid(s, EMBRYO), Some(s.init), 3))
    ensures Follows(Scene(s, z, top.(child := Some(z)), Kid(s, EMBRYO), Some(s.init), 3), ForkDone(0),
                    Scene(s, z, top, Kid(s, RUNNABLE), Some(s.init), 3))
  {
  }

  lemma WaitScenes(s: State, z: nat, top: Proc)
    requires Setting(s, z) && top.state == RUNNING && top.child.None? && top.parent.None?
    ensures Follows(Scene(s, z, top, Kid(s, RUNNABLE), Some(s.init), 3), Wait(0, -1, false),
                    Scene(s, z, top.(state := SLEEPING, chan := Slot(s.init), waits := -1), Kid(s, RUNNABLE), None, 3))
    ensures Follows(Scene(s, z, top, Kid(s, ZOMBIE), Some(s.init), 3), Wait(0, -1, false),
                    Scene(s, z, top, FREE, Some(s.init), 3))
  {
    var s4 := Scene(s, z, top, Kid(s, RUNNABLE), Some(s.init), 3);
    var s8 := Scene(s, z, top, Kid(s, ZOMBIE), Some(s.init), 3);
    assert s4.procs[z].parent == Some(s.init);
    SleepsIff(s4, 0, -1, false);
    FirstIs(s8.procs, s.init, -1, z);
    hide FirstReapable;
  }

  lemma ExitScene(s: State, z: nat, down: Proc)
    requires Setting(s, z) && down.state == SLEEPING && down.chan == Slot(s.init) && down.parent.None?
    ensures Follows(Scene(s, z, down, Kid(s, RUNNING), Some(z), 3), Exit(0),
                    Scene(s, z, down.(state := RUNNABLE), Kid(s, ZOMBIE), None, 3))
  {
    var s6 := Scene(s, z, down, Kid(s, RUNNING), Some(z), 3);
    assert !ZombieKid(s6.procs, z);
    hide ZombieKid;
  }

  lemma LifeStep(s: State, z: nat, i: nat)
    requires Setting(s, z) && i < 9
    ensures Follows(Life(s, z)[i], LifeSteps(s, z)[i], Life(s, z)[i + 1])
  {
    hide Scene, Boot, Follows, Kid;
    var top, down := INIT.(state := RUNNING), WAITING.(chan := Slot(s.init));
    match i
    case 0 => DispatchScene(s, z, INIT, FREE, 2);
    case 1 => AllocScene(s, z, top);
    case 2 => ForkScenes(s, z, top);
    case 3 => ForkScenes(s, z, top);
    case 4 => WaitScenes(s, z, top);
    case 5 => KidRuns(s, z, down);
    case 6 => ExitScene(s, z, down);
    case 7 => DispatchScene(s, z, down.(state := RUNNABLE), Kid(s, ZOMBIE), 3);
    case 8 => WaitScenes(s, z, top.(waits := -1));
  }

  lemma KidRuns(s: State, z: nat, down: Proc)
    requires Setting(s, z)
    ensures Follows(Scene(s, z, down, Kid(s, RUNNABLE), None, 3), Dispatch(0, z),
                    Scene(s, z, down, Kid(s, RUNNING), Some(z), 3))
  {
    DispatchScene(s, z, down, Kid(s, RUNNABLE), 3);
  }

  /** From every boot state, on a single CPU, that is a run. */
  lemma ALife(s: State, z: nat)
    requires Setting(s, z)
    ensures IsRun(Life(s, z), LifeSteps(s, z)) && Life(s, z)[0] == s
  {
    hide Life, LifeSteps, Next, Enabled;
    var run, steps := Life(s, z), LifeSteps(s, z);
    LifeBegins(s, z);
    forall i | 0 <= i < |steps| ensures Enabled(run[i], steps[i]) && run[i + 1] == Next(run[i], steps[i]) {
      LifeStep(s, z, i);
    }
  }

  lemma LifeBegins(s: State, z: nat)
    requires Setting(s, z)
    ensures Life(s, z)[0] == s
  {
    assert s.procs[z := FREE][s.init := INIT] == s.procs;
  }
}

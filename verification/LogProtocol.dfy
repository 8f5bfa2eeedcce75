/** The log as a protocol (kernel/log.c): any interleaving of any number of file-system
    operations, the commit's single disk writes, crashes at any point, and recovery with
    crashes of its own. Every run refines a file system whose contents change atomically. */
module LogProtocol {
  import opened Blocks
  import opened RedoLog
  import opened Log

  // ----- the machine -------------------------------------------------------

  /** Which disk write comes next. `Appending(|blk|)` is the first write_head,
      `Installing(|blk|)` the second; recovery shares install_trans with commit. */
  datatype Phase = Idle | Appending(k: nat) | Installing(k: nat) | Down

  /** `ops[i]` counts the blocks that the i-th outstanding operation has added to the log. */
  datatype State = State(disk: Image, pinned: map<nat, Block>, blk: seq<nat>, ops: seq<nat>, phase: Phase)

  datatype Step =
    | Begin
    | Write(op: nat, b: nat, data: Block)
    | End(op: nat)
    | DiskWrite
    | Crash
    | Reboot

  /** How operations keep to MAXOPBLOCKS: they call log_write only while fewer than
      MAXOPBLOCKS blocks are charged to them, or they merely never log more distinct ones. */
  datatype Discipline = CallsBelowBudget | DistinctWithinBudget

  predicate WithinBudget(d: Discipline, s: State, op: nat, b: nat)
    requires op < |s.ops|
  {
    s.ops[op] < MAXOPBLOCKS || (d.DistinctWithinBudget? && b in s.blk)
  }

  /** The test at the head of log_write. */
  predicate TooBig(g: Geometry, s: State)
  {
    |s.blk| >= LOGSIZE || |s.blk| >= g.size - 1
  }

  /** An operation is about to make a log_write call that it may make. */
  predicate Calls(g: Geometry, d: Discipline, s: State, op: nat, b: nat) {
    s.phase.Idle? && op < |s.ops| && g.Home(b) && WithinBudget(d, s, op, b)
  }

  predicate Enabled(g: Geometry, d: Discipline, s: State, step: Step) {
    match step
    case Begin => s.phase.Idle? && |s.blk| + (|s.ops| + 1) * MAXOPBLOCKS <= LOGSIZE
    case Write(op, b, _) => Calls(g, d, s, op, b) && !TooBig(g, s)
    case End(op) => s.phase.Idle? && op < |s.ops|
    case DiskWrite => s.phase.Appending? || s.phase.Installing?
    case Crash => true
    case Reboot => s.phase.Down?
  }

  function Remove(s: seq<nat>, i: nat): (r: seq<nat>)
    requires i < |s|
    ensures |r| == |s| - 1
  {
    s[..i] + s[i + 1..]
  }

  /** One step. end_op starts a commit when the last operation leaves. */
  ghost function Apply(g: Geometry, d: Discipline, s: State, step: Step): State
    requires Inv(g, s) && Enabled(g, d, s, step)
  {
    match step
    case Begin => s.(ops := s.ops + [0])
    case Write(op, b, data) =>
      s.(blk := Absorb(s.blk, b), pinned := s.pinned[b := data],
         ops := if b in s.blk then s.ops else s.ops[op := s.ops[op] + 1])
    case End(op) =>
      if |s.ops| == 1 then s.(ops := [], phase := Appending(0)) else s.(ops := Remove(s.ops, op))
    case DiskWrite => Advance(g, s)
    case Crash => State(s.disk, map[], [], [], Down)
    case Reboot => s.(blk := HeaderOf(g, s.disk), phase := Installing(0))
  }

  /** The next single-block write of commit or of recovery. */
  ghost function Advance(g: Geometry, s: State): State
    requires Inv(g, s) && (s.phase.Appending? || s.phase.Installing?)
  {
    if s.phase.Appending? then
      var k := s.phase.k;
      if |s.blk| == 0 then s.(phase := Idle)
      else if k < |s.blk| then
        s.(disk := s.disk[g.start + 1 + k := Overlay(s.disk, s.pinned)[s.blk[k]]], phase := Appending(k + 1))
      else s.(disk := Seal(g, s.disk, s.blk), phase := Installing(0))
    else
      var k := s.phase.k;
      if k < |s.blk| then
        s.(disk := s.disk[s.blk[k] := s.disk[g.start + 1 + k]], pinned := s.pinned - {s.blk[k]},
           phase := Installing(k + 1))
      else s.(disk := Seal(g, s.disk, []), blk := [], phase := Idle)
  }

  // ----- the invariant -----------------------------------------------------

  /** The log blocks that active operations have reserved and not used. */
  function Unused(ops: seq<nat>): int {
    if |ops| == 0 then 0 else MAXOPBLOCKS - ops[0] + Unused(ops[1..])
  }

  /** Group commit: space in the log is reserved for every active operation, no operation is
      active while the disk is being written, and nothing waits for a commit when none is. */
  ghost predicate Reserved(s: State) {
    && (forall i :: 0 <= i < |s.ops| ==> s.ops[i] <= MAXOPBLOCKS)
    && |s.blk| + Unused(s.ops) <= LOGSIZE
    && (!s.phase.Idle? ==> s.ops == [])
    && (s.phase.Idle? && s.ops == [] ==> s.blk == [])
  }

  /** The relation of disk and memory in each phase. */
  ghost predicate Coherent(g: Geometry, s: State)
    requires |s.disk| == g.nblocks && g.Valid() && Targets(g, s.blk) && Recoverable(g, s.disk)
  {
    match s.phase
    case Idle =>
      Word(s.disk[g.start], 0) == 0 && s.pinned.Keys == (set b | b in s.blk)
    case Appending(k) =>
      && Word(s.disk[g.start], 0) == 0 && s.pinned.Keys == (set b | b in s.blk)
      && k <= |s.blk|
      && forall i :: 0 <= i < k ==> s.disk[g.start + 1 + i] == s.pinned[s.blk[i]]
    case Installing(k) =>
      && HeaderOf(g, s.disk) == s.blk && k <= |s.blk|
      && (forall i :: 0 <= i < k ==> s.disk[s.blk[i]] == s.disk[g.start + 1 + i])
      && (forall b :: b in s.pinned ==> b in s.blk)
      && forall i :: 0 <= i < k ==> s.blk[i] !in s.pinned
    case Down => s.pinned == map[] && s.blk == []
  }

  ghost predicate Inv(g: Geometry, s: State) {
    && g.Valid() && |s.disk| == g.nblocks && Targets(g, s.blk) && Recoverable(g, s.disk)
    && Reserved(s) && Coherent(g, s)
  }

  lemma {:induction false} UnusedAppend(ops: seq<nat>, x: nat)
    ensures Unused(ops + [x]) == Unused(ops) + MAXOPBLOCKS - x
    decreases |ops|
  {
    if |ops| > 0 {
      assert (ops + [x])[1..] == ops[1..] + [x];
      UnusedAppend(ops[1..], x);
    }
  }

  lemma {:induction false} UnusedUpdate(ops: seq<nat>, i: nat, x: nat)
    requires i < |ops|
    ensures Unused(ops[i := x]) == Unused(ops) + ops[i] - x
    decreases |ops|
  {
    if i > 0 {
      assert ops[i := x][1..] == ops[1..][i - 1 := x];
      UnusedUpdate(ops[1..], i - 1, x);
    }
  }

  lemma {:induction false} UnusedRemove(ops: seq<nat>, i: nat)
    requires i < |ops|
    ensures Unused(Remove(ops, i)) == Unused(ops) - (MAXOPBLOCKS - ops[i])
    decreases |ops|
  {
    if i > 0 {
      assert Remove(ops, i)[1..] == Remove(ops[1..], i - 1);
      UnusedRemove(ops[1..], i - 1);
    } else {
      assert Remove(ops, 0) == ops[1..];
    }
  }

  /** Reservations bound the log from every active operation's point of view. */
  lemma {:induction false} UnusedBounds(ops: seq<nat>, i: nat)
    requires i < |ops| && forall j :: 0 <= j < |ops| ==> ops[j] <= MAXOPBLOCKS
    ensures Unused(ops) >= MAXOPBLOCKS - ops[i] >= 0
    decreases |ops|
  {
    if i > 0 {
      UnusedBounds(ops[1..], i - 1);
    } else if |ops| > 1 {
      UnusedBounds(ops[1..], 0);
    }
  }

  lemma {:induction false} UnusedAtMost(ops: seq<nat>)
    ensures Unused(ops) <= |ops| * MAXOPBLOCKS
    decreases |ops|
  {
    if |ops| > 0 {
      UnusedAtMost(ops[1..]);
    }
  }

  lemma ReservedBegin(s: State)
    requires Reserved(s) && s.phase.Idle? && |s.blk| + (|s.ops| + 1) * MAXOPBLOCKS <= LOGSIZE
    ensures Reserved(s.(ops := s.ops + [0]))
  {
    UnusedAppend(s.ops, 0);
    UnusedAtMost(s.ops);
  }

  lemma ReservedWrite(g: Geometry, d: Discipline, s: State, op: nat, b: nat, data: Block)
    requires Inv(g, s) && Enabled(g, d, s, Write(op, b, data))
    ensures Reserved(Apply(g, d, s, Write(op, b, data)))
  {
    hide Word;
    if b !in s.blk {
      UnusedUpdate(s.ops, op, s.ops[op] + 1);
    }
  }

  lemma ReservedEnd(g: Geometry, d: Discipline, s: State, op: nat)
    requires Inv(g, s) && Enabled(g, d, s, End(op))
    ensures Reserved(Apply(g, d, s, End(op)))
  {
    hide Word;
    UnusedRemove(s.ops, op);
    UnusedBounds(s.ops, op);
  }

  lemma WriteKeepsTargets(g: Geometry, blk: seq<nat>, b: nat)
    requires Targets(g, blk) && g.Home(b) && |blk| < LOGSIZE && |blk| < g.size - 1
    ensures Targets(g, Absorb(blk, b))
  {
  }

  lemma InvAppend(g: Geometry, s: State)
    requires Inv(g, s) && s.phase.Appending? && s.phase.k < |s.blk|
    ensures Inv(g, Advance(g, s)) && SameHome(g, Recovered(g, Advance(g, s).disk), Recovered(g, s.disk))
  {
    hide Word;
    var s' := Advance(g, s);
    RecoverEmpty(g, s.disk);
    RecoverEmpty(g, s'.disk);
  }

  lemma SealRecovers(g: Geometry, s: State)
    requires Inv(g, s) && s.phase.Appending? && s.phase.k == |s.blk| > 0
    ensures RecoversTo(g, Seal(g, s.disk, s.blk), Overlay(s.disk, s.pinned))
    ensures HeaderOf(g, Seal(g, s.disk, s.blk)) == s.blk
  {
    hide Word, Install, PutHead, Recovered, Distinct;
    var img := Seal(g, s.disk, s.blk);
    HeaderRoundTrip(g, s.disk, s.blk);
    forall x: nat | g.Home(x)
      ensures Recovered(g, img)[x] == Overlay(s.disk, s.pinned)[x]
    {
      RecoveredAt(g, img, x);
      if x in s.blk {
        var i :| 0 <= i < |s.blk| && s.blk[i] == x;
      }
    }
  }

  lemma InvSeal(g: Geometry, s: State)
    requires Inv(g, s) && s.phase.Appending? && s.phase.k == |s.blk| > 0
    ensures Inv(g, Advance(g, s))
    ensures SameHome(g, Recovered(g, Advance(g, s).disk), Overlay(s.disk, s.pinned))
  {
    hide Word;
    SealRecovers(g, s);
  }

  lemma InstallKeepsRecovered(g: Geometry, s: State)
    requires Inv(g, s) && s.phase.Installing? && s.phase.k < |s.blk|
    ensures Recoverable(g, Advance(g, s).disk) && HeaderOf(g, Advance(g, s).disk) == s.blk
    ensures SameHome(g, Recovered(g, Advance(g, s).disk), Recovered(g, s.disk))
  {
    hide Word;
    var img, img' := s.disk, Advance(g, s).disk;
    assert img'[g.start] == img[g.start];
    assert HeaderOf(g, img') == s.blk;
    forall x: nat | g.Home(x)
      ensures Recovered(g, img')[x] == Recovered(g, img)[x]
    {
      RecoveredAt(g, img', x);
      RecoveredAt(g, img, x);
      if x in s.blk {
        var i :| 0 <= i < |s.blk| && s.blk[i] == x;
        assert img'[g.start + 1 + i] == img[g.start + 1 + i];
      }
    }
  }

  lemma InvInstall(g: Geometry, s: State)
    requires Inv(g, s) && s.phase.Installing? && s.phase.k < |s.blk|
    ensures Inv(g, Advance(g, s)) && SameHome(g, Recovered(g, Advance(g, s).disk), Recovered(g, s.disk))
  {
    hide Word, Install;
    InstallKeepsRecovered(g, s);
  }

  lemma InvErase(g: Geometry, s: State)
    requires Inv(g, s) && s.phase.Installing? && s.phase.k == |s.blk|
    ensures Inv(g, Advance(g, s)) && SameHome(g, Recovered(g, Advance(g, s).disk), Recovered(g, s.disk))
    ensures Advance(g, s).pinned == map[]
  {
    hide Word, Install, PutHead, Distinct;
    var s' := Advance(g, s);
    HeaderRoundTrip(g, s.disk, []);
    assert |HeaderOf(g, s'.disk)| == Word(s'.disk[g.start], 0);
    RecoverEmpty(g, s'.disk);
    assert s.pinned.Keys == {};
    forall x: nat | g.Home(x)
      ensures Recovered(g, s'.disk)[x] == Recovered(g, s.disk)[x]
    {
      RecoveredAt(g, s.disk, x);
      if x in s.blk {
        var i :| 0 <= i < |s.blk| && s.blk[i] == x;
      }
    }
  }

  lemma InvWrite(g: Geometry, d: Discipline, s: State, op: nat, b: nat, data: Block)
    requires Inv(g, s) && Enabled(g, d, s, Write(op, b, data))
    ensures Inv(g, Apply(g, d, s, Write(op, b, data)))
  {
    hide Word;
    ReservedWrite(g, d, s, op, b, data);
    WriteKeepsTargets(g, s.blk, b);
    var s' := Apply(g, d, s, Write(op, b, data));
    assert s'.pinned.Keys == (set x | x in s'.blk);
  }

  /** Every step of the protocol keeps the invariant. */
  lemma StepKeepsInv(g: Geometry, d: Discipline, s: State, step: Step)
    requires Inv(g, s) && Enabled(g, d, s, step)
    ensures Inv(g, Apply(g, d, s, step))
  {
    hide Word;
    match step
    case Begin => ReservedBegin(s);
    case Write(op, b, data) => InvWrite(g, d, s, op, b, data);
    case End(op) => ReservedEnd(g, d, s, op);
    case DiskWrite =>
      if s.phase.Appending? {
        if s.phase.k < |s.blk| { InvAppend(g, s); } else if |s.blk| > 0 { InvSeal(g, s); }
      } else {
        if s.phase.k < |s.blk| { InvInstall(g, s); } else { InvErase(g, s); }
      }
    case Crash =>
    case Reboot =>
  }

  // ----- refinement of an atomic file system -------------------------------

  /** The specification: contents that survive a crash, contents that operations see,
      and the number of operations in progress. */
  datatype Spec = Spec(durable: map<nat, Block>, current: map<nat, Block>, active: nat)

  /** The first write_head of commit: the commit point. */
  ghost predicate Commits(s: State, step: Step) {
    step.DiskWrite? && s.phase == Appending(|s.blk|) && |s.blk| > 0
  }

  /** What each step of the protocol means, atomically. Only the commit point changes what
      survives a crash: it makes everything durable at once. Only a crash takes anything back. */
  ghost function SpecNext(a: Spec, s: State, step: Step): Spec {
    match step
    case Begin => a.(active := a.active + 1)
    case Write(_, b, data) => a.(current := a.current[b := data])
    case End(_) => if a.active == 0 then a else a.(active := a.active - 1)
    case DiskWrite => if Commits(s, step) then a.(durable := a.current) else a
    case Crash => Spec(a.durable, a.durable, 0)
    case Reboot => a
  }

  function HomeMap(g: Geometry, img: Image): (m: map<nat, Block>)
    requires |img| == g.nblocks
  {
    map b: nat | b < g.nblocks && g.Home(b) :: img[b]
  }

  lemma SameHomeMap(g: Geometry, a: Image, b: Image)
    requires SameHome(g, a, b)
    ensures HomeMap(g, a) == HomeMap(g, b)
  {
  }

  /** What the protocol state stands for. */
  ghost function Abs(g: Geometry, s: State): Spec
    requires Inv(g, s)
  {
    var durable := HomeMap(g, Recovered(g, s.disk));
    Spec(durable,
         if s.phase.Idle? || s.phase.Appending? then HomeMap(g, Overlay(s.disk, s.pinned)) else durable,
         |s.ops|)
  }

  lemma AppendViewSame(g: Geometry, s: State)
    requires Inv(g, s) && s.phase.Appending? && s.phase.k < |s.blk|
    ensures SameHome(g, Overlay(Advance(g, s).disk, s.pinned), Overlay(s.disk, s.pinned))
  {
    hide Word;
  }

  lemma CommitRefines(g: Geometry, s: State)
    requires Inv(g, s) && s.phase.Appending?
    ensures Inv(g, Advance(g, s)) && Abs(g, Advance(g, s)) == SpecNext(Abs(g, s), s, DiskWrite)
  {
    hide Word, Install, PutHead;
    var s' := Advance(g, s);
    if s.phase.k < |s.blk| {
      InvAppend(g, s);
      AppendViewSame(g, s);
      SameHomeMap(g, Recovered(g, s'.disk), Recovered(g, s.disk));
      SameHomeMap(g, Overlay(s'.disk, s.pinned), Overlay(s.disk, s.pinned));
    } else if |s.blk| > 0 {
      InvSeal(g, s);
      SameHomeMap(g, Recovered(g, s'.disk), Overlay(s.disk, s.pinned));
    }
  }

  lemma ReplayRefines(g: Geometry, s: State)
    requires Inv(g, s) && s.phase.Installing?
    ensures Inv(g, Advance(g, s)) && Abs(g, Advance(g, s)) == SpecNext(Abs(g, s), s, DiskWrite)
  {
    hide Word, Install, PutHead;
    var s' := Advance(g, s);
    if s.phase.k < |s.blk| {
      InvInstall(g, s);
      SameHomeMap(g, Recovered(g, s'.disk), Recovered(g, s.disk));
    } else {
      InvErase(g, s);
      SameHomeMap(g, Recovered(g, s'.disk), Recovered(g, s.disk));
      RecoverEmpty(g, s'.disk);
      assert Overlay(s'.disk, s'.pinned) == s'.disk;
    }
  }

  lemma WriteRefines(g: Geometry, d: Discipline, s: State, op: nat, b: nat, data: Block)
    requires Inv(g, s) && Enabled(g, d, s, Write(op, b, data))
    ensures Inv(g, Apply(g, d, s, Write(op, b, data)))
    ensures Abs(g, Apply(g, d, s, Write(op, b, data))) == SpecNext(Abs(g, s), s, Write(op, b, data))
  {
    hide Word;
    InvWrite(g, d, s, op, b, data);
    var s' := Apply(g, d, s, Write(op, b, data));
    assert HomeMap(g, Overlay(s'.disk, s'.pinned)) == HomeMap(g, Overlay(s.disk, s.pinned))[b := data];
  }

  /** Crash atomicity and group commit in one statement: every step of the protocol does to the
      contents exactly what its meaning says, and commits with no operation in progress. */
  lemma StepRefines(g: Geometry, d: Discipline, s: State, step: Step)
    requires Inv(g, s) && Enabled(g, d, s, step)
    ensures Inv(g, Apply(g, d, s, step)) && Abs(g, Apply(g, d, s, step)) == SpecNext(Abs(g, s), s, step)
    ensures Commits(s, step) ==> s.ops == []
  {
    hide Word;
    StepKeepsInv(g, d, s, step);
    match step
    case Write(op, b, data) => WriteRefines(g, d, s, op, b, data);
    case DiskWrite => if s.phase.Appending? { CommitRefines(g, s); } else { ReplayRefines(g, s); }
    case _ =>
  }

  /** Once the last operation has left and the disk is at rest, all that operations wrote is
      durable: nothing waits for a later commit. */
  lemma AtRestAllIsDurable(g: Geometry, s: State)
    requires Inv(g, s) && s.phase.Idle? && s.ops == []
    ensures Abs(g, s).durable == Abs(g, s).current && s.pinned == map[]
  {
    hide Word;
    RecoverEmpty(g, s.disk);
    assert s.pinned.Keys == {};
    assert Overlay(s.disk, s.pinned) == s.disk;
  }

  /** Disk writes until the disk is at rest: `n` log blocks, the header, `n` home blocks and the
      header once more. A transaction without blocks takes a step but no write. */
  function WritesLeft(s: State): (n: nat)
    ensures n == 0 <==> s.phase.Idle? || s.phase.Down?
  {
    match s.phase
    case Appending(k) => if k < |s.blk| then 2 * |s.blk| - k + 2 else |s.blk| + (if |s.blk| == 0 then 1 else 2)
    case Installing(k) => if k < |s.blk| then |s.blk| - k + 1 else 1
    case _ => 0
  }

  /** Every disk write brings it closer, and until then nothing else but a crash can happen. */
  lemma CommitGoesOn(g: Geometry, d: Discipline, s: State, step: Step)
    requires Inv(g, s) && Enabled(g, d, s, step) && WritesLeft(s) > 0
    ensures step.Crash? || (step.DiskWrite? && WritesLeft(Apply(g, d, s, step)) == WritesLeft(s) - 1)
  {
    hide Word;
  }

  // ----- runs --------------------------------------------------------------

  /** A powered-off machine whose disk recovery can handle. */
  ghost predicate Init(g: Geometry, s: State) {
    g.Valid() && Recoverable(g, s.disk) && s == State(s.disk, map[], [], [], Down)
  }

  /** A run: each state follows from the one before by an enabled step. (`Apply` is defined
      where the invariant holds; elsewhere any successor is admitted, and RunKeepsInv shows
      that there is no such state in a run.) */
  ghost predicate IsRun(g: Geometry, d: Discipline, run: seq<State>, steps: seq<Step>) {
    && |run| == |steps| + 1
    && Init(g, run[0])
    && forall i :: 0 <= i < |steps| ==>
         Enabled(g, d, run[i], steps[i])
         && (Inv(g, run[i]) ==> run[i + 1] == Apply(g, d, run[i], steps[i]))
  }

  lemma {:induction false} RunKeepsInvAt(g: Geometry, d: Discipline, run: seq<State>, steps: seq<Step>, i: nat)
    requires IsRun(g, d, run, steps) && i < |run|
    ensures Inv(g, run[i])
    decreases i
  {
    hide Word;
    if i > 0 {
      RunKeepsInvAt(g, d, run, steps, i - 1);
      StepKeepsInv(g, d, run[i - 1], steps[i - 1]);
      assert run[i - 1 + 1] == Apply(g, d, run[i - 1], steps[i - 1]);
    }
  }

  /** The invariant holds throughout every run. */
  lemma RunKeepsInv(g: Geometry, d: Discipline, run: seq<State>, steps: seq<Step>)
    requires IsRun(g, d, run, steps)
    ensures forall i :: 0 <= i < |run| ==> Inv(g, run[i])
  {
    forall i | 0 <= i < |run|
      ensures Inv(g, run[i])
    {
      RunKeepsInvAt(g, d, run, steps, i);
    }
  }

  lemma RunStep(g: Geometry, d: Discipline, run: seq<State>, steps: seq<Step>, i: nat)
    requires IsRun(g, d, run, steps) && i < |steps|
    ensures Inv(g, run[i]) && Inv(g, run[i + 1])
    ensures Abs(g, run[i + 1]) == SpecNext(Abs(g, run[i]), run[i], steps[i])
    ensures Commits(run[i], steps[i]) ==> run[i].ops == []
    ensures steps[i].End? ==> Abs(g, run[i]).active > 0
  {
    hide Word;
    RunKeepsInvAt(g, d, run, steps, i);
    assert Enabled(g, d, run[i], steps[i]) && run[i + 1] == Apply(g, d, run[i], steps[i]);
    StepRefines(g, d, run[i], steps[i]);
  }

  lemma StartOfRun(g: Geometry, s: State)
    requires Init(g, s)
    ensures Inv(g, s) && s.ops == [] && Abs(g, s).durable == Abs(g, s).current && Abs(g, s).active == 0
  {
    hide Word;
  }

  /** The contents `m` with the data of every Write step, in order. */
  function Written(m: map<nat, Block>, steps: seq<Step>): map<nat, Block> {
    if |steps| == 0 then m
    else
      var before := Written(m, steps[..|steps| - 1]);
      match steps[|steps| - 1]
      case Write(_, b, data) => before[b := data]
      case _ => before
  }

  function Change(step: Step): int {
    match step
    case Begin => 1
    case End(_) => -1
    case _ => 0
  }

  /** Operations begun less operations ended. */
  function InProgress(steps: seq<Step>): int {
    if |steps| == 0 then 0 else InProgress(steps[..|steps| - 1]) + Change(steps[|steps| - 1])
  }

  /** `c` is the latest crash among the first `j` steps, or the start of the run. */
  ghost predicate LatestCrash(steps: seq<Step>, c: nat, j: nat) {
    && c <= j <= |steps| && (c == 0 || steps[c - 1].Crash?)
    && forall k :: c <= k < j ==> !steps[k].Crash?
  }

  lemma WrittenMore(m: map<nat, Block>, steps: seq<Step>, c: nat, j: nat)
    requires c <= j < |steps|
    ensures Written(m, steps[c..j + 1]) ==
            match steps[j] {
              case Write(_, b, data) => Written(m, steps[c..j])[b := data]
              case _ => Written(m, steps[c..j])
            }
    ensures InProgress(steps[c..j + 1]) == InProgress(steps[c..j]) + Change(steps[j])
  {
    assert steps[c..j + 1][..j - c] == steps[c..j] && steps[c..j + 1][j - c] == steps[j];
  }

  /** In every run, what operations see is what survived the latest crash, with the data of every
      Write since, in order: nothing is lost, reordered or made up. */
  lemma {:induction false} CurrentIsWritten(g: Geometry, d: Discipline, run: seq<State>, steps: seq<Step>, j: nat)
    returns (c: nat)
    requires IsRun(g, d, run, steps) && j < |run|
    ensures LatestCrash(steps, c, j) && Inv(g, run[c]) && Inv(g, run[j])
    ensures Abs(g, run[j]).current == Written(Abs(g, run[c]).durable, steps[c..j])
    ensures Abs(g, run[j]).active == InProgress(steps[c..j])
    decreases j
  {
    hide Word, Inv, Enabled, Abs, Written, InProgress;
    if j == 0 {
      c := 0;
      StartOfRun(g, run[0]);
      NoneWritten(Abs(g, run[0]).durable);
      assert steps[0..0] == [];
    } else {
      var i := j - 1;
      RunStep(g, d, run, steps, i);
      assert run[i + 1] == run[j];
      if steps[i].Crash? {
        c := j;
        NoneWritten(Abs(g, run[j]).durable);
        assert steps[j..j] == [];
      } else {
        c := CurrentIsWritten(g, d, run, steps, i);
        WrittenMore(Abs(g, run[c]).durable, steps, c, i);
      }
    }
  }

  lemma NoneWritten(m: map<nat, Block>)
    ensures Written(m, []) == m && InProgress([]) == 0
  {
  }

  /** In every run, whenever the machine crashes, the contents that recovery restores are
      those that operations saw at the latest commit point, or at the start of the run if there
      was none. No operation was in progress then: never half an operation, never some
      operations of a transaction only, and never an older transaction than the last. */
  lemma {:induction false} DurableIsATransactionBoundary(g: Geometry, d: Discipline, run: seq<State>, steps: seq<Step>,
                                                         j: nat)
    returns (i: nat)
    requires IsRun(g, d, run, steps) && j < |run|
    ensures i <= j && Inv(g, run[i]) && Inv(g, run[j])
    ensures run[i].ops == [] && Abs(g, run[j]).durable == Abs(g, run[i]).current
    ensures i == 0 || (i < j && Commits(run[i], steps[i]))
    ensures forall k :: i < k < j ==> !Commits(run[k], steps[k])
    decreases j
  {
    hide Word, Abs, Inv, Commits, Enabled;
    if j == 0 {
      i := 0;
      StartOfRun(g, run[0]);
    } else {
      RunStep(g, d, run, steps, j - 1);
      assert run[j - 1 + 1] == run[j];
      if Commits(run[j - 1], steps[j - 1]) {
        i := j - 1;
        CommitIsAWrite(run[i], steps[i]);
      } else {
        i := DurableIsATransactionBoundary(g, d, run, steps, j - 1);
      }
    }
  }

  lemma CommitIsAWrite(s: State, step: Step)
    requires Commits(s, step)
    ensures step.DiskWrite?
  {
  }

  lemma NoneActive(g: Geometry, s: State)
    requires Inv(g, s)
    ensures Abs(g, s).active == |s.ops|
  {
  }

  /** Together: what a crash leaves is what survived an earlier one, with the data of every
      Write from there to the latest commit point, in order, at which every operation begun had
      ended. */
  lemma DurableIsWhatEndedOperationsWrote(g: Geometry, d: Discipline, run: seq<State>, steps: seq<Step>, j: nat)
    returns (c: nat, i: nat)
    requires IsRun(g, d, run, steps) && j < |run|
    ensures i <= j && (i == 0 || (i < j && Commits(run[i], steps[i])))
            && forall k :: i < k < j ==> !Commits(run[k], steps[k])
    ensures LatestCrash(steps, c, i) && InProgress(steps[c..i]) == 0 && Inv(g, run[c]) && Inv(g, run[j])
    ensures Abs(g, run[j]).durable == Written(Abs(g, run[c]).durable, steps[c..i])
  {
    hide Word, Abs, Inv, Commits, Enabled, Written, InProgress;
    i := DurableIsATransactionBoundary(g, d, run, steps, j);
    c := CurrentIsWritten(g, d, run, steps, i);
    NoneActive(g, run[i]);
  }

  // ----- when log_write panics ---------------------------------------------

  /** The transaction fits into the log whatever the interleaving. */
  lemma LogNeverOverflows(g: Geometry, d: Discipline, run: seq<State>, steps: seq<Step>)
    requires IsRun(g, d, run, steps)
    ensures forall i :: 0 <= i < |run| ==> |run[i].blk| <= LOGSIZE && |run[i].blk| <= g.size - 1
    ensures forall i :: 0 <= i < |run| ==> |run[i].blk| + Unused(run[i].ops) <= LOGSIZE
    ensures forall i :: 0 <= i < |run| && !run[i].phase.Idle? ==> run[i].ops == []
  {
    RunKeepsInv(g, d, run, steps);
  }

  ghost predicate PanicsAfter(g: Geometry, d: Discipline, s: State) {
    exists op: nat, b: nat :: Calls(g, d, s, op, b) && TooBig(g, s)
  }

  ghost predicate NeverPanics(g: Geometry, d: Discipline) {
    forall run: seq<State>, steps: seq<Step> ::
      IsRun(g, d, run, steps) ==> !PanicsAfter(g, d, run[|run| - 1])
  }

  /** Operations that stop calling log_write once their budget is spent never panic,
      provided the log has more than LOGSIZE blocks. */
  lemma SafeCalls(g: Geometry, run: seq<State>, steps: seq<Step>)
    requires IsRun(g, CallsBelowBudget, run, steps) && g.size > LOGSIZE
    ensures !PanicsAfter(g, CallsBelowBudget, run[|run| - 1])
  {
    hide Word;
    RunKeepsInv(g, CallsBelowBudget, run, steps);
    var s := run[|run| - 1];
    forall op: nat, b: nat | Calls(g, CallsBelowBudget, s, op, b)
      ensures !TooBig(g, s)
    {
      UnusedBounds(s.ops, op);
    }
  }

  lemma ExtendRun(g: Geometry, d: Discipline, run: seq<State>, steps: seq<Step>, step: Step)
    returns (run': seq<State>, steps': seq<Step>)
    requires IsRun(g, d, run, steps)
    requires Enabled(g, d, run[|run| - 1], step)
    ensures IsRun(g, d, run', steps') && Inv(g, run[|run| - 1])
    ensures run'[|run'| - 1] == Apply(g, d, run[|run| - 1], step)
  {
    hide Word;
    RunKeepsInv(g, d, run, steps);
    run', steps' := run + [Apply(g, d, run[|run| - 1], step)], steps + [step];
    forall i | 0 <= i < |steps'|
      ensures Enabled(g, d, run'[i], steps'[i])
              && (Inv(g, run'[i]) ==> run'[i + 1] == Apply(g, d, run'[i], steps'[i]))
    {
      if i < |steps| {
        assert run'[i] == run[i] && run'[i + 1] == run[i + 1] && steps'[i] == steps[i];
      }
    }
  }

  /** Boot from an empty log. */
  lemma Boot(g: Geometry, d: Discipline) returns (run: seq<State>, steps: seq<Step>)
    requires g.Valid()
    ensures IsRun(g, d, run, steps)
    ensures var s := run[|run| - 1]; s.phase.Idle? && s.blk == [] && s.ops == []
  {
    hide Word;
    var img: Image := seq(g.nblocks, _ => ZeroBlock());
    ZeroBlockWords(0);
    RecoverEmpty(g, img);
    run, steps := [State(img, map[], [], [], Down)], [];
    assert HeaderOf(g, img) == [];
    run, steps := ExtendRun(g, d, run, steps, Reboot);
    run, steps := ExtendRun(g, d, run, steps, DiskWrite);
  }

  /** Boot from an empty log and start three operations. */
  lemma ThreeOperations(g: Geometry, d: Discipline) returns (run: seq<State>, steps: seq<Step>)
    requires g.Valid()
    ensures IsRun(g, d, run, steps)
    ensures var s := run[|run| - 1]; s.phase.Idle? && s.blk == [] && s.ops == [0, 0, 0]
  {
    run, steps := Boot(g, d);
    run, steps := ExtendRun(g, d, run, steps, Begin);
    run, steps := ExtendRun(g, d, run, steps, Begin);
    run, steps := ExtendRun(g, d, run, steps, Begin);
  }

  function Clamp(m: int): (r: nat) {
    if m < 0 then 0 else if m > MAXOPBLOCKS then MAXOPBLOCKS else m
  }

  /** Three operations can fill the log up to any `m` blocks, in turn. */
  lemma {:induction false} FillLog(g: Geometry, d: Discipline, m: nat) returns (run: seq<State>, steps: seq<Step>)
    requires g.Valid() && g.start + g.size + LOGSIZE <= g.nblocks
    requires m <= LOGSIZE && m <= g.size - 1
    ensures IsRun(g, d, run, steps)
    ensures var s := run[|run| - 1];
            && s.phase.Idle? && s.blk == seq(m, i => g.start + g.size + i)
            && s.ops == [Clamp(m), Clamp(m - 10), Clamp(m - 20)]
    decreases m
  {
    hide Word;
    if m == 0 {
      run, steps := ThreeOperations(g, d);
    } else {
      run, steps := FillLog(g, d, m - 1);
      var s := run[|run| - 1];
      var step := Write((m - 1) / 10, g.start + g.size + m - 1, ZeroBlock());
      run, steps := ExtendRun(g, d, run, steps, step);
    }
  }

  /** Exactly when no run can panic in log_write ("too big a transaction"): the log must
      be larger than LOGSIZE, and no operation may call log_write with its budget spent,
      not even for a block that would be absorbed. */
  lemma NeverPanicsIff(g: Geometry, d: Discipline)
    requires g.Valid() && g.start + g.size + LOGSIZE <= g.nblocks
    ensures NeverPanics(g, d) <==> d.CallsBelowBudget? && g.size > LOGSIZE
  {
    if d.CallsBelowBudget? && g.size > LOGSIZE {
      forall run: seq<State>, steps: seq<Step> | IsRun(g, d, run, steps)
        ensures !PanicsAfter(g, d, run[|run| - 1])
      {
        SafeCalls(g, run, steps);
      }
    } else {
      var m := if g.size > LOGSIZE then LOGSIZE else g.size - 1;
      var run, steps := FillLog(g, d, m);
      var s := run[|run| - 1];
      if g.size > LOGSIZE {
        assert s.blk[0] == g.start + g.size;
        assert Calls(g, d, s, 0, g.start + g.size) && TooBig(g, s);
      } else {
        assert Calls(g, d, s, m / 10, g.start + g.size) && TooBig(g, s);
      }
    }
  }
}

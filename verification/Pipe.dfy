/** Pipes (kernel/pipe.c): any number of readers and writers of one ring. A step is one
    section under the pipe's lock, from taking it to releasing it or sleeping; that sleeping
    gives the lock up and marks the sleeper in one step is proved in module SleepLock. */
module Pipe {
  import opened Arithmetic
  import opened Blocks
  import opened Ring

  /** A thread outside the pipe, or one that went to sleep in pipewrite or piperead and
      may have been made runnable since. */
  datatype Thread =
    | Idle
    | Writing(addr: seq<Byte>, i: nat, asleep: bool)
    | Reading(n: nat, asleep: bool)

  /** `sent` (each byte with its writer) and `got` are all bytes written to and read from
      the pipe; `done[t]` is what the finished writes of thread t put in. */
  datatype State = State(
    size: nat, ring: seq<Byte>, readopen: nat, writeopen: nat, threads: seq<Thread>,
    sent: seq<(nat, Byte)>, got: seq<Byte>, done: seq<seq<Byte>>)

  // ----- pipewrite, piperead, pipeclose ------------------------------------

  /** wakeup on nread (`readers`) or on nwrite. */
  function Wake(ts: seq<Thread>, readers: bool): (r: seq<Thread>)
    ensures |r| == |ts|
    ensures forall t :: 0 <= t < |ts| ==> r[t] == Woken(ts[t], readers)
  {
    seq(|ts|, t requires 0 <= t < |ts| => Woken(ts[t], readers))
  }

  function Woken(th: Thread, readers: bool): Thread {
    match th
    case Idle => th
    case Writing(addr, i, _) => if readers then th else Writing(addr, i, false)
    case Reading(n, _) => if readers then Reading(n, false) else th
  }

  function Tagged(t: nat, bs: seq<Byte>): (r: seq<(nat, Byte)>)
    ensures |r| == |bs| && forall k :: 0 <= k < |bs| ==> r[k] == (t, bs[k])
  {
    seq(|bs|, k requires 0 <= k < |bs| => (t, bs[k]))
  }

  /** How many bytes go in before the ring is full. */
  function Room(s: State, addr: seq<Byte>, i: nat): nat
    requires i <= |addr| && |s.ring| <= s.size
  {
    Min(|addr| - i, s.size - |s.ring|)
  }

  /** The bytes that pipewrite puts in without sleeping. */
  function Filled(s: State, t: nat, addr: seq<Byte>, i: nat): State
    requires i <= |addr| && |s.ring| <= s.size
  {
    var bytes := addr[i..i + Room(s, addr, i)];
    s.(ring := s.ring + bytes, sent := s.sent + Tagged(t, bytes))
  }

  function Finish(s: State, t: nat, bytes: seq<Byte>): State
    requires t < |s.threads| && t < |s.done|
  {
    s.(threads := s.threads[t := Idle], done := s.done[t := s.done[t] + bytes])
  }

  /** pipewrite from byte `i` on; `killed` is what the thread finds if it finds the ring full. */
  function WriteSection(s: State, t: nat, addr: seq<Byte>, i: nat, killed: bool): State
    requires t < |s.threads| == |s.done| && i <= |addr| && |s.ring| <= s.size
  {
    var f, j := Filled(s, t, addr, i), i + Room(s, addr, i);
    if j == |addr| then
      var g := Finish(f, t, addr); g.(threads := Wake(g.threads, true))
    else if s.readopen == 0 || killed then
      Finish(f, t, addr[..j])
    else
      f.(threads := Wake(f.threads, true)[t := Writing(addr, j, true)])
  }

  /** piperead; `killed` is what the thread finds if it finds the ring empty. */
  function ReadSection(s: State, t: nat, n: nat, killed: bool): State
    requires t < |s.threads|
  {
    if s.ring == [] && s.writeopen > 0 then
      s.(threads := s.threads[t := if killed then Idle else Reading(n, true)])
    else
      var m := Min(n, |s.ring|);
      s.(ring := s.ring[m..], got := s.got + s.ring[..m], threads := Wake(s.threads[t := Idle], false))
  }

  datatype Step =
    | Write(t: nat, addr: seq<Byte>, killedBefore: bool, killed: bool)
    | WriteOn(t: nat, killed: bool)            // a woken writer is scheduled
    | Read(t: nat, n: nat, killed: bool)
    | ReadOn(t: nat, killed: bool)             // a woken reader is scheduled
    | Signal(t: nat)                           // a signal makes a sleeper runnable
    | Close(writable: bool)

  /** What callers owe: they read and write through an end that is open, and the last
      descriptor of an end stays open while a thread is inside a call on that end. */
  ghost predicate Enabled(s: State, a: Step) {
    match a
    case Write(t, _, _, _) => t < |s.threads| && s.threads[t] == Idle && s.writeopen > 0
    case WriteOn(t, _) => t < |s.threads| && s.threads[t].Writing? && !s.threads[t].asleep
    case Read(t, _, _) => t < |s.threads| && s.threads[t] == Idle && s.readopen > 0
    case ReadOn(t, _) => t < |s.threads| && s.threads[t].Reading? && !s.threads[t].asleep
    case Signal(t) => t < |s.threads| && s.threads[t] != Idle
    case Close(true) =>
      s.writeopen > 1 || (s.writeopen == 1 && forall t :: 0 <= t < |s.threads| ==> !s.threads[t].Writing?)
    case Close(false) =>
      s.readopen > 1 || (s.readopen == 1 && forall t :: 0 <= t < |s.threads| ==> !s.threads[t].Reading?)
  }

  function Next(s: State, a: Step): State
    requires WellFormed(s) && Enabled(s, a)
  {
    match a
    case Write(t, addr, killedBefore, killed) =>
      if s.readopen == 0 || killedBefore then s else WriteSection(s, t, addr, 0, killed)
    case WriteOn(t, killed) => WriteSection(s, t, s.threads[t].addr, s.threads[t].i, killed)
    case Read(t, n, killed) => ReadSection(s, t, n, killed)
    case ReadOn(t, killed) => ReadSection(s, t, s.threads[t].n, killed)
    case Signal(t) => s.(threads := s.threads[t := Woken(s.threads[t], s.threads[t].Reading?)])
    case Close(true) => s.(writeopen := s.writeopen - 1, threads := Wake(s.threads, true))
    case Close(false) => s.(readopen := s.readopen - 1, threads := Wake(s.threads, false))
  }

  // ----- the invariant -----------------------------------------------------

  ghost predicate WellFormed(s: State) {
    && s.size > 0 && |s.ring| <= s.size && |s.done| == |s.threads|
    && (forall t :: 0 <= t < |s.threads| && s.threads[t].Writing? ==> s.threads[t].i <= |s.threads[t].addr|)
  }

  function Bytes(sent: seq<(nat, Byte)>): (r: seq<Byte>)
    ensures |r| == |sent| && forall k :: 0 <= k < |sent| ==> r[k] == sent[k].1
  {
    seq(|sent|, k requires 0 <= k < |sent| => sent[k].1)
  }

  /** The bytes that thread `t` sent, in order. */
  function By(sent: seq<(nat, Byte)>, t: nat): seq<Byte> {
    if sent == [] then []
    else By(sent[..|sent| - 1], t) + if sent[|sent| - 1].0 == t then [sent[|sent| - 1].1] else []
  }

  /** What the calls of `t` have put in so far: finished calls, then the current one. */
  function Promised(s: State, t: nat): seq<Byte>
    requires WellFormed(s) && t < |s.threads|
  {
    s.done[t] + if s.threads[t].Writing? then s.threads[t].addr[..s.threads[t].i] else []
  }

  /** Nothing is lost, duplicated or reordered: what was read and then what is in the ring
      is what was written, and it is an interleaving of what the calls of each thread wrote. */
  ghost predicate Stream(s: State) {
    && WellFormed(s) && Bytes(s.sent) == s.got + s.ring
    && forall t :: 0 <= t < |s.threads| ==> By(s.sent, t) == Promised(s, t)
  }

  /** A sleeping writer waits for room that a reader can make. */
  ghost predicate WritersWait(s: State) {
    && (forall t :: 0 <= t < |s.threads| && s.threads[t].Writing? ==> s.writeopen > 0)
    && (forall t :: 0 <= t < |s.threads| && s.threads[t].Writing? && s.threads[t].asleep ==>
          |s.ring| == s.size && s.readopen > 0)
  }

  ghost predicate ReadersInside(s: State) {
    forall t :: 0 <= t < |s.threads| && s.threads[t].Reading? ==> s.readopen > 0
  }

  /** A sleeping reader waits for bytes that a writer can bring. */
  ghost predicate ReadersWait(s: State) {
    forall t :: 0 <= t < |s.threads| && s.threads[t].Reading? && s.threads[t].asleep ==>
      s.ring == [] && s.writeopen > 0
  }

  /** What holds in every run, signals or not. */
  ghost predicate Inv(s: State) {
    Stream(s) && WritersWait(s) && ReadersInside(s)
  }

  // ----- every step --------------------------------------------------------

  lemma {:induction false} ByAppend(sent: seq<(nat, Byte)>, more: seq<(nat, Byte)>, t: nat)
    ensures By(sent + more, t) == By(sent, t) + By(more, t)
  {
    if more == [] {
      assert sent + more == sent;
    } else {
      var n := |more| - 1;
      ByAppend(sent, more[..n], t);
      assert (sent + more)[..|sent + more| - 1] == sent + more[..n];
    }
  }

  lemma {:induction false} ByTagged(u: nat, bs: seq<Byte>, t: nat)
    ensures By(Tagged(u, bs), t) == if u == t then bs else []
  {
    if bs != [] {
      var n := |bs| - 1;
      ByTagged(u, bs[..n], t);
      assert Tagged(u, bs)[..n] == Tagged(u, bs[..n]);
      assert bs == bs[..n] + [bs[n]];
    }
  }

  lemma WriteSectionThread(s: State, t: nat, addr: seq<Byte>, i: nat, killed: bool, u: nat)
    requires WellFormed(s) && t < |s.threads| && u < |s.threads| && i <= |addr|
    ensures WellFormed(WriteSection(s, t, addr, i, killed))
    ensures Promised(WriteSection(s, t, addr, i, killed), u) ==
            if u == t then s.done[t] + addr[..i + Room(s, addr, i)] else Promised(s, u)
  {
  }

  lemma WriteSectionBytes(s: State, t: nat, addr: seq<Byte>, i: nat, killed: bool)
    requires WellFormed(s) && t < |s.threads| && i <= |addr|
    ensures var r := WriteSection(s, t, addr, i, killed);
      var bytes := addr[i..i + Room(s, addr, i)];
      && |r.threads| == |s.threads| && r.size == s.size && r.got == s.got && r.ring == s.ring + bytes
      && r.readopen == s.readopen && r.writeopen == s.writeopen
      && r.sent == s.sent + Tagged(t, bytes) && |r.ring| == |s.ring| + |bytes| <= s.size
  {
  }

  lemma WriteBytes(s: State, t: nat, addr: seq<Byte>, i: nat, killed: bool)
    requires WellFormed(s) && Bytes(s.sent) == s.got + s.ring && t < |s.threads| && i <= |addr|
    ensures var r := WriteSection(s, t, addr, i, killed); Bytes(r.sent) == r.got + r.ring
  {
    var bytes := addr[i..i + Room(s, addr, i)];
    WriteSectionBytes(s, t, addr, i, killed);
    hide WriteSection, WellFormed, Room;
    assert Bytes(s.sent + Tagged(t, bytes)) == Bytes(s.sent) + bytes;
    assert s.got + (s.ring + bytes) == s.got + s.ring + bytes;
  }

  lemma JoinPrefix(done: seq<Byte>, addr: seq<Byte>, i: nat, m: nat)
    requires i + m <= |addr|
    ensures done + addr[..i] + addr[i..i + m] == done + addr[..i + m]
  {
  }

  lemma WriteBy(s: State, t: nat, addr: seq<Byte>, i: nat, killed: bool, u: nat)
    requires WellFormed(s) && t < |s.threads| && i <= |addr| && u < |s.threads|
    requires By(s.sent, u) == Promised(s, u) && Promised(s, t) == s.done[t] + addr[..i]
    ensures var r := WriteSection(s, t, addr, i, killed);
      WellFormed(r) && u < |r.threads| && By(r.sent, u) == Promised(r, u)
  {
    hide WriteSection, By, Promised, Tagged;
    var m := Room(s, addr, i);
    var bytes := addr[i..i + m];
    WriteSectionBytes(s, t, addr, i, killed);
    WriteSectionThread(s, t, addr, i, killed, u);
    ByAppend(s.sent, Tagged(t, bytes), u);
    ByTagged(t, bytes, u);
    JoinPrefix(s.done[t], addr, i, m);
    assert By(s.sent, u) + [] == By(s.sent, u);
  }

  lemma WriteKeepsStream(s: State, t: nat, addr: seq<Byte>, i: nat, killed: bool)
    requires Stream(s) && t < |s.threads| && i <= |addr|
    requires Promised(s, t) == s.done[t] + addr[..i]
    ensures Stream(WriteSection(s, t, addr, i, killed))
  {
    var r := WriteSection(s, t, addr, i, killed);
    WriteBytes(s, t, addr, i, killed);
    WriteSectionThread(s, t, addr, i, killed, t);
    WriteSectionBytes(s, t, addr, i, killed);
    hide WriteSection, By, Promised, WellFormed;
    forall u | 0 <= u < |r.threads| ensures By(r.sent, u) == Promised(r, u) {
      WriteBy(s, t, addr, i, killed, u);
    }
  }

  lemma ReadKeepsStream(s: State, t: nat, n: nat, killed: bool)
    requires Stream(s) && t < |s.threads| && !s.threads[t].Writing?
    ensures Stream(ReadSection(s, t, n, killed))
  {
    var r, m := ReadSection(s, t, n, killed), Min(n, |s.ring|);
    assert s.got + s.ring[..m] + s.ring[m..] == s.got + s.ring;
    forall u | 0 <= u < |r.threads|
      ensures By(r.sent, u) == Promised(r, u)
    {
      assert By(s.sent, u) == Promised(s, u);
    }
  }

  lemma StepKeepsStream(s: State, a: Step)
    requires Stream(s) && Enabled(s, a)
    ensures Stream(Next(s, a))
  {
    hide WriteSection, ReadSection, By;
    match a
    case Write(t, addr, _, killed) =>
      assert By(s.sent, t) == Promised(s, t);
      assert s.done[t] + addr[..0] == s.done[t];
      WriteKeepsStream(s, t, addr, 0, killed);
    case WriteOn(t, killed) =>
      assert By(s.sent, t) == Promised(s, t);
      WriteKeepsStream(s, t, s.threads[t].addr, s.threads[t].i, killed);
    case Read(t, n, killed) => ReadKeepsStream(s, t, n, killed);
    case ReadOn(t, killed) => ReadKeepsStream(s, t, s.threads[t].n, killed);
    case Signal(t) => OnlyWaking(s, Next(s, a));
    case Close(_) => OnlyWaking(s, Next(s, a));
  }

  lemma OnlyWaking(s: State, r: State)
    requires Stream(s) && r.size == s.size && r.ring == s.ring && r.sent == s.sent && r.got == s.got && r.done == s.done
    requires |r.threads| == |s.threads|
    requires forall t :: 0 <= t < |s.threads| ==>
               (exists readers :: r.threads[t] == Woken(s.threads[t], readers)) || r.threads[t] == s.threads[t]
    ensures Stream(r)
  {
    forall u | 0 <= u < |r.threads|
      ensures r.threads[u].Writing? ==> r.threads[u].i <= |r.threads[u].addr|
    {
      assert s.threads[u].Writing? ==> s.threads[u].i <= |s.threads[u].addr|;
    }
    forall u | 0 <= u < |r.threads|
      ensures By(r.sent, u) == Promised(r, u)
    {
      assert By(s.sent, u) == Promised(s, u);
    }
  }

  lemma StepKeepsWriters(s: State, a: Step)
    requires WellFormed(s) && WritersWait(s) && ReadersInside(s) && Enabled(s, a)
    ensures WritersWait(Next(s, a)) && ReadersInside(Next(s, a))
  {
    var r := Next(s, a);
    match a
    case Write(t, addr, _, killed) =>
    case WriteOn(t, killed) =>
    case Read(t, n, killed) =>
    case ReadOn(t, killed) =>
    case Signal(t) =>
    case Close(_) =>
  }

  /** Every step of every thread keeps what holds in every run. */
  lemma StepKeepsInv(s: State, a: Step)
    requires Inv(s) && Enabled(s, a)
    ensures Inv(Next(s, a))
  {
    hide WritersWait, ReadersInside, Next, By, Bytes;
    StepKeepsStream(s, a);
    StepKeepsWriters(s, a);
  }

  // ----- sleeping readers --------------------------------------------------

  /** A writer gives up, killed, at a ring that it filled itself since it took the lock. */
  ghost predicate GivesUp(s: State, addr: seq<Byte>, i: nat, killed: bool)
    requires i <= |addr| && |s.ring| <= s.size
  {
    killed && 0 < Room(s, addr, i) < |addr| - i
  }

  ghost predicate ReaderAsleep(s: State) {
    exists t :: 0 <= t < |s.threads| && s.threads[t].Reading? && s.threads[t].asleep
  }

  /** The step is a killed writer leaving bytes behind without waking the sleeping readers. */
  ghost predicate Abandons(s: State, a: Step)
    requires WellFormed(s) && Enabled(s, a)
  {
    ReaderAsleep(s) &&
    match a
    case Write(t, addr, killedBefore, killed) => s.readopen > 0 && !killedBefore && GivesUp(s, addr, 0, killed)
    case WriteOn(t, killed) => GivesUp(s, s.threads[t].addr, s.threads[t].i, killed)
    case _ => false
  }

  lemma WriteAndReaders(s: State, t: nat, addr: seq<Byte>, i: nat, killed: bool)
    requires WellFormed(s) && ReadersInside(s) && ReadersWait(s)
    requires t < |s.threads| && i <= |addr| && !s.threads[t].Reading?
    ensures ReadersWait(WriteSection(s, t, addr, i, killed)) <==> !(ReaderAsleep(s) && GivesUp(s, addr, i, killed))
  {
    var r := WriteSection(s, t, addr, i, killed);
    if ReaderAsleep(s) {
      var u :| 0 <= u < |s.threads| && s.threads[u].Reading? && s.threads[u].asleep;
      assert s.readopen > 0 && s.ring == [];
      if GivesUp(s, addr, i, killed) {
        assert r.threads[u].Reading? && r.threads[u].asleep && |r.ring| > 0;
      }
    }
  }

  /** A step keeps every sleeping reader at an empty ring with a writer open exactly when
      it is not a killed writer that gives up in front of a sleeping reader. */
  lemma ReadersWaitIff(s: State, a: Step)
    requires WellFormed(s) && ReadersInside(s) && ReadersWait(s) && Enabled(s, a)
    ensures ReadersWait(Next(s, a)) <==> !Abandons(s, a)
  {
    hide WriteSection, ReadSection, ReadersWait, GivesUp, ReaderAsleep;
    match a
    case Write(t, addr, _, killed) => WriteAndReaders(s, t, addr, 0, killed);
    case WriteOn(t, killed) => WriteAndReaders(s, t, s.threads[t].addr, s.threads[t].i, killed);
    case Read(t, n, killed) => ReadAndReaders(s, t, n, killed);
    case ReadOn(t, killed) => ReadAndReaders(s, t, s.threads[t].n, killed);
    case Signal(t) => WakingReaders(s, a);
    case Close(_) => WakingReaders(s, a);
  }

  lemma ReadAndReaders(s: State, t: nat, n: nat, killed: bool)
    requires ReadersWait(s) && t < |s.threads|
    ensures ReadersWait(ReadSection(s, t, n, killed))
  {
  }

  lemma WakingReaders(s: State, a: Step)
    requires WellFormed(s) && ReadersWait(s) && Enabled(s, a) && (a.Signal? || a.Close?)
    ensures ReadersWait(Next(s, a))
  {
  }

  // ----- runs --------------------------------------------------------------

  /** A new pipe of any size, before any thread uses it. */
  ghost predicate Init(s: State) {
    && s.size > 0 && s.ring == [] && s.sent == [] && s.got == [] && |s.done| == |s.threads|
    && forall t :: 0 <= t < |s.threads| ==> s.threads[t] == Idle && s.done[t] == []
  }

  ghost predicate IsRun(run: seq<State>, steps: seq<Step>) {
    && |run| == |steps| + 1 && Init(run[0])
    && forall i :: 0 <= i < |steps| ==>
         WellFormed(run[i]) && Enabled(run[i], steps[i]) && run[i + 1] == Next(run[i], steps[i])
  }

  /** In every run, under any interleaving and any signals: occupancy stays within the ring,
      no byte is lost, duplicated or reordered, and a sleeping writer faces a full ring. */
  lemma {:induction false} RunKeepsInv(run: seq<State>, steps: seq<Step>, i: nat)
    requires IsRun(run, steps) && i < |run|
    ensures Inv(run[i])
    decreases i
  {
    hide Inv, Next, Enabled, WellFormed;
    if i > 0 {
      var k := i - 1;
      RunKeepsInv(run, steps, k);
      assert Enabled(run[k], steps[k]) && run[k + 1] == Next(run[k], steps[k]);
      StepKeepsInv(run[k], steps[k]);
    } else {
      InitInv(run[0]);
    }
  }

  lemma InitInv(s: State)
    requires Init(s)
    ensures Inv(s) && ReadersWait(s)
  {
  }

  /** What readers got is always a prefix of what writers sent. */
  lemma ReadIsAPrefix(run: seq<State>, steps: seq<Step>, i: nat)
    requires IsRun(run, steps) && i < |run|
    ensures run[i].got <= Bytes(run[i].sent) && |run[i].got| + |run[i].ring| == |run[i].sent|
  {
    RunKeepsInv(run, steps, i);
  }

  /** Sleeping readers face an empty ring with a writer open throughout a run exactly when
      no killed writer gives up in front of one. */
  lemma RunReadersWaitIff(run: seq<State>, steps: seq<Step>)
    requires IsRun(run, steps)
    ensures (forall i :: 0 <= i < |run| ==> ReadersWait(run[i])) <==>
            (forall i :: 0 <= i < |steps| ==> !Abandons(run[i], steps[i]))
  {
    if forall i :: 0 <= i < |steps| ==> !Abandons(run[i], steps[i]) {
      forall i | 0 <= i < |run| ensures ReadersWait(run[i]) { RunReadersWait(run, steps, i); }
    } else {
      var i :| 0 <= i < |steps| && Abandons(run[i], steps[i]);
      RunKeepsInv(run, steps, i);
      if ReadersWait(run[i]) {
        ReadersWaitIff(run[i], steps[i]);
        assert !ReadersWait(run[i + 1]);
      }
    }
  }

  lemma {:induction false} RunReadersWait(run: seq<State>, steps: seq<Step>, i: nat)
    requires IsRun(run, steps) && i < |run|
    requires forall k :: 0 <= k < |steps| ==> !Abandons(run[k], steps[k])
    ensures ReadersWait(run[i])
    decreases i
  {
    hide Next, Enabled, ReadersWait, Abandons, Stream, WritersWait, ReadersInside;
    if i > 0 {
      var k := i - 1;
      RunReadersWait(run, steps, k);
      RunKeepsInv(run, steps, k);
      assert Enabled(run[k], steps[k]) && run[k + 1] == Next(run[k], steps[k]);
      ReadersWaitIff(run[k], steps[k]);
    } else {
      InitInv(run[0]);
    }
  }

  /** In a run that no killed writer spoils, readers and writers never wait for each other. */
  lemma NeverBothAsleep(run: seq<State>, steps: seq<Step>, i: nat, t: nat, u: nat)
    requires IsRun(run, steps) && i < |run| && t < |run[i].threads| && u < |run[i].threads|
    requires forall k :: 0 <= k < |steps| ==> !Abandons(run[k], steps[k])
    requires run[i].threads[t].Writing? && run[i].threads[u].Reading?
    ensures !(run[i].threads[t].asleep && run[i].threads[u].asleep)
  {
    RunKeepsInv(run, steps, i);
    RunReadersWait(run, steps, i);
  }

  /** A read of at least one byte that comes back with none has seen the end: no writer is
      left, and readers have got every byte that was ever sent. */
  lemma EndOfFile(s: State, t: nat, n: nat, killed: bool)
    requires Stream(s) && t < |s.threads| && n > 0
    requires !(s.ring == [] && s.writeopen > 0)
    ensures ReadSection(s, t, n, killed).got == s.got <==> s.ring == []
    ensures ReadSection(s, t, n, killed).got == s.got ==> s.writeopen == 0 && s.got == Bytes(s.sent)
  {
    if s.ring != [] {
      assert |ReadSection(s, t, n, killed).got| > |s.got|;
    } else {
      assert s.got + s.ring == s.got;
      assert s.got + [] == s.got;
    }
  }

  /** Such a run exists for every size of ring: a reader sleeps at the empty ring, a writer
      fills the ring and is killed there, and the reader sleeps on in front of a full ring. */
  lemma AKilledWriterStrandsAReader(size: nat) returns (run: seq<State>, steps: seq<Step>)
    requires size > 0
    ensures IsRun(run, steps) && |run| == 3
    ensures |run[2].ring| == size && run[2].threads == [Reading(1, true), Idle]
  {
    var addr: seq<Byte> := seq(size + 1, _ => 0);
    var s0 := State(size, [], 1, 1, [Idle, Idle], [], [], [[], []]);
    var s1 := s0.(threads := [Reading(1, true), Idle]);
    steps := [Read(0, 1, false), Write(1, addr, false, true)];
    assert s1 == Next(s0, steps[0]);
    var s2 := Next(s1, steps[1]);
    run := [s0, s1, s2];
    assert Room(s1, addr, 0) == size;
    assert s2.threads == [Reading(1, true), Idle][1 := Idle];
  }

  // ----- calls, from the first step to the last ----------------------------

  /** Thread `t` has sent `base` and then `m` bytes of `addr`, and goes on there if it is not
      done yet. */
  ghost predicate SentSoFar(s: State, t: nat, base: seq<Byte>, addr: seq<Byte>, m: nat) {
    && t < |s.threads| && m <= |addr| && By(s.sent, t) == base + addr[..m]
    && (s.threads[t] == Idle || (s.threads[t].Writing? && s.threads[t].addr == addr && s.threads[t].i == m))
  }

  /** The thread finds itself killed, or the last reader gone, if it finds the ring full. */
  ghost predicate CutShort(s: State, a: Step) {
    s.readopen == 0 || ((a.Write? || a.WriteOn?) && a.killed)
  }

  lemma WriteSends(s: State, t: nat, addr: seq<Byte>, i: nat, killed: bool, base: seq<Byte>)
    requires Stream(s) && t < |s.threads| && i <= |addr| && By(s.sent, t) == base + addr[..i]
    ensures var m, r := i + Room(s, addr, i), WriteSection(s, t, addr, i, killed);
      && SentSoFar(r, t, base, addr, m) && |r.threads| == |s.threads|
      && (r.threads[t] == Idle ==> m == |addr| || (|r.ring| == s.size && (s.readopen == 0 || killed)))
  {
    hide By;
    var bytes := addr[i..i + Room(s, addr, i)];
    WriteSectionBytes(s, t, addr, i, killed);
    ByAppend(s.sent, Tagged(t, bytes), t);
    ByTagged(t, bytes, t);
    JoinPrefix(base, addr, i, Room(s, addr, i));
  }

  /** What other steps do to a writer: nothing but wake it. */
  lemma OthersLeave(s: State, a: Step, t: nat)
    requires Stream(s) && Enabled(s, a) && t < |s.threads| && s.threads[t].Writing? && !(a.WriteOn? && a.t == t)
    ensures var r := Next(s, a);
      && |r.threads| == |s.threads| && By(r.sent, t) == By(s.sent, t)
      && r.threads[t].Writing? && r.threads[t].addr == s.threads[t].addr && r.threads[t].i == s.threads[t].i
  {
    hide By;
    if a.Write? || a.WriteOn? {
      var u, addr, i := a.t, if a.Write? then a.addr else s.threads[a.t].addr, if a.Write? then 0 else s.threads[a.t].i;
      var bytes := addr[i..i + Room(s, addr, i)];
      ByAppend(s.sent, Tagged(u, bytes), t);
      ByTagged(u, bytes, t);
      assert By(s.sent, t) + [] == By(s.sent, t);
    }
  }

  lemma StepSends(s: State, a: Step, t: nat, base: seq<Byte>, addr: seq<Byte>, m: nat) returns (m': nat)
    requires Stream(s) && Enabled(s, a) && SentSoFar(s, t, base, addr, m) && s.threads[t].Writing?
    ensures SentSoFar(Next(s, a), t, base, addr, m') && m <= m'
    ensures Next(s, a).threads[t] == Idle ==> m' == |addr| || (|Next(s, a).ring| == s.size && CutShort(s, a))
  {
    hide By, WriteSection, Stream;
    if a.WriteOn? && a.t == t {
      WriteSends(s, t, addr, m, a.killed, base);
      m' := m + Room(s, addr, m);
    } else {
      OthersLeave(s, a, t);
      m' := m;
    }
  }

  /** The call of pipewrite that begins with step `i` is not over before moment `j`. */
  ghost predicate WriteCall(run: seq<State>, steps: seq<Step>, i: nat, j: nat, t: nat, addr: seq<Byte>) {
    && IsRun(run, steps) && i < j < |run| && steps[i].Write? && steps[i].t == t && steps[i].addr == addr
    && run[i].readopen > 0 && !steps[i].killedBefore
    && forall k :: i < k < j ==> t < |run[k].threads| && run[k].threads[t] != Idle
  }

  /** In every run: as long as a write goes on, what its thread has sent since it began is a
      prefix of its bytes. When it ends, that is all of them, unless it ends at a full ring
      because the thread is killed or the last reader has gone. */
  lemma {:induction false} WriteSendsAll(run: seq<State>, steps: seq<Step>, i: nat, j: nat, t: nat, addr: seq<Byte>)
    returns (m: nat)
    requires WriteCall(run, steps, i, j, t, addr)
    ensures SentSoFar(run[j], t, By(run[i].sent, t), addr, m)
    ensures run[j].threads[t] == Idle ==>
              m == |addr| || (|run[j].ring| == run[j].size && CutShort(run[j - 1], steps[j - 1]))
    decreases j
  {
    hide Next, Enabled, By, Stream, WritersWait, ReadersInside, CutShort, WellFormed, Init, SentSoFar;
    var k, base := j - 1, By(run[i].sent, t);
    RunKeepsInv(run, steps, k);
    assert WellFormed(run[k]) && Enabled(run[k], steps[k]) && run[k + 1] == Next(run[k], steps[k]);
    SameSize(run[k], steps[k]);
    if k == i {
      m := FirstSends(run[k], steps[k]);
    } else {
      var m0 := WriteSendsAll(run, steps, i, k, t, addr);
      GoesOn(run[k], t, base, addr, m0);
      m := StepSends(run[k], steps[k], t, base, addr, m0);
    }
  }

  lemma GoesOn(s: State, t: nat, base: seq<Byte>, addr: seq<Byte>, m: nat)
    requires SentSoFar(s, t, base, addr, m) && s.threads[t] != Idle
    ensures s.threads[t].Writing?
  {
  }

  lemma SameSize(s: State, a: Step)
    requires WellFormed(s) && Enabled(s, a)
    ensures Next(s, a).size == s.size && |Next(s, a).threads| == |s.threads|
  {
  }

  lemma FirstSends(s: State, a: Step) returns (m: nat)
    requires Stream(s) && Enabled(s, a) && a.Write? && s.readopen > 0 && !a.killedBefore
    ensures SentSoFar(Next(s, a), a.t, By(s.sent, a.t), a.addr, m)
    ensures Next(s, a).threads[a.t] == Idle ==> m == |a.addr| || (|Next(s, a).ring| == s.size && CutShort(s, a))
  {
    hide By, WriteSection, Stream;
    assert By(s.sent, a.t) + a.addr[..0] == By(s.sent, a.t);
    WriteSends(s, a.t, a.addr, 0, a.killed, By(s.sent, a.t));
    m := Room(s, a.addr, 0);
  }

  /** A write without a reader, or by a killed thread, sends nothing. */
  lemma RefusedWriteSendsNothing(s: State, a: Step)
    requires WellFormed(s) && Enabled(s, a) && a.Write? && (s.readopen == 0 || a.killedBefore)
    ensures Next(s, a).sent == s.sent && Next(s, a).ring == s.ring && Next(s, a).threads == s.threads
  {
  }

  /** The call of piperead that begins with step `i` makes step `j`. */
  ghost predicate ReadCall(run: seq<State>, steps: seq<Step>, i: nat, j: nat, t: nat, n: nat) {
    && IsRun(run, steps) && i <= j < |steps| && steps[i].Read? && steps[i].t == t && steps[i].n == n
    && (j > i ==> steps[j].ReadOn? && steps[j].t == t)
    && forall k :: i < k <= j ==> t < |run[k].threads| && run[k].threads[t] != Idle
  }

  /** Thread `t` is in piperead, called for `n` bytes. */
  ghost predicate ReadsFor(s: State, t: nat, n: nat) {
    t < |s.threads| && s.threads[t].Reading? && s.threads[t].n == n
  }

  lemma StillReads(s: State, a: Step, t: nat, n: nat)
    requires WellFormed(s) && Enabled(s, a)
    requires if a.Read? && a.t == t then a.n == n else ReadsFor(s, t, n)
    ensures t < |Next(s, a).threads| && (Next(s, a).threads[t] == Idle || ReadsFor(Next(s, a), t, n))
  {
  }

  lemma {:induction false} ReadsOn(run: seq<State>, steps: seq<Step>, i: nat, k: nat, t: nat, n: nat)
    requires IsRun(run, steps) && i < k < |run| && steps[i].Read? && steps[i].t == t && steps[i].n == n
    requires forall l :: i < l <= k ==> t < |run[l].threads| && run[l].threads[t] != Idle
    ensures ReadsFor(run[k], t, n)
    decreases k
  {
    hide Next, Enabled, WellFormed, Init, ReadsFor;
    var l := k - 1;
    assert WellFormed(run[l]) && Enabled(run[l], steps[l]) && run[l + 1] == Next(run[l], steps[l]);
    if l == i {
      StillReads(run[l], steps[l], t, n);
    } else {
      ReadsOn(run, steps, i, l, t, n);
      NotItsRead(run[l], steps[l], t, n);
      StillReads(run[l], steps[l], t, n);
    }
  }

  lemma NotItsRead(s: State, a: Step, t: nat, n: nat)
    requires Enabled(s, a) && ReadsFor(s, t, n)
    ensures !(a.Read? && a.t == t)
  {
  }

  /** In every run: each step of a read gets the oldest bytes of the ring, as many as it was
      called for or as there are, and ends the call; or, at an empty ring with a writer open,
      gets none, and ends the call exactly if the thread is killed. */
  lemma ReadTakesItsBytes(run: seq<State>, steps: seq<Step>, i: nat, j: nat, t: nat, n: nat)
    requires ReadCall(run, steps, i, j, t, n)
    ensures var s, r, m := run[j], run[j + 1], Min(n, |run[j].ring|);
      && t < |r.threads| && r.got == s.got + s.ring[..m] && r.ring == s.ring[m..] && r.sent == s.sent
      && (r.threads[t] == Idle <==> s.ring != [] || s.writeopen == 0 || steps[j].killed)
  {
    assert WellFormed(run[j]) && Enabled(run[j], steps[j]) && run[j + 1] == Next(run[j], steps[j]);
    if j > i { ReadsOn(run, steps, i, j, t, n); }
    hide IsRun, WellFormed;
    assert [] + run[j].got == run[j].got + [];
  }

  /** Descriptors of an end that were closed so far. */
  function Closed(steps: seq<Step>, writable: bool): nat {
    if steps == [] then 0
    else Closed(steps[..|steps| - 1], writable) + if steps[|steps| - 1] == Close(writable) then 1 else 0
  }

  /** In every run: an end is open as long as it has descriptors left. */
  lemma {:induction false} EndsOpen(run: seq<State>, steps: seq<Step>, i: nat)
    requires IsRun(run, steps) && i < |run|
    ensures run[i].writeopen + Closed(steps[..i], true) == run[0].writeopen
    ensures run[i].readopen + Closed(steps[..i], false) == run[0].readopen
    decreases i
  {
    if i > 0 {
      var k := i - 1;
      hide Next, Enabled, WellFormed, Init;
      EndsOpen(run, steps, k);
      assert WellFormed(run[k]) && Enabled(run[k], steps[k]) && run[k + 1] == Next(run[k], steps[k]);
      StepOpens(run[k], steps[k]);
      assert steps[..i][..k] == steps[..k];
    }
  }

  lemma StepOpens(s: State, a: Step)
    requires WellFormed(s) && Enabled(s, a)
    ensures Next(s, a).writeopen + (if a == Close(true) then 1 else 0) == s.writeopen
    ensures Next(s, a).readopen + (if a == Close(false) then 1 else 0) == s.readopen
  {
  }

  /** A sleeper can go on after a signal. */
  lemma SignalWakes(s: State, t: nat, killed: bool)
    requires WellFormed(s) && Enabled(s, Signal(t))
    ensures var r := Next(s, Signal(t)); Enabled(r, WriteOn(t, killed)) || Enabled(r, ReadOn(t, killed))
  {
  }

  // ----- the code ----------------------------------------------------------

  /** pipewrite returns the number of bytes or -EPIPE, or sleeps on the way. */
  datatype WriteResult = Wrote(n: nat) | BrokenPipe | WriterAsleep

  /** piperead returns bytes, or -1 if it was killed, or sleeps on the way. */
  datatype ReadResult = Got(bytes: seq<Byte>) | Killed | ReaderAsleep

  /** struct pipe, with the threads that use it. Each method is one section under its lock,
      and one step of the system above. */
  class SharedPipe {
    const ring: Ring
    var readopen: nat
    var writeopen: nat
    var threads: seq<Thread>
    ghost var sent: seq<(nat, Byte)>
    ghost var got: seq<Byte>
    ghost var done: seq<seq<Byte>>

    ghost function View(): State
      requires ring.Valid()
      reads this, ring, ring.data
    {
      State(ring.data.Length, ring.Contents(), readopen, writeopen, threads, sent, got, done)
    }

    /** pipealloc, for `n` threads */
    constructor (n: nat)
      ensures fresh(ring) && fresh(ring.data) && ring.Valid() && Init(View()) && |threads| == n
      ensures readopen == 1 && writeopen == 1 && ring.data.Length == PIPESIZE
    {
      ring := new Ring();
      readopen, writeopen := 1, 1;
      threads := seq(n, _ => Idle);
      sent, got, done := [], [], seq(n, _ => []);
    }

    /** wakeup on one of the two counters */
    method Wakeup(readers: bool)
      modifies this`threads
      ensures threads == Wake(old(threads), readers)
    {
      ghost var before := threads;
      for t := 0 to |threads|
        invariant |threads| == |before|
        invariant forall k :: 0 <= k < t ==> threads[k] == Woken(before[k], readers)
        invariant forall k :: t <= k < |before| ==> threads[k] == before[k]
      {
        match threads[t]
        case Idle =>
        case Writing(addr, i, _) => if !readers { threads := threads[t := Writing(addr, i, false)]; }
        case Reading(n, _) => if readers { threads := threads[t := Reading(n, false)]; }
      }
    }

    /** The loop of pipewrite, from byte `i` until it returns or sleeps. */
    method WriteOn(t: nat, addr: seq<Byte>, i: nat, killed: bool) returns (r: WriteResult)
      requires ring.Valid() && WellFormed(View()) && t < |threads| && i <= |addr|
      modifies this, ring, ring.data
      ensures ring.Valid() && View() == WriteSection(old(View()), t, addr, i, killed)
      ensures r == Wrote(|addr|) <==> i + Room(old(View()), addr, i) == |addr|
      ensures r != Wrote(|addr|) ==> r == if old(readopen) == 0 || killed then BrokenPipe else WriterAsleep
    {
      ghost var s := View();
      var j := ring.Fill(addr, i);
      sent := sent + Tagged(t, addr[i..j]);
      if j == |addr| {
        threads := threads[t := Idle];
        done := done[t := done[t] + addr];
        Wakeup(true);
        return Wrote(|addr|);
      }
      if readopen == 0 || killed {
        threads := threads[t := Idle];
        done := done[t := done[t] + addr[..j]];
        return BrokenPipe;
      }
      Wakeup(true);
      threads := threads[t := Writing(addr, j, true)];
      r := WriterAsleep;
    }

    /** pipewrite */
    method PipeWrite(t: nat, addr: seq<Byte>, killedBefore: bool, killed: bool) returns (r: WriteResult)
      requires ring.Valid() && WellFormed(View()) && Enabled(View(), Write(t, addr, killedBefore, killed))
      modifies this, ring, ring.data
      ensures ring.Valid() && View() == Next(old(View()), Write(t, addr, killedBefore, killed))
      ensures (old(readopen) == 0 || killedBefore) ==> r == BrokenPipe
      ensures old(readopen) > 0 && !killedBefore ==> (r == Wrote(|addr|) <==> Room(old(View()), addr, 0) == |addr|)
      ensures old(readopen) > 0 && !killedBefore && r != Wrote(|addr|) ==>
                r == if killed then BrokenPipe else WriterAsleep
    {
      hide WriteSection;
      if readopen == 0 || killedBefore { return BrokenPipe; }
      r := WriteOn(t, addr, 0, killed);
    }

    /** piperead */
    method PipeRead(t: nat, n: nat, killed: bool) returns (r: ReadResult)
      requires ring.Valid() && t < |threads|
      modifies this, ring, ring.data
      ensures ring.Valid() && View() == ReadSection(old(View()), t, n, killed)
      ensures r.Got? ==> got == old(got) + r.bytes && |r.bytes| == Min(n, |old(ring.Contents())|)
      ensures !r.Got? <==> old(ring.Contents()) == [] && writeopen > 0
      ensures !r.Got? ==> r == if killed then Killed else ReaderAsleep
    {
      var empty := ring.IsEmpty();
      if empty && writeopen > 0 {
        threads := threads[t := if killed then Idle else Reading(n, true)];
        return if killed then Killed else ReaderAsleep;
      }
      var bytes := ring.Drain(n);
      got := got + bytes;
      threads := threads[t := Idle];
      Wakeup(false);
      r := Got(bytes);
    }

    /** pipeclose */
    method PipeClose(writable: bool)
      requires ring.Valid() && WellFormed(View()) && Enabled(View(), Close(writable))
      modifies this
      ensures ring.Valid() && View() == Next(old(View()), Close(writable))
    {
      if writable {
        writeopen := writeopen - 1;
      } else {
        readopen := readopen - 1;
      }
      Wakeup(writable);
    }
  }
}

/** kernel/log.c is the protocol: each call is one of its steps, and the last end_op of a group is
    that step followed by every disk write of the commit. */
module GroupCommit {
  import opened Blocks
  import opened RedoLog
  import opened Log
  import opened LogProtocol

  /** The state after `k` further disk writes. */
  ghost function After(g: Geometry, s: State, k: nat): (r: State)
    requires Inv(g, s) && k <= WritesLeft(s)
    ensures Inv(g, r) && WritesLeft(r) == WritesLeft(s) - k
  {
    if k == 0 then s
    else
      var p := After(g, s, k - 1);
      NextWrite(g, p);
      Advance(g, p)
  }

  lemma NextWrite(g: Geometry, s: State)
    requires Inv(g, s) && WritesLeft(s) > 0
    ensures (s.phase.Appending? || s.phase.Installing?) && Inv(g, Advance(g, s))
            && WritesLeft(Advance(g, s)) == WritesLeft(s) - 1
  {
    hide Word;
    StepKeepsInv(g, CallsBelowBudget, s, DiskWrite);
    CommitGoesOn(g, CallsBelowBudget, s, DiskWrite);
  }

  // ----- the writes of a commit --------------------------------------------

  /** A commit that is about to write its first log block. */
  ghost predicate Starting(g: Geometry, s: State) {
    Inv(g, s) && s.phase == Appending(0) && s.blk != []
  }

  ghost function Sealed(g: Geometry, s: State): Image
    requires Starting(g, s)
  {
    Seal(g, Append(g, s.disk, Overlay(s.disk, s.pinned), s.blk, |s.blk|), s.blk)
  }

  lemma StartingFacts(g: Geometry, s: State)
    requires Starting(g, s)
    ensures g.Valid() && |s.disk| == g.nblocks && Targets(g, s.blk) && s.ops == [] && WritesLeft(s) == 2 * |s.blk| + 2
    ensures |Sealed(g, s)| == g.nblocks
  {
    hide Word;
  }

  lemma AfterNext(g: Geometry, s: State, k: nat)
    requires Inv(g, s) && k < WritesLeft(s)
    ensures var p := After(g, s, k);
      Inv(g, p) && (p.phase.Appending? || p.phase.Installing?) && After(g, s, k + 1) == Advance(g, p)
  {
    hide Inv;
    NextWrite(g, After(g, s, k));
  }

  lemma AdvanceAppends(g: Geometry, p: State, img: Image, view: Image, k: nat)
    requires Inv(g, p) && p.phase == Appending(k) && k < |p.blk| && |img| == |view| == g.nblocks
    requires p.disk == Append(g, img, view, p.blk, k) && Overlay(p.disk, p.pinned)[p.blk[k]] == view[p.blk[k]]
    ensures Advance(g, p) == p.(disk := Append(g, img, view, p.blk, k + 1), phase := Appending(k + 1))
  {
    hide Word, Overlay, Coherent, Reserved, Recoverable, Distinct;
  }

  lemma {:induction false} AfterAppends(g: Geometry, s: State, k: nat)
    requires Starting(g, s) && k <= |s.blk|
    ensures After(g, s, k) == s.(disk := Append(g, s.disk, Overlay(s.disk, s.pinned), s.blk, k), phase := Appending(k))
  {
    hide Inv, Overlay, After, Append, Distinct;
    StartingFacts(g, s);
    if k == 0 {
      AfterNone(g, s);
      AppendNone(g, s.disk, Overlay(s.disk, s.pinned), s.blk);
    } else {
      AfterAppends(g, s, k - 1);
      AfterNext(g, s, k - 1);
      SourceKept(g, s.disk, s.pinned, s.blk, k - 1);
      AdvanceAppends(g, After(g, s, k - 1), s.disk, Overlay(s.disk, s.pinned), k - 1);
    }
  }

  lemma AfterNone(g: Geometry, s: State)
    requires Inv(g, s)
    ensures After(g, s, 0) == s
  {
  }

  lemma AppendNone(g: Geometry, img: Image, view: Image, blk: seq<nat>)
    requires |blk| < g.size && g.start + g.size <= |img| == |view| && forall i :: 0 <= i < |blk| ==> blk[i] < |img|
    ensures Append(g, img, view, blk, 0) == img
  {
  }

  lemma AfterSeal(g: Geometry, s: State)
    requires Starting(g, s)
    ensures After(g, s, |s.blk| + 1) == s.(disk := Sealed(g, s), phase := Installing(0))
  {
    hide Inv, Overlay, Append, After, Distinct, PutHead;
    StartingFacts(g, s);
    AfterAppends(g, s, |s.blk|);
    AfterNext(g, s, |s.blk|);
  }

  lemma AdvanceInstalls(g: Geometry, p: State, img: Image, k: nat)
    requires Inv(g, p) && p.phase == Installing(k) && k < |p.blk| && |img| == g.nblocks
             && p.disk == Install(g, img, p.blk, k)
    ensures var r := Advance(g, p);
      r.disk == Install(g, img, p.blk, k + 1) && r.phase == Installing(k + 1) && r.blk == p.blk && r.ops == p.ops
  {
    hide Word, Coherent, Reserved, Recoverable, Distinct;
  }

  lemma InstallNone(g: Geometry, img: Image, blk: seq<nat>)
    requires |blk| < g.size && g.start + g.size <= |img| && forall i :: 0 <= i < |blk| ==> blk[i] < |img|
    ensures Install(g, img, blk, 0) == img
  {
  }

  lemma {:induction false} AfterInstalls(g: Geometry, s: State, k: nat)
    requires Starting(g, s) && k <= |s.blk|
    ensures var r := After(g, s, |s.blk| + 1 + k);
      r.disk == Install(g, Sealed(g, s), s.blk, k) && r.phase == Installing(k) && r.blk == s.blk && r.ops == []
  {
    hide Inv, Overlay, Append, After, Install, Sealed, Distinct;
    StartingFacts(g, s);
    if k == 0 {
      AfterSeal(g, s);
      InstallNone(g, Sealed(g, s), s.blk);
    } else {
      AfterInstalls(g, s, k - 1);
      AfterNext(g, s, |s.blk| + k);
      AdvanceInstalls(g, After(g, s, |s.blk| + k), Sealed(g, s), k - 1);
    }
  }

  lemma AfterAll(g: Geometry, s: State)
    requires Starting(g, s)
    ensures After(g, s, 2 * |s.blk| + 2) ==
              State(Seal(g, Install(g, Sealed(g, s), s.blk, |s.blk|), []), map[], [], [], Idle)
  {
    hide Inv, Overlay, Append, After, Install, Sealed, PutHead, Distinct;
    StartingFacts(g, s);
    var k := 2 * |s.blk| + 1;
    AfterInstalls(g, s, |s.blk|);
    AfterNext(g, s, k);
    InvErase(g, After(g, s, k));
  }

  /** The images that kernel/log.c leaves are those of the protocol, write by write. */
  lemma CommitIsTheProtocol(g: Geometry, s: State, k: nat)
    requires Starting(g, s) && k < 2 * |s.blk| + 2
    ensures After(g, s, k + 1).disk == CommitImages(g, s.disk, Overlay(s.disk, s.pinned), s.blk)[k]
  {
    hide Inv, Overlay, Append, After, Install, Distinct, PutHead;
    StartingFacts(g, s);
    var n := |s.blk|;
    if k < n {
      AfterAppends(g, s, k + 1);
    } else if k == n {
      AfterSeal(g, s);
    } else if k <= 2 * n {
      AfterInstalls(g, s, k - n);
    } else {
      AfterAll(g, s);
    }
  }

  /** A commit ends with the last image, an empty log and nothing pinned. */
  lemma Finished(g: Geometry, s: State)
    requires Inv(g, s) && s.phase == Appending(0)
    ensures var imgs := CommitImages(g, s.disk, Overlay(s.disk, s.pinned), s.blk);
      After(g, s, WritesLeft(s)) == State(if imgs == [] then s.disk else imgs[|imgs| - 1], map[], [], [], Idle)
  {
    if s.blk == [] {
      NothingWritten(g, s);
    } else {
      hide Inv, Overlay, Append, After, Install, Distinct, PutHead;
      StartingFacts(g, s);
      AfterAll(g, s);
    }
  }

  lemma NothingWritten(g: Geometry, s: State)
    requires Inv(g, s) && s.phase == Appending(0) && s.blk == []
    ensures WritesLeft(s) == 1 && After(g, s, 1) == State(s.disk, map[], [], [], Idle)
  {
    hide Word;
    AfterNone(g, s);
    AfterNext(g, s, 0);
    assert s.pinned.Keys == {};
  }

  // ----- the calls ---------------------------------------------------------

  /** The log with its callers: `ops[i]` counts what the i-th operation in progress has logged. */
  class Callers {
    const log: TransactionLog
    ghost var ops: seq<nat>

    constructor (log: TransactionLog)
      requires log.Valid() && log.n == 0 && log.outstanding == 0 && !log.committing
      ensures this.log == log && ops == [] && Valid()
    {
      this.log := log;
      ops := [];
      new;
      RestingInv(log);
    }

    ghost function View(): State
      requires log.n <= log.block.Length
      reads this, log, log.block
    {
      State(log.disk, log.pinned, log.Entries(), ops, Idle)
    }

    ghost predicate Valid()
      reads this, log, log.block
    {
      log.Valid() && log.outstanding == |ops| && !log.committing && Inv(log.g, View())
    }

    /** begin_op: admitted exactly where the protocol admits it. */
    method Begin(ghost d: Discipline) returns (ok: bool)
      requires Valid()
      modifies this, log
      ensures Valid() && (ok <==> Enabled(log.g, d, old(View()), LogProtocol.Begin))
      ensures View() == if ok then Apply(log.g, d, old(View()), LogProtocol.Begin) else old(View())
    {
      hide Word, Inv;
      ok := log.BeginOp();
      if ok {
        StepKeepsInv(log.g, d, old(View()), LogProtocol.Begin);
        ops := ops + [0];
      }
    }

    /** log_write by an operation that may call it: it panics exactly where the protocol says. */
    method Write(ghost d: Discipline, ghost op: nat, b: nat, data: Block) returns (ok: bool)
      requires Valid() && Calls(log.g, d, View(), op, b)
      modifies this, log, log.block
      ensures Valid() && (ok <==> !TooBig(log.g, old(View())))
      ensures View() == if ok then Apply(log.g, d, old(View()), LogProtocol.Write(op, b, data)) else old(View())
    {
      hide Word, Inv, Overlay;
      ok := log.LogWrite(b, data);
      if ok {
        StepKeepsInv(log.g, d, old(View()), LogProtocol.Write(op, b, data));
        ops := if b in old(log.Entries()) then ops else ops[op := ops[op] + 1];
      }
    }

    /** end_op. All but the last operation just leave; the last one goes through every write of
        the commit, and the disk holds the images of the protocol one after the other. */
    method End(ghost d: Discipline, ghost op: nat)
      requires Valid() && op < |ops|
      modifies this, log
      ensures Valid()
      ensures |old(ops)| > 1 ==> View() == Apply(log.g, d, old(View()), LogProtocol.End(op))
                                 && log.history == old(log.history)
      ensures |old(ops)| == 1 ==>
                var s := Apply(log.g, d, old(View()), LogProtocol.End(op));
                && Inv(log.g, s) && View() == After(log.g, s, WritesLeft(s))
                && log.history == old(log.history) + CommitImages(log.g, s.disk, Overlay(s.disk, s.pinned), s.blk)
    {
      hide Word, Inv, Overlay, After, CommitImages, AllRecoverTo, SameHome;
      StepKeepsInv(log.g, d, View(), LogProtocol.End(op));
      if log.outstanding == 1 {
        LastEnd(Apply(log.g, d, View(), LogProtocol.End(op)));
      } else {
        var _, _ := log.EndOp();
        ops := Remove(ops, op);
      }
    }

    method LastEnd(ghost s: State)
      requires Valid() && |ops| == 1 && s == View().(ops := [], phase := Appending(0)) && Inv(log.g, s)
      modifies this, log
      ensures Valid() && View() == After(log.g, s, WritesLeft(s))
      ensures log.history == old(log.history) + CommitImages(log.g, s.disk, Overlay(s.disk, s.pinned), s.blk)
    {
      hide Word, Inv, Overlay, After, CommitImages, AllRecoverTo, SameHome, Distinct;
      Finished(log.g, s);
      ghost var h0, imgs := log.history, CommitImages(log.g, s.disk, Overlay(s.disk, s.pinned), s.blk);
      ghost var before, after := log.EndOp();
      assert log.history == h0 + imgs by { assert h0 + before + after == h0 + (before + after); }
      ops := [];
      assert View() == State(log.disk, map[], [], [], Idle);
    }
  }

  lemma RestingInv(log: TransactionLog)
    requires log.Valid() && log.n == 0
    ensures Inv(log.g, State(log.disk, log.pinned, log.Entries(), [], Idle))
  {
    hide Word;
    RecoverEmpty(log.g, log.disk);
  }
}

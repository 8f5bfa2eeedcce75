/** kernel/log.c: the in-memory log, its commit and its recovery, one disk write at a time. */
module Log {
  import opened Blocks
  import opened RedoLog

  /** `block[..n]` after `log_write(b)`: an already logged block is absorbed. */
  function Absorb(blk: seq<nat>, b: nat): (r: seq<nat>)
    ensures b in r && forall x :: x in blk ==> x in r
    ensures Distinct(blk) ==> Distinct(r)
    ensures |r| == |blk| <==> b in blk
  {
    if b in blk then blk else blk + [b]
  }

  /** What block_read returns for every block: the pinned buffer, or else the disk. */
  function Overlay(disk: Image, pinned: map<nat, Block>): (v: Image)
    ensures |v| == |disk|
  {
    seq(|disk|, b requires 0 <= b < |disk| => if b in pinned then pinned[b] else disk[b])
  }

  /** Appending to the log does not disturb the blocks still to be appended. */
  lemma SourceKept(g: Geometry, img: Image, pinned: map<nat, Block>, blk: seq<nat>, k: nat)
    requires g.Valid() && |img| == g.nblocks && Targets(g, blk) && k < |blk|
    ensures var view := Overlay(img, pinned);
      Overlay(Append(g, img, view, blk, k), pinned)[blk[k]] == view[blk[k]]
  {
    AppendEffect(g, img, Overlay(img, pinned), blk, k);
  }

  lemma AbsorbTargets(g: Geometry, blk: seq<nat>, b: nat)
    requires Targets(g, blk) && g.Home(b) && |blk| < LOGSIZE && |blk| < g.size - 1
    ensures Targets(g, Absorb(blk, b)) && (set x | x in Absorb(blk, b)) == (set x | x in blk) + {b}
    ensures Absorb(blk, b) == if b in blk then blk else blk + [b]
  {
  }

  lemma OverlayPut(disk: Image, pinned: map<nat, Block>, b: nat, data: Block)
    requires b < |disk|
    ensures Overlay(disk, pinned[b := data]) == Overlay(disk, pinned)[b := data]
  {
  }

  lemma NoImages(g: Geometry, target: Image)
    ensures AllRecoverTo(g, [], target)
  {
  }

  lemma OneMoreImage(g: Geometry, imgs: seq<Image>, img: Image, target: Image)
    requires AllRecoverTo(g, imgs, target) && RecoversTo(g, img, target)
    ensures AllRecoverTo(g, imgs + [img], target)
  {
    hide RecoversTo;
  }

  lemma InstalledRecovers(g: Geometry, img: Image)
    requires Recoverable(g, img)
    ensures Recoverable(g, Recovered(g, img))
  {
    hide Word, Install, Distinct;
    RecoverWhileInstalling(g, img, |HeaderOf(g, img)|);
  }

  lemma StillPinned(pinned: map<nat, Block>, blk: seq<nat>, k: nat)
    requires k < |blk| && forall b :: b in pinned ==> b in blk[k..]
    ensures forall b :: b in pinned - {blk[k]} ==> b in blk[k + 1..]
  {
    assert blk[k..] == [blk[k]] + blk[k + 1..];
  }

  class TransactionLog {
    const g: Geometry
    /** The disk, and every image it has held since power-on: a crash can leave any of them. */
    var disk: Image
    var history: seq<Image>
    /** Buffers that log_write marked B_DIRTY; every other cached buffer equals the disk. */
    var pinned: map<nat, Block>
    /** log.lh.n, log.lh.block, log.outstanding and log.committing */
    var n: nat
    const block: array<nat>
    var outstanding: nat
    var committing: bool

    ghost predicate Shape()
      reads this
    {
      && g.Valid() && |disk| == g.nblocks && block.Length == LOGSIZE && n <= LOGSIZE
      && |history| > 0 && history[|history| - 1] == disk
    }

    ghost function Entries(): seq<nat>
      requires n <= block.Length
      reads this, block
    {
      block[..n]
    }

    /** Outside of commit: the logged blocks are exactly the pinned ones, the header is empty. */
    ghost predicate Valid()
      reads this, block
    {
      && Shape()
      && Targets(g, Entries())
      && Word(disk[g.start], 0) == 0
      && pinned.Keys == (set b | b in Entries())
    }

    constructor (g: Geometry, disk: Image)
      requires g.Valid() && |disk| == g.nblocks
      ensures Shape() && this.g == g && this.disk == disk && history == [disk] && pinned == map[] && n == 0
      ensures outstanding == 0 && !committing && fresh(block)
    {
      this.g := g;
      this.disk := disk;
      history := [disk];
      pinned := map[];
      n := 0;
      outstanding, committing := 0, false;
      block := new nat[LOGSIZE](_ => 0);
    }

    method BlockRead(b: nat) returns (data: Block)
      requires Shape() && b < g.nblocks
      ensures data == Overlay(disk, pinned)[b]
    {
      data := if b in pinned then pinned[b] else disk[b];
    }

    /** block_write: one atomic disk write; the buffer is clean afterwards. */
    method BlockWrite(b: nat, data: Block)
      requires Shape() && b < g.nblocks
      modifies this`disk, this`pinned, this`history
      ensures Shape()
      ensures disk == old(disk)[b := data] && pinned == old(pinned) - {b}
      ensures history == old(history) + [disk]
    {
      disk := disk[b := data];
      pinned := pinned - {b};
      history := history + [disk];
    }

    /** One round of write_log: a cached block goes to the log. */
    method AppendOne(tail: nat)
      requires Shape() && tail < n && block[tail] < g.nblocks && g.start + tail + 1 < g.nblocks
               && g.start + tail + 1 !in pinned
      modifies this`disk, this`pinned, this`history
      ensures Shape() && disk == old(disk)[g.start + tail + 1 := old(Overlay(disk, pinned))[block[tail]]]
      ensures pinned == old(pinned) && history == old(history) + [disk]
    {
      var from := BlockRead(block[tail]);
      BlockWrite(g.start + tail + 1, from);
    }

    /** write_log: a crash at any of its `n` writes leaves the old contents. */
    method WriteLog() returns (ghost images: seq<Image>)
      requires Valid()
      modifies this`disk, this`pinned, this`history
      ensures Shape() && pinned == old(pinned)
      ensures disk == Append(g, old(disk), old(Overlay(disk, pinned)), Entries(), n)
      ensures history == old(history) + images
              && images == AppendImages(g, old(disk), old(Overlay(disk, pinned)), Entries(), n)
      ensures AllRecoverTo(g, images, old(disk))
    {
      hide Word, RecoversTo, Overlay, Distinct;
      ghost var blk, view := Entries(), Overlay(disk, pinned);
      images := [];
      var tail := 0;
      while tail < n
        invariant 0 <= tail <= n && Shape()
        invariant pinned == old(pinned)
        invariant disk == Append(g, old(disk), view, blk, tail)
        invariant history == old(history) + images && images == AppendImages(g, old(disk), view, blk, tail)
        invariant AllRecoverTo(g, images, old(disk))
      {
        SourceKept(g, old(disk), old(pinned), blk, tail);
        AppendOne(tail);
        RecoverWhileAppending(g, old(disk), view, blk, tail + 1);
        images := images + [disk];
        tail := tail + 1;
      }
    }

    /** write_head: one write, which makes `lh` the header on disk. */
    method WriteHead()
      requires Shape() && g.start !in pinned
      modifies this`disk, this`pinned, this`history
      ensures Shape() && pinned == old(pinned)
      ensures disk == Seal(g, old(disk), Entries())
      ensures history == old(history) + [disk]
    {
      hide Word, SetWord;
      ghost var blk := Entries();
      var hb := BlockRead(g.start);
      hb := SetWord(hb, 0, n);
      var i := 0;
      while i < n
        invariant 0 <= i <= n
        invariant hb == PutHead(disk[g.start], blk, i)
      {
        hb := SetWord(hb, i + 1, block[i]);
        i := i + 1;
      }
      BlockWrite(g.start, hb);
    }

    /** One round of install_trans: a log block goes to its home block. */
    method InstallOne(tail: nat)
      requires Shape() && tail < n && g.Home(block[tail]) && g.start + tail + 1 < g.nblocks
               && g.start + tail + 1 !in pinned
      modifies this`disk, this`pinned, this`history
      ensures Shape() && disk == old(disk)[block[tail] := old(disk)[g.start + tail + 1]]
      ensures pinned == old(pinned) - {block[tail]} && history == old(history) + [disk]
    {
      var lbuf := BlockRead(g.start + tail + 1);
      BlockWrite(block[tail], lbuf);
    }

    /** That round, as a step of the replay of `img`. */
    method InstallRound(tail: nat, ghost img: Image, ghost blk: seq<nat>)
      requires Shape() && Recoverable(g, img) && blk == HeaderOf(g, img) && Entries() == blk && tail < n
      requires disk == Install(g, img, blk, tail) && forall b :: b in pinned ==> b in blk[tail..]
      modifies this`disk, this`pinned, this`history
      ensures Shape() && disk == Install(g, img, blk, tail + 1) && forall b :: b in pinned ==> b in blk[tail + 1..]
      ensures history == old(history) + [disk] && RecoversTo(g, disk, Recovered(g, img))
    {
      hide Word, RecoversTo, Distinct;
      RecoverWhileInstalling(g, img, tail + 1);
      assert block[tail] == blk[tail] && g.Home(block[tail]);
      StillPinned(pinned, blk, tail);
      InstallOne(tail);
    }

    /** install_trans: a crash at any of its `n` writes still recovers the transaction. */
    method InstallTrans() returns (ghost images: seq<Image>)
      requires Shape() && Recoverable(g, disk) && Entries() == HeaderOf(g, disk)
      requires forall b :: b in pinned ==> b in Entries()
      modifies this`disk, this`pinned, this`history
      ensures Shape() && pinned == map[]
      ensures disk == Recovered(g, old(disk))
      ensures history == old(history) + images && images == InstallImages(g, old(disk), Entries(), n)
      ensures AllRecoverTo(g, images, Recovered(g, old(disk)))
    {
      hide Word, RecoversTo, Overlay, Distinct, AllRecoverTo;
      NoImages(g, Recovered(g, disk));
      ghost var blk := Entries();
      images := [];
      var tail := 0;
      while tail < n
        invariant 0 <= tail <= n && Shape()
        invariant forall b :: b in pinned ==> b in blk[tail..]
        invariant disk == Install(g, old(disk), blk, tail)
        invariant history == old(history) + images && images == InstallImages(g, old(disk), blk, tail)
        invariant AllRecoverTo(g, images, Recovered(g, old(disk)))
      {
        InstallRound(tail, old(disk), blk);
        OneMoreImage(g, images, disk, Recovered(g, old(disk)));
        images := images + [disk];
        tail := tail + 1;
      }
      assert pinned.Keys == {};
    }

    method ReadHead()
      requires Shape() && Recoverable(g, disk) && g.start !in pinned
      modifies this`n, block
      ensures Shape() && Entries() == HeaderOf(g, disk)
    {
      hide Word;
      var lh := BlockRead(g.start);
      n := Word(lh, 0);
      var i := 0;
      while i < n
        invariant 0 <= i <= n == Word(lh, 0) <= LOGSIZE
        invariant forall j :: 0 <= j < i ==> block[j] == Word(lh, j + 1)
      {
        block[i] := Word(lh, i + 1);
        i := i + 1;
      }
    }

    /** The first half of commit: write_log and then write_head, the commit point. */
    method Persist() returns (ghost before: seq<Image>)
      requires Valid()
      modifies this`disk, this`pinned, this`history
      ensures Shape() && pinned == old(pinned) && (forall b :: b in pinned ==> b in Entries())
      ensures RecoversTo(g, disk, old(Overlay(disk, pinned))) && HeaderOf(g, disk) == Entries()
      ensures history == old(history) + before + [disk]
      ensures before == AppendImages(g, old(disk), old(Overlay(disk, pinned)), Entries(), n)
              && AllRecoverTo(g, before, old(disk))
      ensures disk == Seal(g, Append(g, old(disk), old(Overlay(disk, pinned)), Entries(), n), Entries())
    {
      hide Word;
      ghost var d0, view, blk := disk, Overlay(disk, pinned), Entries();
      before := WriteLog();
      WriteHead();
      RecoverSealed(g, d0, view, blk);
    }

    /** The end of commit and of recover_from_log: a header without entries is written. */
    method Erase()
      requires Shape() && Recoverable(g, disk) && pinned == map[]
      modifies this
      ensures Valid() && n == 0 && outstanding == old(outstanding) && committing == old(committing)
      ensures disk == Seal(g, old(disk), []) && history == old(history) + [disk]
    {
      hide Word;
      n := 0;
      WriteHead();
      assert Entries() == [];
      HeaderRoundTrip(g, old(disk), []);
      assert |HeaderOf(g, disk)| == Word(disk[g.start], 0);
      assert pinned.Keys == {};
    }

    /** commit. The disk goes through the images `before + after`; a crash at one of
        `before` (the `n` log writes) recovers the old contents, a crash at one of
        `after` (from the header write on) recovers the new ones. */
    method Commit() returns (ghost before: seq<Image>, ghost after: seq<Image>)
      requires Valid()
      modifies this
      ensures Valid() && n == 0 && outstanding == old(outstanding) && committing == old(committing)
      ensures SameHome(g, disk, old(Overlay(disk, pinned)))
      ensures history == old(history) + before + after && pinned == map[]
      ensures |before| == old(n) && |after| == (if old(n) == 0 then 0 else old(n) + 2)
      ensures before + after == CommitImages(g, old(disk), old(Overlay(disk, pinned)), old(Entries()))
      ensures AllRecoverTo(g, before, old(disk))
      ensures AllRecoverTo(g, after, old(Overlay(disk, pinned)))
    {
      hide Word, RecoversTo, Overlay, Append, Install, AppendImages, InstallImages, PutHead, Distinct, AllRecoverTo;
      ghost var view := Overlay(disk, pinned);
      if n == 0 {
        NothingToCommit(g, disk, pinned);
        return [], [];
      }
      ghost var d0, blk := disk, Entries();
      before := Persist();
      ghost var sealed := disk;
      ghost var installs := InstallTrans();
      AfterCommitPoint(g, sealed, installs, view);
      Erase();
      after := [sealed] + installs + [disk];
      Reassociate(old(history), before, sealed, installs, disk);
      Reassociate([], before, sealed, installs, disk);
      assert [] + before == before;
    }

    /** recover_from_log completes a committed transaction, and a crash at any of its
        writes leaves an image from which recovery reaches the same contents. */
    method RecoverFromLog() returns (ghost images: seq<Image>)
      requires Shape() && Recoverable(g, disk) && pinned == map[]
      modifies this, block
      ensures Valid() && n == 0 && outstanding == old(outstanding) && committing == old(committing)
      ensures SameHome(g, disk, Recovered(g, old(disk)))
      ensures history == old(history) + images
      ensures AllRecoverTo(g, images, Recovered(g, old(disk)))
    {
      hide Word, RecoversTo, AllRecoverTo, Install, Overlay, Distinct, PutHead;
      ghost var d0 := disk;
      ReadHead();
      images := InstallTrans();
      InstalledRecovers(g, d0);
      Erase();
      RecoverErased(g, d0);
      OneMoreImage(g, images, disk, Recovered(g, d0));
      images := images + [disk];
    }

    /** The search loop of log_write. */
    method FindEntry(b: nat) returns (i: nat)
      requires Shape()
      ensures i <= n && b !in block[..i] && (i < n ==> block[i] == b)
    {
      i := 0;
      while i < n && block[i] != b
        invariant 0 <= i <= n
        invariant b !in block[..i]
      {
        i := i + 1;
      }
    }

    /** The entry for block `b`, new or absorbed. */
    method AddEntry(b: nat)
      requires Shape() && n < LOGSIZE
      modifies this`n, block
      ensures Shape() && Entries() == Absorb(old(Entries()), b)
    {
      ghost var blk := Entries();
      var i := FindEntry(b);
      block[i] := b;
      if i == n {
        n := n + 1;
        assert block[..n] == blk + [b];
      } else {
        assert block[..n] == blk && b in blk;
      }
    }

    /** log_write; `ok` is false where the source panics. */
    method LogWrite(b: nat, data: Block) returns (ok: bool)
      requires Valid() && g.Home(b)
      modifies this, block
      ensures ok <==> old(n) < LOGSIZE && old(n) < g.size - 1 && outstanding >= 1
      ensures Valid() && disk == old(disk) && history == old(history) && outstanding == old(outstanding)
              && committing == old(committing)
      ensures !ok ==> pinned == old(pinned) && Entries() == old(Entries())
      ensures ok ==> Entries() == Absorb(old(Entries()), b) && pinned == old(pinned)[b := data]
      ensures ok ==> Overlay(disk, pinned) == old(Overlay(disk, pinned))[b := data]
    {
      hide Word, Overlay, Targets, Absorb;
      if n >= LOGSIZE || n >= g.size - 1 || outstanding < 1 {
        return false;
      }
      ghost var blk := Entries();
      AddEntry(b);
      AbsorbTargets(g, blk, b);
      OverlayPut(disk, pinned, b, data);
      pinned := pinned[b := data];
      ok := true;
      assert pinned.Keys == old(pinned.Keys) + {b};
    }

    /** begin_op, one pass of its loop: `ok` is false where the source sleeps. */
    method BeginOp() returns (ok: bool)
      requires Valid()
      modifies this`outstanding
      ensures Valid() && outstanding == old(outstanding) + (if ok then 1 else 0)
      ensures ok <==> !committing && n + (old(outstanding) + 1) * MAXOPBLOCKS <= LOGSIZE
    {
      if committing || n + (outstanding + 1) * MAXOPBLOCKS > LOGSIZE {
        return false;
      }
      outstanding := outstanding + 1;
      ok := true;
    }

    /** end_op: the last operation commits, and until then nothing reaches the disk. */
    method EndOp() returns (ghost before: seq<Image>, ghost after: seq<Image>)
      requires Valid() && outstanding > 0 && !committing
      modifies this
      ensures Valid() && outstanding == old(outstanding) - 1 && !committing
      ensures outstanding > 0 ==> disk == old(disk) && pinned == old(pinned) && Entries() == old(Entries())
                                  && history == old(history)
      ensures outstanding == 0 ==> n == 0 && SameHome(g, disk, old(Overlay(disk, pinned)))
      ensures outstanding == 0 ==> history == old(history) + before + after && |before| == old(n) && pinned == map[]
      ensures outstanding == 0 ==>
                before + after == CommitImages(g, old(disk), old(Overlay(disk, pinned)), old(Entries()))
      ensures outstanding == 0 ==> AllRecoverTo(g, before, old(disk))
                                   && AllRecoverTo(g, after, old(Overlay(disk, pinned)))
    {
      hide Word, RecoversTo, Overlay, CommitImages, AllRecoverTo, Distinct;
      before, after := [], [];
      outstanding := outstanding - 1;
      if outstanding == 0 {
        committing := true;
        before, after := Commit();
        committing := false;
      }
    }
  }

  lemma NothingToCommit(g: Geometry, disk: Image, pinned: map<nat, Block>)
    requires g.Valid() && |disk| == g.nblocks && pinned.Keys == {}
    ensures Overlay(disk, pinned) == disk && pinned == map[] && SameHome(g, disk, disk)
    ensures AllRecoverTo(g, [], disk) && CommitImages(g, disk, disk, []) == []
  {
  }

  lemma Reassociate(h: seq<Image>, a: seq<Image>, x: Image, b: seq<Image>, y: Image)
    ensures h + a + [x] + b + [y] == h + a + ([x] + b + [y])
  {
  }

  lemma AfterCommitPoint(g: Geometry, sealed: Image, installs: seq<Image>, view: Image)
    requires RecoversTo(g, sealed, view)
    requires AllRecoverTo(g, installs, Recovered(g, sealed))
    ensures Recoverable(g, Recovered(g, sealed))
    ensures var done := Seal(g, Recovered(g, sealed), []);
            AllRecoverTo(g, [sealed] + installs + [done], view) && SameHome(g, done, view)
  {
    hide Word;
    var done := Seal(g, Recovered(g, sealed), []);
    RecoverWhileInstalling(g, sealed, |HeaderOf(g, sealed)|);
    RecoverErased(g, sealed);
    forall i | 0 <= i < |installs|
      ensures RecoversTo(g, installs[i], view)
    {
      assert RecoversTo(g, installs[i], Recovered(g, sealed));
    }
    assert RecoversTo(g, done, view);
  }
}

/** kernel/fs.c over kernel/log.c: every file operation is a transaction of the log, and a
    crash at any moment of a run leaves the files as some prefix of the run made them. */
module Journal {
  import opened Arithmetic
  import opened Blocks
  import opened Bitmap
  import opened BlockTree
  import opened FileShape
  import opened FileContents
  import opened FileSystem
  import opened InodeBlocks
  import opened RedoLog
  import opened Log
  import opened File

  // ----- the layout of the disk --------------------------------------------

  /** Bitmap, inode blocks and log lie apart from each other, ahead of the data blocks. */
  ghost predicate Regions(d: Disk, m: Media, g: Geometry) {
    && g.Valid() && g.nblocks == d.nblocks == |m.blocks|
    && d.first <= d.nblocks && g.start + g.size <= d.first
    && d.bmapstart + |m.bitmap| <= d.first && d.inodestart + |m.iblocks| <= d.first
    && (d.bmapstart + |m.bitmap| <= d.inodestart || d.inodestart + |m.iblocks| <= d.bmapstart)
    && (d.bmapstart + |m.bitmap| <= g.start || g.start + g.size <= d.bmapstart)
    && (d.inodestart + |m.iblocks| <= g.start || g.start + g.size <= d.inodestart)
  }

  /** Block `x` of a disk that holds `m`. */
  function At(d: Disk, m: Media, x: nat): (b: Block)
    requires x < |m.blocks|
  {
    if d.bmapstart <= x < d.bmapstart + |m.bitmap| then m.bitmap[x - d.bmapstart]
    else if d.inodestart <= x < d.inodestart + |m.iblocks| then m.iblocks[x - d.inodestart]
    else m.blocks[x]
  }

  ghost function Laid(d: Disk, m: Media): (img: Image)
    ensures |img| == |m.blocks| && forall x :: 0 <= x < |img| ==> img[x] == At(d, m, x)
  {
    seq(|m.blocks|, x requires 0 <= x < |m.blocks| => At(d, m, x))
  }

  /** The file system that a machine finds on a disk that holds `m`. */
  ghost function Found(d: Disk, m: Media, ninodes: nat): (fs: Fs)
    requires d.nblocks <= |m.bitmap| * BPB && ninodes <= |m.iblocks| * IPB
  {
    Fs(Marks(m.bitmap, d.nblocks), m.blocks, Dinodes(m.iblocks, ninodes))
  }

  /** That file system is sound, and its files hold the byte strings `f`. */
  ghost predicate Sound(d: Disk, m: Media, f: seq<seq<Byte>>) {
    && d.nblocks <= |m.bitmap| * BPB && |f| <= |m.iblocks| * IPB
    && NoHoles(Found(d, m, |f|)) && Files(Found(d, m, |f|)) == f
    && exists owner :: Owned(Found(d, m, |f|), d.first, owner)
  }

  predicate SameShape(a: Media, b: Media) {
    |a.bitmap| == |b.bitmap| && |a.blocks| == |b.blocks| && |a.iblocks| == |b.iblocks|
  }

  lemma NowSound(d: Disk)
    requires d.Consistent()
    ensures Sound(d, d.OnDisk(), Files(d.State()))
  {
    hide Marks, Owned, NoHoles, Contents, Dinodes;
    var f := Files(d.State());
    assert Found(d, d.OnDisk(), |f|) == d.State();
  }

  /** A block that was not logged is where and what it was. */
  lemma Unlogged(d: Disk, m: Media, m': Media, l: set<nat>, g: Geometry, x: nat)
    requires Regions(d, m, g) && d.Journaled(m, m', {}, l) && g.Home(x) && x !in l
    ensures Laid(d, m')[x] == Laid(d, m)[x]
  {
  }

  /** Only home blocks are ever logged. */
  lemma RegionsFacts(d: Disk, m: Media, g: Geometry, l: set<nat>)
    requires Regions(d, m, g) && forall x :: x in l ==> d.Place(m, x)
    ensures g.nblocks == d.nblocks == |m.blocks| && forall x :: x in l ==> g.Home(x)
  {
  }

  // ----- one transaction ---------------------------------------------------

  /** How many blocks a transaction may log. */
  function Capacity(g: Geometry): (n: int) {
    if g.size <= LOGSIZE then g.size - 1 else LOGSIZE
  }

  lemma TargetsFit(g: Geometry, blk: seq<nat>)
    requires Targets(g, blk)
    ensures |blk| <= Capacity(g)
  {
  }

  /** The log between two transactions, over the disk that holds the file system. */
  ghost predicate Mounted(d: Disk, log: TransactionLog)
    reads d, log, log.block
  {
    && d.Consistent() && log.Valid() && log.n == 0 && log.outstanding == 0 && !log.committing
    && Regions(d, d.OnDisk(), log.g) && SameHome(log.g, log.disk, Laid(d, d.OnDisk()))
  }

  /** What block_read returns once the blocks in `done` have been logged. */
  ghost predicate LoggedSoFar(d: Disk, m: Media, g: Geometry, before: Image, now: Image, done: set<nat>) {
    && |before| == |now| == g.nblocks == |m.blocks|
    && forall x: nat :: g.Home(x) ==> now[x] == if x in done then At(d, m, x) else before[x]
  }

  lemma LoggedNone(d: Disk, m: Media, g: Geometry, v: Image)
    requires |v| == g.nblocks == |m.blocks|
    ensures LoggedSoFar(d, m, g, v, v, {})
  {
  }

  lemma LoggedOne(d: Disk, m: Media, g: Geometry, v0: Image, v: Image, done: set<nat>, x: nat)
    requires LoggedSoFar(d, m, g, v0, v, done) && g.Home(x)
    ensures x < |m.blocks| && LoggedSoFar(d, m, g, v0, v[x := At(d, m, x)], done + {x})
  {
    hide At;
  }

  /** One log_write call, with the final contents of the block; `ok` is false where the source
      panics because the log is full. */
  method LogOne(d: Disk, log: TransactionLog, x: nat, ghost v0: Image, ghost done: set<nat>) returns (ok: bool)
    requires log.Valid() && |d.blocks| == log.g.nblocks && log.outstanding >= 1 && !log.committing && log.g.Home(x)
             && x !in log.Entries()
    requires LoggedSoFar(d, d.OnDisk(), log.g, v0, Overlay(log.disk, log.pinned), done)
    modifies log, log.block
    ensures log.Valid() && log.disk == old(log.disk) && log.history == old(log.history)
            && log.outstanding == old(log.outstanding) && !log.committing
    ensures ok <==> old(log.n) < Capacity(log.g)
    ensures ok ==> log.Entries() == old(log.Entries()) + [x]
    ensures ok ==> LoggedSoFar(d, d.OnDisk(), log.g, v0, Overlay(log.disk, log.pinned), done + {x})
  {
    hide Overlay, Targets, LoggedSoFar, At, Word;
    LoggedOne(d, d.OnDisk(), log.g, v0, Overlay(log.disk, log.pinned), done, x);
    ok := log.LogWrite(x, At(d, Media(d.bitmap, d.blocks, d.iblocks), x));
  }

  lemma OneLess(all: set<nat>, todo: set<nat>, x: nat)
    requires x in todo && todo <= all
    ensures todo - {x} <= all && |todo - {x}| == |todo| - 1 && all - (todo - {x}) == (all - todo) + {x}
  {
  }

  /** The log_write calls of an operation. */
  method LogAll(d: Disk, log: TransactionLog) returns (ok: bool)
    requires log.Valid() && Regions(d, d.OnDisk(), log.g) && log.n == 0 && log.outstanding >= 1 && !log.committing
    requires forall x :: x in d.logged ==> d.Place(d.OnDisk(), x)
    modifies log, log.block
    ensures log.Valid() && log.disk == old(log.disk) && log.history == old(log.history)
            && log.outstanding == old(log.outstanding) && !log.committing
    ensures ok <==> |d.logged| <= Capacity(log.g)
    ensures ok ==> LoggedSoFar(d, d.OnDisk(), log.g, old(Overlay(log.disk, log.pinned)),
                               Overlay(log.disk, log.pinned), d.logged)
  {
    hide Overlay, Targets, Disk.Place, LoggedSoFar, At, Regions, Word, Capacity;
    assert log.g.nblocks == d.nblocks == |d.blocks| && (forall x :: x in d.logged ==> log.g.Home(x)) by {
      RegionsFacts(d, d.OnDisk(), log.g, d.logged);
    }
    var todo := d.logged;
    ghost var m, v0 := d.OnDisk(), Overlay(log.disk, log.pinned);
    LoggedNone(d, m, log.g, v0);
    assert d.logged - todo == {};
    while todo != {}
      invariant todo <= d.logged
      invariant log.Valid() && log.disk == old(log.disk) && log.history == old(log.history)
                && log.outstanding == old(log.outstanding) && !log.committing
      invariant log.n + |todo| == |d.logged| && forall b :: b in todo ==> b !in log.Entries()
      invariant LoggedSoFar(d, m, log.g, v0, Overlay(log.disk, log.pinned), d.logged - todo)
      decreases |todo|
    {
      var x :| x in todo;
      ok := LogOne(d, log, x, v0, d.logged - todo);
      if !ok {
        return;
      }
      OneLess(d.logged, todo, x);
      todo := todo - {x};
    }
    assert d.logged - {} == d.logged;
    TargetsFit(log.g, log.Entries());
    ok := true;
  }

  /** Operations in progress at once: as many as begin_op admits to an empty log. */
  predicate Admitted(group: seq<Op>) {
    1 <= |group| <= LOGSIZE / MAXOPBLOCKS
  }

  /** A group of operations whose transaction is sure to fit the log. */
  predicate Fitting(group: seq<Op>, nbitmap: nat, g: Geometry) {
    (forall op :: op in group ==> Small(op)) && LogBudgets(group, nbitmap) <= Capacity(g)
  }

  /** The files fit the disk all along the group. */
  ghost predicate Roomy(f: seq<seq<Byte>>, group: seq<Op>, capacity: int)
    requires forall op :: op in group ==> op.ino < |f|
  {
    forall i :: 0 <= i <= |group| ==> Needed(ApplyAll(f, group[..i])) <= capacity
  }

  /** What the log holds at the end of the operation is the disk after the operation. */
  lemma Complete(d: Disk, m: Media, m': Media, l: set<nat>, g: Geometry, v: Image, v': Image)
    requires Regions(d, m, g) && d.Journaled(m, m', {}, l) && SameHome(g, v, Laid(d, m))
             && LoggedSoFar(d, m', g, v, v', l)
    ensures Regions(d, m', g) && SameHome(g, v', Laid(d, m'))
  {
    hide Disk.Journaled, At;
    assert |m'.bitmap| == |m.bitmap| && |m'.iblocks| == |m.iblocks| && |m'.blocks| == |m.blocks| by {
      SameSizes(d, m, m', l);
    }
    forall x: nat | g.Home(x) ensures v'[x] == Laid(d, m')[x] {
      if x !in l { Unlogged(d, m, m', l, g, x); }
    }
  }

  lemma SameSizes(d: Disk, m: Media, m': Media, l: set<nat>)
    requires d.Journaled(m, m', {}, l)
    ensures |m'.bitmap| == |m.bitmap| && |m'.iblocks| == |m.iblocks| && |m'.blocks| == |m.blocks|
    ensures forall x :: x in l ==> d.Place(m', x)
  {
  }

  lemma SameTarget(g: Geometry, imgs: seq<Image>, a: Image, b: Image)
    requires AllRecoverTo(g, imgs, a) && SameHome(g, a, b)
    ensures AllRecoverTo(g, imgs, b)
  {
    hide Recoverable, Recovered;
    forall i | 0 <= i < |imgs| ensures RecoversTo(g, imgs[i], b) {
      assert RecoversTo(g, imgs[i], a);
    }
  }

  /** Every operation of the group calls begin_op. */
  method BeginAll(log: TransactionLog, n: nat)
    requires log.Valid() && log.n == 0 && log.outstanding == 0 && !log.committing && n <= LOGSIZE / MAXOPBLOCKS
    modifies log`outstanding
    ensures log.Valid() && log.outstanding == n
  {
    hide Word, Targets;
    for i := 0 to n
      invariant log.Valid() && log.n == 0 && log.outstanding == i && !log.committing
    {
      var _ := log.BeginOp();
    }
  }

  /** Every operation of the group calls end_op, and the last one commits. */
  method EndAll(log: TransactionLog, n: nat) returns (ghost before: seq<Image>, ghost after: seq<Image>)
    requires log.Valid() && log.outstanding == n >= 1 && !log.committing
    modifies log
    ensures log.Valid() && log.outstanding == 0 && !log.committing && log.n == 0
    ensures SameHome(log.g, log.disk, old(Overlay(log.disk, log.pinned)))
            && log.history == old(log.history) + before + after
    ensures AllRecoverTo(log.g, before, old(log.disk)) && AllRecoverTo(log.g, after, old(Overlay(log.disk, log.pinned)))
  {
    hide Word, Targets, Overlay, SameHome, AllRecoverTo, CommitImages;
    for i := 1 to n
      invariant log.Valid() && log.outstanding == n - i + 1 && !log.committing
      invariant log.disk == old(log.disk) && log.pinned == old(log.pinned) && log.history == old(log.history)
    {
      var _, _ := log.EndOp();
    }
    before, after := log.EndOp();
  }

  /** A group of operations that begin before any of them ends, as one transaction: a crash at
      one of `before` finds the files as they were, a crash at one of `after` finds the whole
      group done. `ok` is false where the source panics, with nothing on the disk changed. */
  method Transact(d: Disk, log: TransactionLog, group: seq<Op>)
    returns (ok: bool, ghost before: seq<Image>, ghost after: seq<Image>)
    requires Mounted(d, log) && Admitted(group) && forall op :: op in group ==> op.ino < |d.inodes|
    modifies d, log, log.block
    ensures log.history == old(log.history) + before + after
    ensures ok ==> Mounted(d, log) && |d.inodes| == |old(d.inodes)| && SameShape(d.OnDisk(), old(d.OnDisk()))
    ensures !ok ==> log.disk == old(log.disk)
    ensures ok ==> Files(d.State()) == ApplyAll(old(Files(d.State())), group)
    ensures ok ==> AllRecoverTo(log.g, before, old(Laid(d, d.OnDisk())))
                   && AllRecoverTo(log.g, after, Laid(d, d.OnDisk()))
    ensures !ok ==> before == after == []
    ensures ok <==> Roomy(old(Files(d.State())), group, d.nblocks - d.first) && |d.logged| <= Capacity(log.g)
    ensures Roomy(old(Files(d.State())), group, d.nblocks - d.first) && Fitting(group, |old(d.bitmap)|, log.g) ==> ok
  {
    hide Marks, Owned, NoHoles, Contents, Dinodes, Needed, ApplyAll, Laid, Regions, LoggedSoFar, Overlay,
         Disk.Journaled, AllRecoverTo;
    hide Word, Targets, Capacity, LogBudgets;
    before, after := [], [];
    ghost var m, v := d.OnDisk(), log.disk;
    NothingPinned(log.disk, log.pinned);
    BeginAll(log, |group|);
    d.logged := {};
    ok := Run(d, group);
    if !ok {
      return;
    }
    SameSizes(d, m, d.OnDisk(), d.logged);
    StillRegions(d, m, d.OnDisk(), log.g);
    ok := LogAll(d, log);
    if !ok {
      return;
    }
    ghost var v' := Overlay(log.disk, log.pinned);
    Complete(d, m, d.OnDisk(), d.logged, log.g, v, v');
    before, after := EndAll(log, |group|);
    SameTarget(log.g, before, v, Laid(d, m));
    SameTarget(log.g, after, v', Laid(d, d.OnDisk()));
  }

  lemma NothingPinned(img: Image, pinned: map<nat, Block>)
    requires pinned.Keys == {}
    ensures Overlay(img, pinned) == img
  {
  }

  lemma StillRegions(d: Disk, m: Media, m': Media, g: Geometry)
    requires Regions(d, m, g) && |m'.bitmap| == |m.bitmap| && |m'.iblocks| == |m.iblocks| && |m'.blocks| == |m.blocks|
    ensures Regions(d, m', g)
  {
  }

  // ----- whole runs --------------------------------------------------------

  ghost predicate InRange(groups: seq<seq<Op>>, n: nat) {
    forall i, op :: 0 <= i < |groups| && op in groups[i] ==> op.ino < n
  }

  /** What groups of operations, one after the other, mean on byte strings. */
  ghost function ApplyGroups(f: seq<seq<Byte>>, groups: seq<seq<Op>>): (r: seq<seq<Byte>>)
    requires InRange(groups, |f|)
    ensures |r| == |f|
  {
    if |groups| == 0 then f else ApplyAll(ApplyGroups(f, groups[..|groups| - 1]), groups[|groups| - 1])
  }

  lemma NextGroup(f: seq<seq<Byte>>, groups: seq<seq<Op>>, i: nat)
    requires InRange(groups, |f|) && i < |groups|
    ensures ApplyGroups(f, groups[..i + 1]) == ApplyAll(ApplyGroups(f, groups[..i]), groups[i])
  {
    assert groups[..i + 1][..i] == groups[..i] && groups[..i + 1][i] == groups[i];
  }

  lemma NoGroups(f: seq<seq<Byte>>, groups: seq<seq<Op>>)
    requires InRange(groups, |f|)
    ensures ApplyGroups(f, groups[..0]) == f && groups[..|groups|] == groups
  {
  }

  /** Group `i` of the run finds room on the disk. */
  ghost predicate RoomyAt(d: Disk, f: seq<seq<Byte>>, groups: seq<seq<Op>>, i: nat)
    requires InRange(groups, |f|) && i < |groups|
  {
    Roomy(ApplyGroups(f, groups[..i]), groups[i], d.nblocks - d.first)
  }

  /** `m` is sound and holds what the first `k` groups make of the files `f`. */
  ghost predicate MadeBy(d: Disk, f: seq<seq<Byte>>, groups: seq<seq<Op>>, m: Media, k: nat)
    requires InRange(groups, |f|)
  {
    k <= |groups| && Sound(d, m, ApplyGroups(f, groups[..k]))
  }

  ghost predicate Prefixes(d: Disk, f: seq<seq<Byte>>, groups: seq<seq<Op>>, states: seq<Media>)
    requires InRange(groups, |f|)
  {
    1 <= |states| <= |groups| + 1 && forall k :: 0 <= k < |states| ==> MadeBy(d, f, groups, states[k], k)
  }

  /** Recovery from `img` ends with the home blocks of the `k`-th state. */
  ghost predicate LeadsTo(d: Disk, g: Geometry, img: Image, states: seq<Media>, k: nat) {
    k < |states| && RecoversTo(g, img, Laid(d, states[k]))
  }

  /** Image `j` recovers to state `when[j]`, and nothing durable is lost again. */
  ghost predicate Durable(d: Disk, g: Geometry, imgs: seq<Image>, states: seq<Media>, when: seq<nat>) {
    && |when| == |imgs|
    && (forall j :: 0 <= j < |imgs| ==> LeadsTo(d, g, imgs[j], states, when[j]))
    && (forall i, j :: 0 <= i < j < |when| ==> when[i] <= when[j])
  }

  lemma MoreImages(d: Disk, g: Geometry, imgs: seq<Image>, states: seq<Media>, when: seq<nat>, more: seq<Image>, k: nat)
    requires Durable(d, g, imgs, states, when) && k + 1 == |states| && AllRecoverTo(g, more, Laid(d, states[k]))
    ensures Durable(d, g, imgs + more, states, when + seq(|more|, _ => k))
  {
    hide Laid, RecoversTo;
    var imgs', when' := imgs + more, when + seq(|more|, _ => k);
    forall j | 0 <= j < |imgs'| ensures LeadsTo(d, g, imgs'[j], states, when'[j]) {
      if j < |imgs| {
        assert LeadsTo(d, g, imgs[j], states, when[j]);
      } else {
        assert RecoversTo(g, more[j - |imgs|], Laid(d, states[k]));
      }
    }
    forall i, j | 0 <= i < j < |when'| ensures when'[i] <= when'[j] {
      if i < |imgs| { assert LeadsTo(d, g, imgs[i], states, when[i]); }
    }
  }

  lemma MoreStates(d: Disk, g: Geometry, imgs: seq<Image>, states: seq<Media>, when: seq<nat>, m: Media)
    requires Durable(d, g, imgs, states, when)
    ensures Durable(d, g, imgs, states + [m], when)
  {
    hide Laid, RecoversTo;
    forall j | 0 <= j < |imgs| ensures LeadsTo(d, g, imgs[j], states + [m], when[j]) {
      assert LeadsTo(d, g, imgs[j], states, when[j]);
    }
  }

  /** `when`, continued over one more transaction. */
  ghost function Continue(when: seq<nat>, k: nat, nbefore: nat, nafter: nat): (r: seq<nat>) {
    when + seq(nbefore, _ => k) + seq(nafter, _ => k + 1)
  }

  lemma OneMoreTransaction(d: Disk, g: Geometry, imgs: seq<Image>, states: seq<Media>, when: seq<nat>,
                           before: seq<Image>, after: seq<Image>, m: Media)
    requires Durable(d, g, imgs, states, when) && |states| > 0
    requires AllRecoverTo(g, before, Laid(d, states[|states| - 1])) && AllRecoverTo(g, after, Laid(d, m))
    ensures Durable(d, g, imgs + before + after, states + [m], Continue(when, |states| - 1, |before|, |after|))
  {
    hide Laid, Durable, AllRecoverTo;
    var k, imgs' := |states| - 1, imgs + before;
    var when' := when + seq(|before|, _ => k);
    MoreImages(d, g, imgs, states, when, before, k);
    MoreStates(d, g, imgs', states, when', m);
    MoreImages(d, g, imgs', states + [m], when', after, k + 1);
  }

  lemma NextPrefix(d: Disk, f: seq<seq<Byte>>, groups: seq<seq<Op>>, states: seq<Media>, m: Media)
    requires InRange(groups, |f|)
    requires Prefixes(d, f, groups, states) && |states| <= |groups| && MadeBy(d, f, groups, m, |states|)
    ensures Prefixes(d, f, groups, states + [m])
  {
    hide MadeBy;
  }

  /** Every run of writes, truncations and reads over the log, in groups that commit together.
      Whatever image of the disk a crash leaves, recovery finds a sound file system whose files
      are what some prefix of the groups made of them, and later crashes never find a shorter
      prefix. The run gets to its end if its transactions fit the log and its files fit the disk;
      if not, everything before the first group that does not fit is done and durable. */
  method RunDurably(d: Disk, log: TransactionLog, groups: seq<seq<Op>>)
    returns (ok: bool, ghost states: seq<Media>, ghost when: seq<nat>)
    requires Mounted(d, log) && InRange(groups, |d.inodes|) && forall i :: 0 <= i < |groups| ==> Admitted(groups[i])
    modifies d, log, log.block
    ensures |log.history| >= |old(log.history)| && log.history[..|old(log.history)|] == old(log.history)
    ensures Prefixes(d, old(Files(d.State())), groups, states)
    ensures Durable(d, log.g, log.history[|old(log.history)|..], states, when)
    ensures states[0] == old(d.OnDisk()) && forall k :: 0 <= k < |states| ==> SameShape(states[k], states[0])
    ensures LeadsTo(d, log.g, log.disk, states, |states| - 1)
    ensures ok ==> Mounted(d, log) && |states| == |groups| + 1 && states[|groups|] == d.OnDisk()
    ensures ok ==> Files(d.State()) == ApplyGroups(old(Files(d.State())), groups)
    ensures forall i :: 0 <= i < |states| - 1 ==> RoomyAt(d, old(Files(d.State())), groups, i)
    ensures !ok ==> |states| <= |groups|
    ensures !ok ==> !Fitting(groups[|states| - 1], |old(d.bitmap)|, log.g)
                    || !RoomyAt(d, old(Files(d.State())), groups, |states| - 1)
  {
    hide Marks, Owned, NoHoles, Contents, Dinodes, ApplyAll, ApplyGroups, Laid, Regions, Sound, Durable, Prefixes,
         RecoversTo;
    hide Fitting, Roomy, Admitted, Word;
    ghost var f, h0 := Files(d.State()), log.history;
    states, when := [d.OnDisk()], [];
    ghost var imgs: seq<Image> := [];
    NowSound(d);
    NoGroups(f, groups);
    StartDurable(d, log.g, f, groups, d.OnDisk());
    var i := 0;
    while i < |groups|
      invariant 0 <= i <= |groups| && Mounted(d, log) && |d.inodes| == |f|
      invariant forall k :: 0 <= k < |states| ==> SameShape(states[k], states[0])
      invariant Files(d.State()) == ApplyGroups(f, groups[..i])
      invariant log.history == h0 + imgs && |states| == i + 1 && states[0] == old(d.OnDisk()) && states[i] == d.OnDisk()
      invariant Prefixes(d, f, groups, states) && Durable(d, log.g, imgs, states, when)
      invariant forall j :: 0 <= j < i ==> RoomyAt(d, f, groups, j)
    {
      NextGroup(f, groups, i);
      ghost var before, after;
      MountedRecovers(d, log, states);
      ok, before, after := Transact(d, log, groups[i]);
      if !ok {
        assert log.history == h0 + imgs;
        return;
      }
      NowSound(d);
      NextPrefix(d, f, groups, states, d.OnDisk());
      OneMoreTransaction(d, log.g, imgs, states, when, before, after, d.OnDisk());
      when := Continue(when, i, |before|, |after|);
      states, imgs := states + [d.OnDisk()], imgs + before + after;
      i := i + 1;
    }
    MountedRecovers(d, log, states);
    ok := true;
  }

  /** The disk at rest recovers to what it holds. */
  lemma MountedRecovers(d: Disk, log: TransactionLog, states: seq<Media>)
    requires Mounted(d, log) && |states| > 0 && states[|states| - 1] == d.OnDisk()
    ensures LeadsTo(d, log.g, log.disk, states, |states| - 1)
  {
    hide Word, Laid, Disk.Consistent;
    RecoverEmpty(log.g, log.disk);
  }

  lemma StartDurable(d: Disk, g: Geometry, f: seq<seq<Byte>>, groups: seq<seq<Op>>, m: Media)
    requires Sound(d, m, f) && InRange(groups, |f|)
    ensures Prefixes(d, f, groups, [m]) && Durable(d, g, [], [m], [])
  {
    hide Sound, Laid, RecoversTo;
    NoGroups(f, groups);
  }

  // ----- a long write ------------------------------------------------------

  /** The transactions of one vfs_write. */
  function Chunks(ino: nat, off: int, src: seq<Byte>): (ops: seq<Op>)
    ensures |ops| == (|src| + CHUNK - 1) / CHUNK && forall op :: op in ops ==> op.ino == ino
  {
    seq((|src| + CHUNK - 1) / CHUNK, k requires 0 <= k < (|src| + CHUNK - 1) / CHUNK =>
      WriteAt(ino, off + k * CHUNK, src[k * CHUNK..Min((k + 1) * CHUNK, |src|)]))
  }

  /** Cut short after `k` transactions, a write has written its first `k` chunks. */
  lemma {:induction false} ChunkedWrite(f: seq<seq<Byte>>, ino: nat, off: nat, src: seq<Byte>, k: nat)
    requires ino < |f| && off <= |f[ino]| && off + |src| <= MAXBYTES && k <= (|src| + CHUNK - 1) / CHUNK
    ensures forall op :: op in Chunks(ino, off, src)[..k] ==> op.ino < |f|
    ensures ApplyAll(f, Chunks(ino, off, src)[..k]) == f[ino := Splice(f[ino], off, src[..Min(k * CHUNK, |src|)])]
  {
    hide Splice, Chunks, ApplyAll;
    var ops := Chunks(ino, off, src);
    if k == 0 {
      assert ops[..0] == [] && src[..0] == [];
      ApplyNone(f);
      SpliceNothing(f[ino], off);
    } else {
      ChunkedWrite(f, ino, off, src, k - 1);
      var a, b := (k - 1) * CHUNK, Min(k * CHUNK, |src|);
      ApplyLast(f, ops, k);
      ChunkAt(ino, off, src, k - 1);
      SpliceSplice(f[ino], off, src[..a], src[a..b]);
      assert src[..a] + src[a..b] == src[..b];
    }
  }

  /** Operations that commit one by one. */
  function Singles(ops: seq<Op>): (groups: seq<seq<Op>>)
    ensures |groups| == |ops| && forall i :: 0 <= i < |ops| ==> groups[i] == [ops[i]]
  {
    seq(|ops|, i requires 0 <= i < |ops| => [ops[i]])
  }

  lemma {:induction false} OneByOne(f: seq<seq<Byte>>, ops: seq<Op>, k: nat)
    requires k <= |ops| && forall op :: op in ops ==> op.ino < |f|
    ensures InRange(Singles(ops), |f|) && forall op :: op in ops[..k] ==> op.ino < |f|
    ensures ApplyGroups(f, Singles(ops)[..k]) == ApplyAll(f, ops[..k])
  {
    var groups := Singles(ops);
    hide Singles, ApplyGroups;
    if k == 0 {
      NoGroups(f, groups);
    } else {
      OneByOne(f, ops, k - 1);
      NextGroup(f, groups, k - 1);
      ApplyLast(f, ops, k);
      assert [ops[k - 1]][..0] == [];
    }
  }

  lemma ChunkAt(ino: nat, off: int, src: seq<Byte>, k: nat)
    requires k < (|src| + CHUNK - 1) / CHUNK
    ensures Chunks(ino, off, src)[k] == WriteAt(ino, off + k * CHUNK, src[k * CHUNK..Min((k + 1) * CHUNK, |src|)])
  {
  }

  lemma ApplyNone(f: seq<seq<Byte>>)
    ensures ApplyAll(f, []) == f
  {
  }

  lemma ApplyLast(f: seq<seq<Byte>>, ops: seq<Op>, k: nat)
    requires 0 < k <= |ops| && forall op :: op in ops ==> op.ino < |f|
    ensures ApplyAll(f, ops[..k]) == ApplyOp(ApplyAll(f, ops[..k - 1]), ops[k - 1])
  {
    assert ops[..k][..k - 1] == ops[..k - 1];
  }

  lemma SpliceNothing(c: seq<Byte>, off: nat)
    requires off <= |c|
    ensures Splice(c, off, []) == c
  {
  }
}

/** Mounting the disk again after a crash, and lives of any number of runs, crashes and
    recoveries (kernel/log.c, kernel/fs.c). */
module Reboot {
  import opened Arithmetic
  import opened Blocks
  import opened Bitmap
  import opened BlockTree
  import opened FileShape
  import opened FileContents
  import opened FileWrite
  import opened FileSystem
  import opened InodeBlocks
  import opened RedoLog
  import opened Log
  import opened File
  import opened Journal
  import opened Wrappers

  // ----- what is read from the disk ----------------------------------------

  /** Only data blocks matter to the files: what lies ahead of them may be anything. */
  lemma DataBlocksSuffice(fs: Fs, fs': Fs, first: nat, owner: map<nat, Slot>)
    requires Owned(fs, first, owner) && NoHoles(fs) && fs'.marked == fs.marked && fs'.inodes == fs.inodes
    requires |fs'.blocks| == |fs.blocks| && forall x :: first <= x < |fs.blocks| ==> fs'.blocks[x] == fs.blocks[x]
    ensures Owned(fs', first, owner) && NoHoles(fs') && Files(fs') == Files(fs)
  {
    hide Word, InUse;
    forall s {:trigger Ptr(fs', s)} | IsSlot(|fs.inodes|, s) ensures Ptr(fs', s) == Ptr(fs, s) {
      PtrFrame(fs, fs', first, owner, s);
    }
    hide Ptr;
    forall i {:trigger fs'.inodes[i]} | 0 <= i < |fs'.inodes|
      ensures fs'.inodes[i].size <= MAXFILE * BSIZE && Shaped(fs', i, BlockCount(fs'.inodes[i].size))
    {
      assert fs'.inodes[i] == fs.inodes[i];
    }
    forall i | 0 <= i < |fs.inodes| ensures Files(fs')[i] == Files(fs)[i] {
      SameContents(fs, fs', first, owner, i);
    }
  }

  lemma SameContents(fs: Fs, fs': Fs, first: nat, owner: map<nat, Slot>, i: nat)
    requires Owned(fs, first, owner) && fs'.Wf() && fs'.marked == fs.marked && fs'.inodes == fs.inodes
    requires |fs'.blocks| == |fs.blocks| && forall x :: first <= x < |fs.blocks| ==> fs'.blocks[x] == fs.blocks[x]
    requires forall s {:trigger Ptr(fs', s)} :: IsSlot(|fs.inodes|, s) ==> Ptr(fs', s) == Ptr(fs, s)
    requires i < |fs.inodes| && fs.inodes[i].size <= MAXBYTES
    ensures Contents(fs', i) == Contents(fs, i)
  {
    hide Word, Ptr, DataSlot;
    forall k | 0 <= k < fs.inodes[i].size ensures FileByte(fs', i, k) == FileByte(fs, i, k) {
      DataSlotIs(|fs.inodes|, i, k / BSIZE);
      var s := DataSlot(i, k / BSIZE);
      if Ptr(fs, s) != 0 { DataAddr(fs, first, owner, s, Ptr(fs, s)); }
    }
  }

  /** What a machine reads from a disk with `nb` bitmap and `ni` inode blocks. */
  function MediaOf(d: Disk, img: Image, nb: nat, ni: nat): (m: Media)
    requires d.bmapstart + nb <= |img| && d.inodestart + ni <= |img|
  {
    Media(img[d.bmapstart..d.bmapstart + nb], img, img[d.inodestart..d.inodestart + ni])
  }

  /** It is what the disk holds, as far as the files are concerned. */
  lemma MediaRead(d: Disk, g: Geometry, m: Media, img: Image)
    requires Regions(d, m, g) && SameHome(g, img, Laid(d, m))
    ensures d.bmapstart + |m.bitmap| <= |img| && d.inodestart + |m.iblocks| <= |img|
    ensures var r := MediaOf(d, img, |m.bitmap|, |m.iblocks|);
      && r.bitmap == m.bitmap && r.iblocks == m.iblocks && SameShape(r, m) && Laid(d, r) == img
      && forall x :: d.first <= x < |m.blocks| ==> r.blocks[x] == m.blocks[x]
  {
    var r := MediaOf(d, img, |m.bitmap|, |m.iblocks|);
    forall k | 0 <= k < |m.bitmap| ensures r.bitmap[k] == m.bitmap[k] {
      assert g.Home(d.bmapstart + k);
    }
    forall k | 0 <= k < |m.iblocks| ensures r.iblocks[k] == m.iblocks[k] {
      assert g.Home(d.inodestart + k);
    }
    forall x: nat | d.first <= x < |m.blocks| ensures r.blocks[x] == m.blocks[x] {
      assert g.Home(x);
    }
    assert Laid(d, r) == img;
  }

  lemma ReadSound(d: Disk, g: Geometry, m: Media, img: Image, f: seq<seq<Byte>>)
    requires Regions(d, m, g) && SameHome(g, img, Laid(d, m)) && Sound(d, m, f)
    ensures d.bmapstart + |m.bitmap| <= |img| && d.inodestart + |m.iblocks| <= |img|
    ensures Sound(d, MediaOf(d, img, |m.bitmap|, |m.iblocks|), f)
  {
    hide Marks, Owned, NoHoles, Files, Dinodes, Laid, At;
    MediaRead(d, g, m, img);
    var owner :| Owned(Found(d, m, |f|), d.first, owner);
    var fs, fs' := Found(d, m, |f|), Found(d, MediaOf(d, img, |m.bitmap|, |m.iblocks|), |f|);
    DataBlocksSuffice(fs, fs', d.first, owner);
  }

  /** Disks of the same superblock. */
  ghost predicate SameSuper(d: Disk, d': Disk) {
    d'.nblocks == d.nblocks && d'.first == d.first && d'.bmapstart == d.bmapstart && d'.inodestart == d.inodestart
  }

  lemma SameLayout(d: Disk, d': Disk, m: Media, g: Geometry)
    requires SameSuper(d, d')
    ensures Laid(d', m) == Laid(d, m) && (Regions(d', m, g) <==> Regions(d, m, g))
  {
    forall x | 0 <= x < |m.blocks| ensures At(d', m, x) == At(d, m, x) { }
  }

  // ----- mounting ----------------------------------------------------------

  /** Power-on with `img` on the disk: recover_from_log, and then the inodes as their blocks
      hold them. Of the machine before the crash only the superblock is used. */
  method Mount(super: Disk, g: Geometry, img: Image, nb: nat, ni: nat, ninodes: nat, ghost m: Media,
               ghost f: seq<seq<Byte>>)
    returns (d: Disk, log: TransactionLog)
    requires Regions(super, m, g) && RecoversTo(g, img, Laid(super, m)) && Sound(super, m, f) && super.nblocks < NOSPACE
    requires nb == |m.bitmap| && ni == |m.iblocks| && ninodes == |f|
    ensures fresh(d) && fresh(log) && fresh(log.block) && log.g == g && SameSuper(super, d) && SameShape(d.OnDisk(), m)
    ensures Mounted(d, log) && |d.inodes| == ninodes && Files(d.State()) == f
  {
    hide Word, Marks, Owned, NoHoles, Files, Dinodes, Laid, Regions, RecoversTo, Recovered, Overlay;
    RecoverableNow(g, img, Laid(super, m));
    log := new TransactionLog(g, img);
    var _ := log.RecoverFromLog();
    SameHomeChain(g, log.disk, Recovered(g, img), Laid(super, m));
    ReadSound(super, g, m, log.disk, f);
    MediaRead(super, g, m, log.disk);
    var r := MediaOf(super, log.disk, nb, ni);
    ghost var owner :| Owned(Found(super, r, |f|), super.first, owner);
    RegionsSize(super, m, g);
    d := new Disk.Load(super.nblocks, super.first, super.bmapstart, super.inodestart, r, ninodes, owner);
    SameLayout(super, d, r, g);
    StillRegions(super, m, r, g);
    SameHomeSelf(g, log.disk);
  }

  lemma RecoverableNow(g: Geometry, img: Image, target: Image)
    requires RecoversTo(g, img, target)
    ensures Recoverable(g, img) && SameHome(g, Recovered(g, img), target) && |img| == g.nblocks
  {
  }

  lemma SameHomeChain(g: Geometry, a: Image, b: Image, c: Image)
    requires SameHome(g, a, b) && SameHome(g, b, c)
    ensures SameHome(g, a, c)
  {
  }

  lemma SameHomeSelf(g: Geometry, a: Image)
    requires |a| == g.nblocks
    ensures SameHome(g, a, a)
  {
  }

  lemma RegionsSize(d: Disk, m: Media, g: Geometry)
    requires Regions(d, m, g)
    ensures |m.blocks| == d.nblocks
  {
  }

  // ----- lives -------------------------------------------------------------

  /** Groups of operations, and where the power went: at the `crash`-th disk write of the run,
      or, if there is no such write, when the disk was at rest. */
  datatype Episode = Episode(groups: seq<seq<Op>>, crash: Option<nat>)

  /** The operations name inodes, and begin_op admits every group. */
  ghost predicate Runs(ep: Episode, n: nat) {
    InRange(ep.groups, n) && forall i :: 0 <= i < |ep.groups| ==> Admitted(ep.groups[i])
  }

  /** All transactions of the run fit the log, and its files fit the disk. */
  ghost predicate RunFits(d: Disk, g: Geometry, nbitmap: nat, f: seq<seq<Byte>>, groups: seq<seq<Op>>)
    requires InRange(groups, |f|)
  {
    forall i :: 0 <= i < |groups| ==> Fitting(groups[i], nbitmap, g) && RoomyAt(d, f, groups, i)
  }

  /** One episode: the machine that comes up again has the files that the first `k` groups
      made, and is as good as new. */
  method RunAndReboot(d: Disk, log: TransactionLog, ep: Episode) returns (d': Disk, log': TransactionLog, ghost k: nat)
    requires Mounted(d, log) && Runs(ep, |d.inodes|)
    modifies d, log, log.block
    ensures fresh(d') && fresh(log') && fresh(log'.block)
    ensures Mounted(d', log') && log'.g == log.g && SameSuper(d, d') && SameShape(d'.OnDisk(), old(d.OnDisk()))
    ensures k <= |ep.groups| && |d'.inodes| == |old(d.inodes)|
    ensures Files(d'.State()) == ApplyGroups(old(Files(d.State())), ep.groups[..k])
    ensures ep.crash.None? && RunFits(d, log.g, |old(d.bitmap)|, old(Files(d.State())), ep.groups) ==> k == |ep.groups|
  {
    hide Word, Marks, Owned, NoHoles, Dinodes, Laid, Regions, RecoversTo, RoomyAt, Fitting, ApplyGroups, Contents,
         Sound;
    var nb, ni, ninodes, h0 := |d.bitmap|, |d.iblocks|, |d.inodes|, |log.history|;
    ghost var f, m0 := Files(d.State()), d.OnDisk();
    var ok;
    ghost var states, when;
    ok, states, when := RunDurably(d, log, ep.groups);
    var img := log.disk;
    k := |states| - 1;
    if ep.crash.Some? && h0 + ep.crash.value < |log.history| {
      img := log.history[h0 + ep.crash.value];
      k := when[ep.crash.value];
      assert LeadsTo(d, log.g, log.history[h0..][ep.crash.value], states, when[ep.crash.value]);
    }
    assert MadeBy(d, f, ep.groups, states[k], k) && SameShape(states[k], states[0]);
    StillRegions(d, m0, states[k], log.g);
    d', log' := Mount(d, log.g, img, nb, ni, ninodes, states[k], ApplyGroups(f, ep.groups[..k]));
  }

  /** The files after episodes of which the first `done[e]` groups survived. */
  ghost function Survived(f: seq<seq<Byte>>, plan: seq<Episode>, done: seq<nat>): (r: seq<seq<Byte>>)
    requires |done| == |plan| && forall e :: 0 <= e < |plan| ==> done[e] <= |plan[e].groups|
    requires forall e :: 0 <= e < |plan| ==> Runs(plan[e], |f|)
    ensures |r| == |f|
  {
    if |plan| == 0 then f
    else
      var n := |plan| - 1;
      assert Runs(plan[n], |f|);
      ApplyGroups(Survived(f, plan[..n], done[..n]), plan[n].groups[..done[n]])
  }

  lemma OneMoreEpisode(f: seq<seq<Byte>>, plan: seq<Episode>, done: seq<nat>, k: nat)
    requires |done| < |plan| && (forall e :: 0 <= e < |done| ==> done[e] <= |plan[e].groups|)
             && k <= |plan[|done|].groups|
    requires forall e :: 0 <= e < |plan| ==> Runs(plan[e], |f|)
    ensures var n := |done|;
      Survived(f, plan[..n + 1], done + [k]) == ApplyGroups(Survived(f, plan[..n], done), plan[n].groups[..k])
  {
    hide ApplyGroups;
    var n := |done|;
    assert plan[..n + 1][..n] == plan[..n] && (done + [k])[..n] == done;
  }

  /** A run that fits and ends at rest survives whole. */
  ghost predicate Whole(d: Disk, g: Geometry, nbitmap: nat, f: seq<seq<Byte>>, plan: seq<Episode>, done: seq<nat>,
                        e: nat)
    requires e < |done| <= |plan| && forall i :: 0 <= i < |done| ==> done[i] <= |plan[i].groups|
    requires forall i :: 0 <= i < |plan| ==> Runs(plan[i], |f|)
  {
    assert Runs(plan[e], |f|);
    plan[e].crash.None? && RunFits(d, g, nbitmap, Survived(f, plan[..e], done[..e]), plan[e].groups) ==>
      done[e] == |plan[e].groups|
  }

  lemma StillWhole(d: Disk, g: Geometry, nbitmap: nat, f: seq<seq<Byte>>, plan: seq<Episode>, done: seq<nat>, k: nat)
    requires |done| < |plan| && (forall i :: 0 <= i < |done| ==> done[i] <= |plan[i].groups|)
             && k <= |plan[|done|].groups|
    requires Runs(plan[|done|], |f|) && forall i :: 0 <= i < |plan| ==> Runs(plan[i], |f|)
    requires forall e :: 0 <= e < |done| ==> Whole(d, g, nbitmap, f, plan, done, e)
    requires plan[|done|].crash.None? && RunFits(d, g, nbitmap, Survived(f, plan[..|done|], done), plan[|done|].groups)
             ==> k == |plan[|done|].groups|
    ensures forall e :: 0 <= e <= |done| ==> Whole(d, g, nbitmap, f, plan, done + [k], e)
  {
    hide RunFits, Survived;
    forall e | 0 <= e <= |done| ensures Whole(d, g, nbitmap, f, plan, done + [k], e) {
      if e < |done| {
        assert Whole(d, g, nbitmap, f, plan, done, e);
        assert (done + [k])[..e] == done[..e];
      } else {
        assert (done + [k])[..e] == done;
      }
    }
  }

  lemma SameFit(d: Disk, d': Disk, g: Geometry, nbitmap: nat, f: seq<seq<Byte>>, groups: seq<seq<Op>>)
    requires SameSuper(d, d') && InRange(groups, |f|)
    ensures RunFits(d', g, nbitmap, f, groups) <==> RunFits(d, g, nbitmap, f, groups)
  {
  }

  /** Any number of runs, each ended by a loss of power at any moment, with recovery in between:
      the files are always what some prefix of each run made of them, one run after the other,
      and all of a run that fits and ends at rest. */
  method Live(d0: Disk, log0: TransactionLog, plan: seq<Episode>)
    returns (d: Disk, log: TransactionLog, ghost done: seq<nat>)
    requires Mounted(d0, log0) && forall e :: 0 <= e < |plan| ==> Runs(plan[e], |d0.inodes|)
    modifies d0, log0, log0.block
    ensures Mounted(d, log) && SameSuper(d0, d) && |done| == |plan|
            && forall e :: 0 <= e < |plan| ==> done[e] <= |plan[e].groups|
    ensures Files(d.State()) == Survived(old(Files(d0.State())), plan, done)
    ensures forall e :: 0 <= e < |plan| ==> Whole(d0, log0.g, |old(d0.bitmap)|, old(Files(d0.State())), plan, done, e)
  {
    hide Word, Marks, Owned, NoHoles, Dinodes, Laid, Regions, ApplyGroups, Contents, Survived, Whole, RunFits;
    d, log, done := d0, log0, [];
    ghost var f, nb := Files(d0.State()), |d0.bitmap|;
    NoEpisodes(f);
    assert plan[..0] == [];
    for e := 0 to |plan|
      invariant (d == d0 || fresh(d)) && (log == log0 || fresh(log)) && (log.block == log0.block || fresh(log.block))
      invariant Mounted(d, log) && log.g == log0.g && SameSuper(d0, d) && |d.bitmap| == nb
      invariant |done| == e && |d.inodes| == |f| && forall i :: 0 <= i < e ==> done[i] <= |plan[i].groups|
      invariant Files(d.State()) == Survived(f, plan[..e], done)
      invariant forall i :: 0 <= i < e ==> Whole(d0, log0.g, nb, f, plan, done, i)
    {
      ghost var k, g := 0, Files(d.State());
      SameFit(d0, d, log0.g, nb, g, plan[e].groups);
      d, log, k := RunAndReboot(d, log, plan[e]);
      OneMoreEpisode(f, plan, done, k);
      StillWhole(d0, log0.g, nb, f, plan, done, k);
      done := done + [k];
    }
    assert plan[..|plan|] == plan;
  }

  lemma NoEpisodes(f: seq<seq<Byte>>)
    ensures Survived(f, [], []) == f
  {
  }
}

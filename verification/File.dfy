/** kernel/file.c: reading and writing open files, and whole runs of file operations. */
module File {
  import opened Arithmetic
  import opened Blocks
  import opened Bitmap
  import opened BlockTree
  import opened FileShape
  import opened FileContents
  import opened FileWrite
  import opened FileTruncate
  import opened FileSystem
  import opened FreeSpace
  import opened InodeBlocks
  import opened RedoLog

  const EDOM := 33
  const CHUNK := 1536         // ((MAXOPBLOCKS - 1 - 1 - 2) / 2) * 512

  /** One chunk of vfs_write, at any offset and through all three tiers of the block map,
      logs at most 8 blocks, which leaves its operation below MAXOPBLOCKS throughout. */
  lemma ChunkBudget(size: nat, off: nat, n: nat)
    requires off <= size && n <= CHUNK
    ensures WriteBudget(size, off, n) <= 8 < MAXOPBLOCKS
  {
    if n > 0 {
      var a, b := off / BSIZE, (off + n - 1) / BSIZE;
      assert b <= a + 1;
      if Reach(size, off + n) > BlockCount(size) {
        assert off + n > size;
      }
    }
  }

  datatype VfsResult = Count(n: nat) | OutOfSpace

  class OpenFile {
    const disk: Disk
    const ino: nat
    var off: int

    constructor (disk: Disk, ino: nat, off: int)
      ensures this.disk == disk && this.ino == ino && this.off == off
    {
      this.disk, this.ino, this.off := disk, ino, off;
    }

    ghost predicate Valid()
      reads this, disk
    {
      disk.Consistent() && ino < |disk.inodes|
    }

    ghost function Bytes(): (c: seq<Byte>)
      requires Valid()
      reads this, disk
    {
      SizeBound(disk.State(), ino);
      Contents(disk.State(), ino)
    }

    /** vfs_read on an inode */
    method VfsRead(n: nat) returns (r: ReadResult)
      requires Valid()
      modifies this`off, disk
      ensures Valid() && Bytes() == old(Bytes()) && disk.State() == old(disk.State())
      ensures r.ReadDomainError? <==> old(off) < 0 || old(off) > |Bytes()| || old(off) + n >= TWO64 / 2
      ensures r.ReadDomainError? ==> off == old(off)
      ensures r.Bytes? ==> r.data == Bytes()[old(off)..Min(old(off) + n, |Bytes()|)] && off == old(off) + |r.data|
    {
      hide Marks, Owned, NoHoles, Contents;
      SizeBound(disk.State(), ino);
      r := disk.InodeRead(ino, off, n);
      if r.Bytes? && |r.data| > 0 {
        off := off + |r.data|;
      }
    }

    /** Nothing stands in the way of writing `n` bytes at the current offset. */
    ghost predicate Fits(n: nat)
      requires Valid()
      reads this, disk
    {
      n == 0 || (0 <= off <= |Bytes()| && off + n <= MAXBYTES)
    }

    /** One transaction of vfs_write, from begin_op to end_op. On an error the source adds the
        negative result to the offset. */
    method WriteChunk(data: seq<Byte>) returns (w: WriteResult)
      requires Valid() && 0 < |data| <= CHUNK
      modifies this`off, disk
      ensures w.DomainError? <==> old(off) < 0 || old(off) > |old(Bytes())| || old(off) + |data| > MAXBYTES
      ensures w.DomainError? ==> Valid() && disk.State() == old(disk.State()) && disk.OnDisk() == old(disk.OnDisk())
                                 && off == old(off) - EDOM
      ensures !w.DomainError? ==>
                (w.NoSpace? <==>
                   TreeSize(Reach(|old(Bytes())|, old(off) + |data|)) - TreeSize(BlockCount(|old(Bytes())|))
                                 > FreeCount(old(disk.State()).marked))
      ensures w.Written? ==> Valid() && w.n == |data|
                             && WriteDone(old(disk.State()), disk.State(), ino, old(off), data)
                             && off == old(off) + |data|
      ensures w.Written? ==> |disk.logged| <= 8
      ensures disk.Journaled(old(disk.OnDisk()), disk.OnDisk(), {}, disk.logged)
    {
      hide Marks, Owned, NoHoles, Contents, WriteBudget, Dinodes;
      hide TreeSize, Reach, BlockCount, FreeCount, Disk.Journaled;
      SizeBound(disk.State(), ino);
      disk.logged := {};
      w := disk.InodeWrite(ino, off, data);
      if w.Written? {
        ChunkBudget(|old(Bytes())|, off, |data|);
        off := off + w.n;
      } else if w.DomainError? {
        off := off - EDOM;
      }
    }

    /** vfs_write on an inode. The bytes that go out are one splice at the starting offset,
        however many transactions they take; they run out of disk exactly if the tree of the
        file outgrows the pool. Transaction `k` takes the disk from `images[k]` to
        `images[k + 1]`, through at most 8 logged blocks. */
    method VfsWrite(src: seq<Byte>) returns (r: VfsResult, ghost txns: seq<set<nat>>, ghost images: seq<Media>)
      requires Valid()
      modifies this`off, disk
      ensures r.OutOfSpace? <==>
                Growth(|old(Bytes())|, old(off), Sendable(|old(Bytes())|, old(off), |src|)) >
                FreeCount(old(disk.State()).marked)
      ensures r.Count? ==> Valid() && r.n == Sendable(|old(Bytes())|, old(off), |src|)
      ensures r.Count? ==> (r.n == |src| <==> old(Fits(|src|)))
      ensures r.Count? ==> SplicedSoFar(old(Bytes()), Bytes(), old(off), src, r.n)
      ensures r.Count? ==> off == old(off) + r.n - (if r.n == |src| then 0 else EDOM)
      ensures r.Count? ==> OthersKept(old(disk.State()), disk.State(), ino)
      ensures Transactions(disk, images, txns) && |images| == |txns| + 1 && images[0] == old(disk.OnDisk())
      ensures r.OutOfSpace? ==> |txns| * CHUNK < |src|
                                && SpaceFor(|old(Bytes())|, old(off), |src|, |txns|,
                                     FreeCount(old(disk.State()).marked))
      ensures r.Count? ==> images[|txns|] == disk.OnDisk() && |txns| == (r.n + CHUNK - 1) / CHUNK
    {
      hide Marks, Owned, NoHoles, Contents, WriteBudget, SplicedSoFar, OthersKept, Dinodes;
      hide TreeSize, Reach, BlockCount, WriteDone, FreeCount, Splice, Growth, Sendable, Transactions, Disk.Journaled;
      var i, n := 0, |src|;
      ghost var fs0, c0, off0 := disk.State(), Bytes(), off;
      txns, images := [], [disk.OnDisk()];
      NoTransactions(disk, disk.OnDisk());
      SizeBound(fs0, ino);
      Begin(fs0, c0, off0, src, ino);
      NoGrowth(|c0|, off0);
      while i < n
        invariant 0 <= i <= n && Valid() && off == off0 + i
        invariant SplicedSoFar(c0, Bytes(), off0, src, i)
        invariant i > 0 ==> Room(c0, off0, i)
        invariant FreeCount(disk.State().marked) == FreeCount(fs0.marked) - Growth(|c0|, off0, i)
        invariant OthersKept(fs0, disk.State(), ino)
        invariant Transactions(disk, images, txns) && |images| == |txns| + 1 && images[0] == old(disk.OnDisk())
                  && images[|txns|] == disk.OnDisk()
        invariant |txns| == (i + CHUNK - 1) / CHUNK && (i < n ==> i == |txns| * CHUNK)
      {
        var n1 := if n - i > CHUNK then CHUNK else n - i;
        ghost var fs, before := disk.State(), Bytes();
        SizeBound(fs, ino);
        Lengths(c0, before, off0, src, i);
        var w := WriteChunk(src[i..i + n1]);
        SendableAll(|c0|, off0, n, i);
        if w.NoSpace? {
          FullDisk(|c0|, off0, n, i, n1, |before|, FreeCount(fs0.marked));
          return OutOfSpace, txns, images;
        }
        if w.DomainError? {
          break;
        }
        NextChunk(fs0, fs, disk.State(), ino, c0, before, off0, src, i, n1);
        OneMore(disk, images, txns, disk.OnDisk(), disk.logged);
        txns, images := txns + [disk.logged], images + [disk.OnDisk()];
        i := i + w.n;
      }
      Lengths(c0, Bytes(), off0, src, i);
      SendableAll(|c0|, off0, n, i);
      r := Count(i);
    }
  }

  /** The bytes of a write of `n` at `off` that stay within the limits: all, or whole chunks. */
  function Sendable(size: nat, off: int, n: nat): (k: nat)
    ensures k <= n
  {
    if !(0 <= off <= size <= MAXBYTES) then 0
    else if off + n <= MAXBYTES then n
    else (MAXBYTES - off) / CHUNK * CHUNK
  }

  /** Chunk by chunk: where the write that has sent `i` bytes goes on, and where it stops. */
  lemma SendableAll(size: nat, off: int, n: nat, i: nat)
    requires size <= MAXBYTES && i <= n && (i < n ==> i % CHUNK == 0)
    requires i > 0 ==> 0 <= off <= size && off + i <= MAXBYTES
    ensures var n1 := Min(n - i, CHUNK);
      if i < n && 0 <= off <= size && off + i + n1 <= MAXBYTES
      then i + n1 <= Sendable(size, off, n) else Sendable(size, off, n) == i
    ensures Sendable(size, off, n) == n <==> n == 0 || (0 <= off <= size && off + n <= MAXBYTES)
  {
    var n1 := Min(n - i, CHUNK);
    if i < n && 0 <= off <= size && off + n > MAXBYTES {
      var q, room := i / CHUNK, MAXBYTES - off;
      assert i == q * CHUNK && room == room / CHUNK * CHUNK + room % CHUNK;
    }
  }

  /** Blocks that the tree of a file of `size` bytes gains by a write of `n` bytes at `off`. */
  function Growth(size: nat, off: int, n: nat): (k: int) {
    if n == 0 || off < 0 then 0 else TreeSize(Reach(size, off + n)) - TreeSize(BlockCount(size))
  }

  /** The pool has room for the first `k` chunks of a write of `n` bytes, and not for the next. */
  predicate SpaceFor(size: nat, off: int, n: nat, k: nat, pool: nat)
    requires k * CHUNK < n
  {
    Growth(size, off, k * CHUNK) <= pool < Growth(size, off, k * CHUNK + Min(n - k * CHUNK, CHUNK))
  }

  lemma NoGrowth(size: nat, off: int)
    ensures Growth(size, off, 0) == 0
  {
  }

  /** What a write takes from the pool. */
  lemma Spent(fs: Fs, fs': Fs, ino: nat, off: nat, data: seq<Byte>)
    requires WriteDone(fs, fs', ino, off, data)
    ensures FreeCount(fs'.marked) ==
            FreeCount(fs.marked)
            - (TreeSize(Reach(fs.inodes[ino].size, off + |data|)) - TreeSize(BlockCount(fs.inodes[ino].size)))
  {
    hide TreeSize, BlockCount, FreeCount;
    assert |Contents(fs', ino)| == fs'.inodes[ino].size;
  }

  lemma GrowthStep(size: nat, off: int, i: nat, n1: nat, now: nat)
    requires 0 <= off <= size && 0 < n1 && now == if i == 0 then size else Max(size, off + i)
    ensures Growth(size, off, i + n1) ==
              Growth(size, off, i) + TreeSize(Reach(now, off + i + n1)) - TreeSize(BlockCount(now))
    ensures Max(now, off + i + n1) == Max(size, off + i + n1)
  {
    hide TreeSize, BlockCount;
  }

  lemma GrowthMonotone(size: nat, off: nat, a: nat, b: nat)
    requires 0 < a <= b
    ensures Growth(size, off, a) <= Growth(size, off, b)
  {
    hide TreeSize, Reach, BlockCount;
    ReachMonotone(size, off + a, off + b);
    TreeMonotone(Reach(size, off + a), Reach(size, off + b));
  }

  /** A chunk that does not fit the pool: the write as a whole does not. */
  lemma FullDisk(size: nat, off: nat, n: nat, i: nat, n1: nat, now: nat, pool: nat)
    requires off <= size && 0 < n1 && now == (if i == 0 then size else Max(size, off + i))
             && i + n1 <= Sendable(size, off, n)
    requires TreeSize(Reach(now, off + i + n1)) - TreeSize(BlockCount(now)) > pool - Growth(size, off, i)
    ensures Growth(size, off, i + n1) > pool
    ensures Growth(size, off, Sendable(size, off, n)) > pool
  {
    hide TreeSize, Reach, BlockCount, Growth, Sendable;
    GrowthStep(size, off, i, n1, now);
    GrowthMonotone(size, off, i + n1, Sendable(size, off, n));
  }

  /** Every transaction changes only blocks it logged, at most 8 of them. */
  ghost predicate Transactions(d: Disk, images: seq<Media>, txns: seq<set<nat>>) {
    |images| == |txns| + 1 &&
    forall k :: 0 <= k < |txns| ==> |txns[k]| <= 8 && d.Journaled(images[k], images[k + 1], {}, txns[k])
  }

  lemma NoTransactions(d: Disk, m: Media)
    ensures Transactions(d, [m], [])
  {
  }

  lemma OneMore(d: Disk, images: seq<Media>, txns: seq<set<nat>>, m: Media, t: set<nat>)
    requires Transactions(d, images, txns) && |images| == |txns| + 1 && |t| <= 8
             && d.Journaled(images[|txns|], m, {}, t)
    ensures Transactions(d, images + [m], txns + [t])
  {
    hide Disk.Journaled;
  }

  ghost predicate Room(c: seq<Byte>, off: int, n: nat) {
    0 <= off <= |c| && off + n <= MAXBYTES
  }

  /** `c` is `c0` with the first `i` bytes of `src` written at `off`. */
  ghost predicate SplicedSoFar(c0: seq<Byte>, c: seq<Byte>, off: int, src: seq<Byte>, i: nat) {
    i <= |src| && if i == 0 then c == c0 else 0 <= off <= |c0| && c == Splice(c0, off, src[..i])
  }

  /** All files but `ino` are as they were. */
  ghost predicate OthersKept(fs0: Fs, fs: Fs, ino: nat) {
    && fs0.Wf() && fs.Wf() && |fs.inodes| == |fs0.inodes|
    && forall i :: 0 <= i < |fs.inodes| && i != ino ==> FileKept(fs0, fs, i)
  }

  ghost predicate FileKept(fs0: Fs, fs: Fs, i: nat)
    requires fs0.Wf() && fs.Wf() && i < |fs.inodes| == |fs0.inodes|
  {
    fs.inodes[i] == fs0.inodes[i] && (fs0.inodes[i].size <= MAXBYTES ==> Contents(fs, i) == Contents(fs0, i))
  }

  lemma Begin(fs: Fs, c: seq<Byte>, off: int, src: seq<Byte>, ino: nat)
    requires fs.Wf()
    ensures SplicedSoFar(c, c, off, src, 0) && OthersKept(fs, fs, ino)
  {
  }

  lemma Lengths(c0: seq<Byte>, c: seq<Byte>, off: int, src: seq<Byte>, i: nat)
    requires SplicedSoFar(c0, c, off, src, i)
    ensures i > 0 ==> |c| == Max(|c0|, off + i)
    ensures i == 0 ==> |c| == |c0|
  {
  }

  lemma NextChunk(fs0: Fs, fs: Fs, fs': Fs, ino: nat, c0: seq<Byte>, c: seq<Byte>, off: int, src: seq<Byte>, i: nat,
                  n1: nat)
    requires OthersKept(fs0, fs, ino) && SplicedSoFar(c0, c, off, src, i)
    requires 0 < n1 && i + n1 <= |src| && 0 <= off + i <= |c| && (i > 0 ==> 0 <= off)
    requires WriteDone(fs, fs', ino, off + i, src[i..i + n1]) && c == Contents(fs, ino)
    ensures OthersKept(fs0, fs', ino) && ino < |fs'.inodes| && fs'.inodes[ino].size <= MAXBYTES
    ensures SplicedSoFar(c0, Contents(fs', ino), off, src, i + n1)
    ensures FreeCount(fs.marked) - FreeCount(fs'.marked) == Growth(|c0|, off, i + n1) - Growth(|c0|, off, i)
  {
    hide Contents, Splice, OthersKept, TreeSize, BlockCount, FreeCount, Reach, Growth;
    Spent(fs, fs', ino, off + i, src[i..i + n1]);
    Lengths(c0, c, off, src, i);
    GrowthStep(|c0|, off, i, n1, |c|);
    StillKept(fs0, fs, fs', ino, off + i, src[i..i + n1]);
    if i == 0 {
      assert src[0..n1] == src[..n1];
    } else {
      SpliceSplice(c0, off, src[..i], src[i..i + n1]);
      assert src[..i] + src[i..i + n1] == src[..i + n1];
    }
  }

  lemma StillKept(fs0: Fs, fs: Fs, fs': Fs, ino: nat, off: nat, data: seq<Byte>)
    requires OthersKept(fs0, fs, ino) && WriteDone(fs, fs', ino, off, data)
    ensures OthersKept(fs0, fs', ino)
  {
    hide Contents, Splice, FreeCount, TreeSize, BlockCount;
    forall j | 0 <= j < |fs'.inodes| && j != ino ensures FileKept(fs0, fs', j) {
      assert FileKept(fs0, fs, j);
      assert fs'.inodes[j] == fs.inodes[j] && Contents(fs', j) == Contents(fs, j);
    }
  }

  /** What was written is what a later read at that offset returns. */
  lemma ReadBack(c: seq<Byte>, off: nat, src: seq<Byte>)
    requires off <= |c|
    ensures Splice(c, off, src)[off..off + |src|] == src
    ensures Splice(c, off, src)[..off] == c[..off]
    ensures off + |src| <= |c| ==> Splice(c, off, src)[off + |src|..] == c[off + |src|..]
  {
  }

  // ----- runs --------------------------------------------------------------

  datatype Op = WriteAt(ino: nat, off: int, data: seq<Byte>) | Truncate(ino: nat) | ReadAt(ino: nat, off: int, n: nat)

  /** The file system as an array of byte strings. */
  ghost function Files(fs: Fs): (f: seq<seq<Byte>>)
    requires NoHoles(fs)
    ensures |f| == |fs.inodes|
    ensures forall i :: 0 <= i < |f| ==> fs.inodes[i].size <= MAXBYTES && f[i] == Contents(fs, i)
  {
    seq(|fs.inodes|, i requires 0 <= i < |fs.inodes| => SizeBound(fs, i); Contents(fs, i))
  }

  /** What an operation means on byte strings. */
  function ApplyOp(f: seq<seq<Byte>>, op: Op): (r: seq<seq<Byte>>)
    requires op.ino < |f|
    ensures |r| == |f|
  {
    match op
    case WriteAt(ino, off, data) =>
      if 0 <= off <= |f[ino]| && off + |data| <= MAXBYTES then f[ino := Splice(f[ino], off, data)] else f
    case Truncate(ino) => f[ino := []]
    case ReadAt(_, _, _) => f
  }

  function ApplyAll(f: seq<seq<Byte>>, ops: seq<Op>): (r: seq<seq<Byte>>)
    requires forall op :: op in ops ==> op.ino < |f|
    ensures |r| == |f|
  {
    if |ops| == 0 then f else ApplyOp(ApplyAll(f, ops[..|ops| - 1]), ops[|ops| - 1])
  }

  /** The blocks that files of these contents take, tables included. */
  ghost function Needed(f: seq<seq<Byte>>): (n: nat) {
    TreeBlocks(seq<nat>(|f|, i requires 0 <= i < |f| => |f[i]|))
  }

  /** Conservation in terms of byte strings. */
  lemma SpaceLeft(fs: Fs, first: nat, owner: map<nat, Slot>)
    requires Owned(fs, first, owner) && NoHoles(fs)
    ensures FreeCount(fs.marked) == |fs.marked| - first - Needed(Files(fs))
  {
    hide Owned, NoHoles, FreeCount, TreeBlocks;
    Conservation(fs, first, owner);
    var f := Files(fs);
    assert Sizes(fs.inodes) == seq<nat>(|f|, i requires 0 <= i < |f| => |f[i]|);
  }

  lemma NeededUpdate(f: seq<seq<Byte>>, i: nat, c: seq<Byte>)
    requires i < |f|
    ensures Needed(f[i := c]) == Needed(f) - TreeSize(BlockCount(|f[i]|)) + TreeSize(BlockCount(|c|))
  {
    hide TreeSize, BlockCount, TreeBlocks;
    var sizes := seq<nat>(|f|, j requires 0 <= j < |f| => |f[j]|);
    var f' := f[i := c];
    TreeBlocksUpdate(sizes, i, |c|);
    assert sizes[i := |c|] == seq<nat>(|f'|, j requires 0 <= j < |f'| => |f'[j]|);
  }

  lemma NeededWrite(f: seq<seq<Byte>>, ino: nat, off: int, data: seq<Byte>)
    requires ino < |f| && 0 <= off <= |f[ino]| && off + |data| <= MAXBYTES
    ensures Needed(ApplyOp(f, WriteAt(ino, off, data))) ==
            Needed(f) - TreeSize(BlockCount(|f[ino]|)) + TreeSize(Reach(|f[ino]|, off + |data|))
  {
    hide TreeSize, BlockCount, Needed;
    NeededUpdate(f, ino, Splice(f[ino], off, data));
  }

  /** One operation on the disk, as the system calls issue them. */
  method Perform(d: Disk, op: Op) returns (ok: bool)
    requires d.Consistent() && op.ino < |d.inodes|
    modifies d
    ensures ok ==> d.Consistent() && |d.inodes| == |old(d.inodes)|
    ensures ok ==> Files(d.State()) == ApplyOp(old(Files(d.State())), op)
    ensures ok <==> Needed(ApplyOp(old(Files(d.State())), op)) <= d.nblocks - d.first
    ensures d.Journaled(old(d.OnDisk()), d.OnDisk(), old(d.logged), d.logged)
    ensures ok && Small(op) ==> |d.logged| <= |old(d.logged)| + LogBudget(op, |d.bitmap|)
    ensures (op.ReadAt? ==> d.logged == old(d.logged)) && (ok || op.WriteAt?)
  {
    hide Marks, Owned, NoHoles, Contents, TreeSize, BlockCount, Splice, FreeCount, Needed, Dinodes, Disk.Journaled;
    match op
    case ReadAt(ino, off, n) =>
      SpaceLeft(d.State(), d.first, d.owner);
      var _ := d.InodeRead(ino, off, n);
      ok := true;
    case WriteAt(ino, off, data) =>
      ok := PerformWrite(d, ino, off, data);
    case Truncate(ino) =>
      PerformTruncate(d, ino);
      ok := true;
  }

  /** A write of any length, in one transaction. */
  method PerformWrite(d: Disk, ino: nat, off: int, data: seq<Byte>) returns (ok: bool)
    requires d.Consistent() && ino < |d.inodes|
    modifies d
    ensures ok ==> d.Consistent() && |d.inodes| == |old(d.inodes)|
    ensures ok ==> Files(d.State()) == ApplyOp(old(Files(d.State())), WriteAt(ino, off, data))
    ensures ok <==> Needed(ApplyOp(old(Files(d.State())), WriteAt(ino, off, data))) <= d.nblocks - d.first
    ensures d.Journaled(old(d.OnDisk()), d.OnDisk(), old(d.logged), d.logged)
    ensures ok && |data| <= CHUNK ==> |d.logged| <= |old(d.logged)| + 8
  {
    hide Marks, Owned, NoHoles, Contents, TreeSize, Reach, BlockCount, Splice, FreeCount, Needed, WriteBudget, Dinodes,
         Disk.Journaled;
    ghost var fs := d.State();
    ghost var f := Files(fs);
    SizeBound(fs, ino);
    SpaceLeft(fs, d.first, d.owner);
    if 0 <= off <= |f[ino]| && off + |data| <= MAXBYTES { NeededWrite(f, ino, off, data); }
    var w := d.InodeWrite(ino, off, data);
    ok := !w.NoSpace?;
    if w.Written? {
      if |data| <= CHUNK { ChunkBudget(|f[ino]|, off, |data|); }
      WrittenFiles(fs, d.State(), ino, off, data);
    }
  }

  lemma WrittenFiles(fs: Fs, fs': Fs, ino: nat, off: nat, data: seq<Byte>)
    requires NoHoles(fs) && NoHoles(fs') && WriteDone(fs, fs', ino, off, data)
    ensures Files(fs') == Files(fs)[ino := Splice(Files(fs)[ino], off, data)]
  {
    hide NoHoles, Contents, Splice, TreeSize, BlockCount, FreeCount;
  }

  lemma NoTree()
    ensures TreeSize(BlockCount(0)) == 0
  {
  }

  /** A truncation gives back every block of the file's tree. */
  method PerformTruncate(d: Disk, ino: nat)
    requires d.Consistent() && ino < |d.inodes|
    modifies d
    ensures d.Consistent() && |d.inodes| == |old(d.inodes)|
    ensures Files(d.State()) == old(Files(d.State()))[ino := []]
    ensures Needed(Files(d.State())) <= d.nblocks - d.first
    ensures FreeCount(d.State().marked) ==
              FreeCount(old(d.State()).marked) + TreeSize(BlockCount(|old(Files(d.State()))[ino]|))
    ensures d.Journaled(old(d.OnDisk()), d.OnDisk(), old(d.logged), d.logged)
    ensures |d.logged| <= |old(d.logged)| + |d.bitmap| + 1
  {
    hide Marks, Owned, NoHoles, Contents, FreeCount, Needed, Dinodes, Truncated, TreeSize, BlockCount, Disk.Journaled;
    ghost var fs := d.State();
    SpaceLeft(fs, d.first, d.owner);
    NeededUpdate(Files(fs), ino, []);
    NoTree();
    d.InodeTruncate(ino);
    Emptied(fs, d.State(), d.first, old(d.owner), ino);
    assert Files(d.State()) == Files(fs)[ino := []];
    SpaceLeft(d.State(), d.first, d.owner);
  }

  lemma Emptied(fs: Fs, fs': Fs, first: nat, owner: map<nat, Slot>, ino: nat)
    requires Owned(fs, first, owner) && NoHoles(fs) && Truncated(fs, fs', owner, ino)
    ensures Owned(fs', first, Disown(owner, ino)) && NoHoles(fs') && |fs'.inodes| == |fs.inodes|
    ensures fs'.inodes == fs.inodes[ino := fs'.inodes[ino]]
    ensures fs'.inodes[ino].size <= MAXBYTES && Contents(fs', ino) == []
    ensures forall i :: 0 <= i < |fs.inodes| && i != ino ==>
              fs'.inodes[i] == fs.inodes[i] && fs.inodes[i].size <= MAXBYTES && Contents(fs', i) == Contents(fs, i)
  {
    hide Owned, Ptr, Released, InUse, FileByte;
    assert Shaped(fs, ino, BlockCount(fs.inodes[ino].size));
    ShapedNoGaps(fs, ino, BlockCount(fs.inodes[ino].size));
    TruncateKeepsOwned(fs, fs', first, owner, ino);
    TruncateKeepsFiles(fs, fs', first, owner, ino);
  }

  /** No more than one chunk is written. */
  predicate Small(op: Op) {
    op.WriteAt? ==> |op.data| <= CHUNK
  }

  /** The blocks that such an operation may log. */
  function LogBudget(op: Op, nbitmap: nat): (n: nat) {
    match op
    case WriteAt(_, _, _) => 8
    case Truncate(_) => nbitmap + 1
    case ReadAt(_, _, _) => 0
  }

  function LogBudgets(ops: seq<Op>, nbitmap: nat): (n: nat) {
    if |ops| == 0 then 0 else LogBudgets(ops[..|ops| - 1], nbitmap) + LogBudget(ops[|ops| - 1], nbitmap)
  }

  /** Every run of reads, writes and truncations, over any number of inodes, keeps block
      ownership, freedom from holes and the inode blocks, and does to the files what it
      does to byte strings. It gets to its end exactly if the files, as byte strings, fit the
      disk at every point of the run. */
  method Run(d: Disk, ops: seq<Op>) returns (ok: bool)
    requires d.Consistent() && forall op :: op in ops ==> op.ino < |d.inodes|
    modifies d
    ensures ok ==> d.Consistent() && |d.inodes| == |old(d.inodes)|
    ensures ok ==> Files(d.State()) == ApplyAll(old(Files(d.State())), ops)
    ensures ok <==> forall i :: 0 <= i <= |ops| ==>
              Needed(ApplyAll(old(Files(d.State())), ops[..i])) <= d.nblocks - d.first
    ensures d.Journaled(old(d.OnDisk()), d.OnDisk(), old(d.logged), d.logged)
    ensures ok && (forall op :: op in ops ==> Small(op)) ==>
              |d.logged| <= |old(d.logged)| + LogBudgets(ops, |old(d.bitmap)|)
  {
    hide Marks, Owned, NoHoles, Contents, Needed, Dinodes, ApplyOp, Disk.Journaled, Small;
    ghost var f, nbitmap := Files(d.State()), |d.bitmap|;
    var i := 0;
    assert ops[..0] == [];
    d.Still(d.OnDisk(), d.logged);
    SpaceLeft(d.State(), d.first, d.owner);
    while i < |ops|
      invariant 0 <= i <= |ops| && d.Consistent() && |d.inodes| == |f|
      invariant Files(d.State()) == ApplyAll(f, ops[..i])
      invariant forall j :: 0 <= j <= i ==> Needed(ApplyAll(f, ops[..j])) <= d.nblocks - d.first
      invariant d.Journaled(old(d.OnDisk()), d.OnDisk(), old(d.logged), d.logged) && |d.bitmap| == nbitmap
      invariant (forall op :: op in ops ==> Small(op)) ==> |d.logged| <= |old(d.logged)| + LogBudgets(ops[..i], nbitmap)
    {
      assert ops[i] in ops;
      assert ops[..i + 1][..i] == ops[..i] && ops[..i + 1][i] == ops[i];
      ghost var m, l := d.OnDisk(), d.logged;
      ok := Perform(d, ops[i]);
      d.Join(old(d.OnDisk()), m, d.OnDisk(), old(d.logged), l, d.logged);
      if !ok {
        return;
      }
      d.KeepsSizes(m, d.OnDisk(), l, d.logged);
      i := i + 1;
    }
    assert ops[..|ops|] == ops;
    ok := true;
  }
}

/** One iteration of inode_write and its end (kernel/fs.c), on the file's bytes. */
module FileWrite {
  import opened Arithmetic
  import opened Blocks
  import opened Bitmap
  import opened BlockTree
  import opened FileShape
  import opened FileContents
  import opened BlockMap

  /** The block after `memmove(bp->data + o, src, m)`. */
  function Overwrite(b: Block, o: nat, src: seq<Byte>): (r: Block)
    requires o + |src| <= BSIZE
  {
    b[..o] + src + b[o + |src|..]
  }

  /** Blocks needed once a write has reached byte `end`. */
  function Reach(size: nat, end: nat): (nb: nat) {
    BlockCount(Max(size, end))
  }

  /** Number of blocks that bytes off..off+n-1 lie in. */
  function Spanned(off: nat, n: nat): (k: nat) {
    if n == 0 then 0 else (off + n - 1) / BSIZE - off / BSIZE + 1
  }

  /** The bytes of inode `ino` after the first `tot` bytes of `src` went out at `off`. */
  ghost predicate Wrote(fs0: Fs, fs: Fs, ino: nat, off: nat, src: seq<Byte>, tot: nat)
    requires fs0.Wf() && fs.Wf() && ino < |fs0.inodes| == |fs.inodes|
    requires tot <= |src| && off + |src| <= MAXBYTES
  {
    forall k {:trigger FileByte(fs, ino, k)} :: 0 <= k < MAXBYTES && k < Max(fs0.inodes[ino].size, off + tot) ==>
      FileByte(fs, ino, k) == if off <= k < off + tot then src[k - off] else FileByte(fs0, ino, k)
  }

  ghost predicate OthersSame(fs0: Fs, fs: Fs, ino: nat)
    requires fs0.Wf() && fs.Wf() && |fs0.inodes| == |fs.inodes|
  {
    forall i {:trigger fs.inodes[i]} :: 0 <= i < |fs.inodes| && i != ino ==>
      fs.inodes[i] == fs0.inodes[i] && Shaped(fs, i, BlockCount(fs0.inodes[i].size)) && SameFile(fs0, fs, i)
  }

  /** The loop invariant of inode_write. */
  ghost predicate Writing(fs0: Fs, fs: Fs, first: nat, owner: map<nat, Slot>, ino: nat, off: nat, src: seq<Byte>,
                          tot: nat) {
    && fs0.Wf() && ino < |fs0.inodes| && tot <= |src| && off <= fs0.inodes[ino].size <= MAXBYTES
    && off + |src| <= MAXBYTES
    && (forall i {:trigger fs0.inodes[i]} :: 0 <= i < |fs0.inodes| ==> fs0.inodes[i].size <= MAXBYTES)
    && Owned(fs, first, owner) && SameSizes(fs0, fs)
    && Shaped(fs, ino, Reach(fs0.inodes[ino].size, off + tot))
    && Wrote(fs0, fs, ino, off, src, tot)
    && OthersSame(fs0, fs, ino)
    && FreeCount(fs.marked) == FreeCount(fs0.marked)
         - (TreeSize(Reach(fs0.inodes[ino].size, off + tot)) - TreeSize(BlockCount(fs0.inodes[ino].size)))
    && (Reach(fs0.inodes[ino].size, off + tot) == BlockCount(fs0.inodes[ino].size) ==> fs.inodes == fs0.inodes)
  }

  lemma WritingStart(fs: Fs, first: nat, owner: map<nat, Slot>, ino: nat, off: nat, src: seq<Byte>)
    requires Owned(fs, first, owner) && NoHoles(fs) && ino < |fs.inodes|
    requires off <= fs.inodes[ino].size && off + |src| <= MAXBYTES
    ensures Writing(fs, fs, first, owner, ino, off, src, 0)
  {
    hide Word, InUse, FileByte, Ptr;
    assert Shaped(fs, ino, BlockCount(fs.inodes[ino].size));
    assert Reach(fs.inodes[ino].size, off + 0) == BlockCount(fs.inodes[ino].size);
    assert SameSizes(fs, fs);
    assert Wrote(fs, fs, ino, off, src, 0);
    forall i | 0 <= i < |fs.inodes| && i != ino
      ensures Shaped(fs, i, BlockCount(fs.inodes[i].size)) && SameFile(fs, fs, i)
    {
      assert Shaped(fs, i, BlockCount(fs.inodes[i].size));
    }
  }

  // ----- block arithmetic --------------------------------------------------

  /** The next block is in the file already or is the one right behind it. */
  lemma NextBlock(size: nat, off: nat, tot: nat, m: nat)
    requires off <= size && 0 < m <= BSIZE - (off + tot) % BSIZE
    ensures var bn, nb := (off + tot) / BSIZE, Reach(size, off + tot);
            && bn <= nb
            && Reach(size, off + tot + m) == (if bn == nb then nb + 1 else nb)
  {
  }

  lemma TreeGrowth(nb: nat)
    ensures TreeSize(nb + 1) > TreeSize(nb)
  {
  }

  lemma {:induction false} TreeMonotone(a: nat, b: nat)
    requires a <= b
    ensures TreeSize(a) <= TreeSize(b)
    decreases b - a
  {
    if a < b {
      TreeGrowth(a);
      TreeMonotone(a + 1, b);
    }
  }

  /** How bmap fares at that block. */
  lemma MissingNext(fs: Fs, ino: nat, nb: nat, bn: nat)
    requires Shaped(fs, ino, nb) && bn <= nb && bn < MAXFILE && nb <= MAXFILE
    ensures forall s :: s in Path(ino, bn) ==> IsSlot(|fs.inodes|, s)
    ensures bn < nb ==> Missing(fs, Path(ino, bn)) == 0
    ensures bn == nb ==> Missing(fs, Path(ino, bn)) == TreeSize(nb + 1) - TreeSize(nb) > 0
  {
    hide Word, Ptr, InUse;
    PathSlots(|fs.inodes|, ino, bn);
    if bn == nb {
      MissingAtEnd(fs, ino, nb);
      TreeGrowth(nb);
    } else {
      var p := Path(ino, bn);
      forall s | s in p
        ensures Ptr(fs, s) != 0
      {
        InUsePath(ino, bn, nb, s);
      }
      NoneMissing(fs, p);
    }
  }

  lemma {:induction false} NoneMissing(fs: Fs, path: seq<Slot>)
    requires fs.Wf() && forall s :: s in path ==> IsSlot(|fs.inodes|, s) && Ptr(fs, s) != 0
    ensures Missing(fs, path) == 0
    decreases |path|
  {
    hide Word;
    if |path| > 0 {
      NoneMissing(fs, path[1..]);
    }
  }

  // ----- one iteration -----------------------------------------------------

  /** bmap inside the loop: the file has grown to hold the block, no byte has changed. */
  lemma MapStep(fs: Fs, a: Fs, first: nat, o: map<nat, Slot>, oa: map<nat, Slot>, ino: nat, bn: nat, nb: nat, addr: nat)
    requires Owned(fs, first, o) && Shaped(fs, ino, nb) && bn <= nb <= MAXFILE && bn < MAXFILE
    requires Mapped(fs, a, first, o, oa, Path(ino, bn), addr)
    ensures a.Wf() && Owned(a, first, oa) && SameSizes(fs, a)
    ensures Shaped(a, ino, if bn == nb then nb + 1 else nb)
    ensures IsSlot(|a.inodes|, DataSlot(ino, bn)) && addr == Ptr(a, DataSlot(ino, bn)) != 0
    ensures forall i: nat, n: nat :: i < |fs.inodes| && i != ino && Shaped(fs, i, n) ==> Shaped(a, i, n)
    ensures forall i: nat, n: nat {:trigger BlockOf(a, i, n)} ::
              i < |fs.inodes| && n < MAXFILE && IsSlot(|fs.inodes|, DataSlot(i, n)) && Ptr(fs, DataSlot(i, n)) != 0 ==>
              BlockOf(a, i, n) == BlockOf(fs, i, n)
    ensures forall i :: 0 <= i < |fs.inodes| && i != ino ==> a.inodes[i] == fs.inodes[i]
    ensures bn < nb ==> a == fs
    ensures FreeCount(a.marked) == FreeCount(fs.marked) - (if bn == nb then TreeSize(nb + 1) - TreeSize(nb) else 0)
  {
    hide Word, InUse, Ptr, DataSlot, TreeSize;
    MissingNext(fs, ino, nb, bn);
    DataSlotIs(|fs.inodes|, ino, bn);
    PathEnd(ino, bn);
    if bn == nb { GrownShape(fs, a, first, o, oa, ino, nb); }
    forall i: nat, n: nat {:trigger BlockOf(a, i, n)} |
      i < |fs.inodes| && n < MAXFILE && IsSlot(|fs.inodes|, DataSlot(i, n)) && Ptr(fs, DataSlot(i, n)) != 0
      ensures BlockOf(a, i, n) == BlockOf(fs, i, n)
    {
      GrownByte(fs, a, first, o, oa, (set s | s in Path(ino, bn)), i, n);
    }
    forall i | 0 <= i < |fs.inodes| && i != ino
      ensures a.inodes[i] == fs.inodes[i]
    {
      forall k | 0 <= k < NADDRS
        ensures a.inodes[i].addrs[k] == fs.inodes[i].addrs[k]
      {
        PathIno(ino, bn, Root(i, k));
      }
      assert a.inodes[i].addrs == fs.inodes[i].addrs;
    }
  }

  lemma PathEnd(ino: nat, bn: nat)
    requires bn < MAXFILE
    ensures |Path(ino, bn)| > 0 && Path(ino, bn)[|Path(ino, bn)| - 1] == DataSlot(ino, bn)
  {
  }

  /** Everything known after bmap and the copy into the block, in one iteration. */
  ghost predicate Copied(fs: Fs, a: Fs, c: Fs, ino: nat, bn: nat, data: Block) {
    && fs.Wf() && a.Wf() && c.Wf() && SameSizes(fs, a) && SameSizes(fs, c) && ino < |fs.inodes| && bn < MAXFILE
    && c.inodes == a.inodes && c.marked == a.marked
    && BlockOf(c, ino, bn) == data
    && (forall i: nat, n: nat {:trigger BlockOf(c, i, n)} ::
          (i < |fs.inodes| && n < MAXFILE && (i != ino || n != bn)
           && IsSlot(|fs.inodes|, DataSlot(i, n)) && Ptr(fs, DataSlot(i, n)) != 0) ==>
          BlockOf(c, i, n) == BlockOf(fs, i, n))
  }

  lemma InFile(fs: Fs, ino: nat, nb: nat, bn: nat)
    requires Shaped(fs, ino, nb) && bn < nb <= MAXFILE
    ensures IsSlot(|fs.inodes|, DataSlot(ino, bn)) && Ptr(fs, DataSlot(ino, bn)) != 0
  {
    hide Word, InUse, DataSlot;
    DataSlotIs(|fs.inodes|, ino, bn);
  }

  /** Where byte `k` lies relative to the chunk being written. */
  lemma ChunkCases(size: nat, off: nat, tot: nat, m: nat, k: nat)
    requires off <= size && 0 < m <= BSIZE - (off + tot) % BSIZE && k < Max(size, off + tot + m)
    ensures var bn, nb := (off + tot) / BSIZE, Reach(size, off + tot);
            && (off + tot <= k < off + tot + m ==>
                  k / BSIZE == bn && k % BSIZE == (off + tot) % BSIZE + (k - off - tot))
            && (!(off + tot <= k < off + tot + m) ==> k < Max(size, off + tot) && k / BSIZE < nb)
            && (k / BSIZE == bn == nb ==> off + tot <= k < off + tot + m)
            && (k / BSIZE == bn && !(off + tot <= k < off + tot + m) ==>
                  k % BSIZE < (off + tot) % BSIZE || k % BSIZE >= (off + tot) % BSIZE + m)
  {
  }

  lemma BytesStep(fs0: Fs, fs: Fs, a: Fs, c: Fs, first: nat, o: map<nat, Slot>, ino: nat, off: nat, src: seq<Byte>,
                  tot: nat, m: nat)
    requires Writing(fs0, fs, first, o, ino, off, src, tot) && 0 < m <= BSIZE - (off + tot) % BSIZE && tot + m <= |src|
    requires var bn := (off + tot) / BSIZE;
             && bn < MAXFILE && a.Wf() && |a.inodes| == |fs.inodes|
             && (bn < Reach(fs0.inodes[ino].size, off + tot) ==> BlockOf(a, ino, bn) == BlockOf(fs, ino, bn))
             && Copied(fs, a, c, ino, bn, Overwrite(BlockOf(a, ino, bn), (off + tot) % BSIZE, src[tot..tot + m]))
    ensures Wrote(fs0, c, ino, off, src, tot + m)
  {
    hide Word, InUse, DataSlot, Ptr, Reach, BlockOf;
    var size, bn := fs0.inodes[ino].size, (off + tot) / BSIZE;
    var nb := Reach(size, off + tot);
    ReachBound(size, off + tot);
    forall k {:trigger FileByte(c, ino, k)} | 0 <= k < MAXBYTES && k < Max(size, off + (tot + m))
      ensures FileByte(c, ino, k) == if off <= k < off + (tot + m) then src[k - off] else FileByte(fs0, ino, k)
    {
      ChunkCases(size, off, tot, m, k);
      if k / BSIZE == bn {
        if !(off + tot <= k < off + tot + m) {
          assert FileByte(c, ino, k) == FileByte(fs, ino, k);
        }
      } else {
        InFile(fs, ino, nb, k / BSIZE);
        assert FileByte(c, ino, k) == FileByte(fs, ino, k);
      }
    }
  }

  lemma ReachBound(size: nat, end: nat)
    requires size <= MAXBYTES && end <= MAXBYTES
    ensures Reach(size, end) <= MAXFILE
  {
  }

  lemma OthersStep(fs0: Fs, fs: Fs, a: Fs, c: Fs, ino: nat, bn: nat, data: Block)
    requires fs0.Wf() && |fs0.inodes| == |fs.inodes| && Copied(fs, a, c, ino, bn, data) && OthersSame(fs0, fs, ino)
    requires forall i {:trigger fs0.inodes[i]} :: 0 <= i < |fs0.inodes| ==> fs0.inodes[i].size <= MAXBYTES
    requires forall i :: 0 <= i < |fs.inodes| && i != ino ==> a.inodes[i] == fs.inodes[i]
    requires forall i: nat, n: nat :: i < |fs.inodes| && i != ino && Shaped(fs, i, n) ==> Shaped(c, i, n)
    ensures OthersSame(fs0, c, ino)
  {
    hide Word, InUse, DataSlot, Ptr, BlockOf;
    forall i {:trigger c.inodes[i]} | 0 <= i < |c.inodes| && i != ino
      ensures c.inodes[i] == fs0.inodes[i] && Shaped(c, i, BlockCount(fs0.inodes[i].size)) && SameFile(fs0, c, i)
    {
      assert fs.inodes[i] == fs0.inodes[i] && SameFile(fs0, fs, i);
      forall k | 0 <= k < MAXBYTES && k < fs0.inodes[i].size
        ensures FileByte(c, i, k) == FileByte(fs0, i, k)
      {
        InFile(fs, i, BlockCount(fs0.inodes[i].size), k / BSIZE);
        assert BlockOf(c, i, k / BSIZE) == BlockOf(fs, i, k / BSIZE);
        assert FileByte(fs, i, k) == FileByte(fs0, i, k);
      }
    }
  }

  /** bmap and the copy together. */
  lemma CopyStep(fs: Fs, a: Fs, first: nat, o: map<nat, Slot>, oa: map<nat, Slot>, ino: nat, bn: nat, nb: nat,
                 addr: nat, data: Block)
    requires Owned(fs, first, o) && Shaped(fs, ino, nb) && bn <= nb <= MAXFILE && bn < MAXFILE
    requires Mapped(fs, a, first, o, oa, Path(ino, bn), addr)
    ensures a.Wf() && IsSlot(|a.inodes|, DataSlot(ino, bn)) && 0 < addr == Ptr(a, DataSlot(ino, bn)) < |a.blocks|
    ensures Copied(fs, a, PutBlock(a, ino, bn, data), ino, bn, data)
    ensures Owned(PutBlock(a, ino, bn, data), first, oa)
    ensures Shaped(PutBlock(a, ino, bn, data), ino, if bn == nb then nb + 1 else nb)
    ensures forall i: nat, n: nat :: i < |fs.inodes| && i != ino && Shaped(fs, i, n) ==>
              Shaped(PutBlock(a, ino, bn, data), i, n)
  {
    hide Word, InUse, DataSlot, Ptr, BlockOf, TreeSize;
    MapStep(fs, a, first, o, oa, ino, bn, nb, addr);
    PutBlockPtrs(a, first, oa, ino, bn, data);
    PutBlockEffect(a, first, oa, ino, bn, data);
  }

  /** One iteration of the write loop. */
  lemma WriteStep(fs0: Fs, fs: Fs, a: Fs, first: nat, o: map<nat, Slot>, oa: map<nat, Slot>, ino: nat, off: nat,
                  src: seq<Byte>, tot: nat, m: nat, addr: nat)
    requires Writing(fs0, fs, first, o, ino, off, src, tot) && 0 < m <= BSIZE - (off + tot) % BSIZE && tot + m <= |src|
    requires (off + tot) / BSIZE < MAXFILE && Mapped(fs, a, first, o, oa, Path(ino, (off + tot) / BSIZE), addr)
    ensures var bn := (off + tot) / BSIZE;
            && a.Wf() && IsSlot(|a.inodes|, DataSlot(ino, bn)) && ino < |a.inodes|
            && 0 < addr == Ptr(a, DataSlot(ino, bn)) < |a.blocks|
            && BlockOf(a, ino, bn) == a.blocks[addr]
            && var data := Overwrite(BlockOf(a, ino, bn), (off + tot) % BSIZE, src[tot..tot + m]);
               && PutBlock(a, ino, bn, data) == Fs(a.marked, a.blocks[addr := data], a.inodes)
               && Writing(fs0, PutBlock(a, ino, bn, data), first, oa, ino, off, src, tot + m)
               && |a.inodes| == |fs0.inodes|
  {
    hide Word, InUse, DataSlot, Ptr, TreeSize, FileByte, Missing, Wrote, Shaped, OthersSame, Owned, FreeCount, Path;
    var size, bn := fs0.inodes[ino].size, (off + tot) / BSIZE;
    var nb := Reach(size, off + tot);
    ReachBound(size, off + tot);
    NextBlock(size, off, tot, m);
    MapStep(fs, a, first, o, oa, ino, bn, nb, addr);
    var data := Overwrite(BlockOf(a, ino, bn), (off + tot) % BSIZE, src[tot..tot + m]);
    CopyStep(fs, a, first, o, oa, ino, bn, nb, addr, data);
    var c := PutBlock(a, ino, bn, data);
    BytesStep(fs0, fs, a, c, first, o, ino, off, src, tot, m);
    OthersStep(fs0, fs, a, c, ino, bn, data);
    assert SameSizes(fs0, c);
  }

  // ----- the end of the write ----------------------------------------------

  /** The file system after the size of an inode is set. */
  function Resize(fs: Fs, ino: nat, size: nat): (r: Fs)
    requires ino < |fs.inodes|
  {
    Fs(fs.marked, fs.blocks, fs.inodes[ino := Inode(fs.inodes[ino].addrs, size)])
  }

  lemma ResizePtrs(fs: Fs, ino: nat, size: nat)
    requires fs.Wf() && ino < |fs.inodes|
    ensures Resize(fs, ino, size).Wf()
    ensures forall s {:trigger Ptr(Resize(fs, ino, size), s)} :: IsSlot(|fs.inodes|, s) ==>
              Ptr(Resize(fs, ino, size), s) == Ptr(fs, s)
    ensures forall i: nat, n: nat :: i < |fs.inodes| && Shaped(fs, i, n) ==> Shaped(Resize(fs, ino, size), i, n)
    ensures forall i: nat, k: nat {:trigger FileByte(Resize(fs, ino, size), i, k)} ::
              i < |fs.inodes| && k < MAXBYTES ==> FileByte(Resize(fs, ino, size), i, k) == FileByte(fs, i, k)
  {
    hide Word, InUse, DataSlot;
    var r := Resize(fs, ino, size);
    assert r.Wf();
    assert forall s {:trigger Ptr(r, s)} :: IsSlot(|fs.inodes|, s) ==> Ptr(r, s) == Ptr(fs, s);
    forall i: nat, k: nat {:trigger FileByte(r, i, k)} | i < |fs.inodes| && k < MAXBYTES
      ensures FileByte(r, i, k) == FileByte(fs, i, k)
    {
      DataSlotIs(|fs.inodes|, i, k / BSIZE);
      assert Ptr(r, DataSlot(i, k / BSIZE)) == Ptr(fs, DataSlot(i, k / BSIZE));
    }
  }

  lemma ResizeOwned(fs: Fs, first: nat, owner: map<nat, Slot>, ino: nat, size: nat)
    requires Owned(fs, first, owner) && ino < |fs.inodes|
    ensures Owned(Resize(fs, ino, size), first, owner)
  {
    hide Word, Ptr;
    ResizePtrs(fs, ino, size);
  }

  /** The state inode_write leaves: `size` grown if the write went beyond it. */
  function Finish(fs: Fs, ino: nat, end: nat): (r: Fs)
    requires ino < |fs.inodes|
  {
    Resize(fs, ino, Max(fs.inodes[ino].size, end))
  }

  lemma FinishShape(fs0: Fs, fs: Fs, first: nat, owner: map<nat, Slot>, ino: nat, off: nat, src: seq<Byte>)
    requires Writing(fs0, fs, first, owner, ino, off, src, |src|)
    ensures Owned(Finish(fs, ino, off + |src|), first, owner)
    ensures NoHoles(Finish(fs, ino, off + |src|))
  {
    hide Word, InUse, Ptr, FileByte, TreeSize;
    var size := Max(fs.inodes[ino].size, off + |src|);
    ResizePtrs(fs, ino, size);
    ResizeOwned(fs, first, owner, ino, size);
    var r := Resize(fs, ino, size);
    forall i {:trigger r.inodes[i]} | 0 <= i < |r.inodes|
      ensures r.inodes[i].size <= MAXFILE * BSIZE && Shaped(r, i, BlockCount(r.inodes[i].size))
    {
      if i != ino { assert fs.inodes[i] == fs0.inodes[i]; }
    }
  }

  /** The refinement: the file's byte string has been spliced, the others are as before. */
  lemma FinishContents(fs0: Fs, fs: Fs, first: nat, owner: map<nat, Slot>, ino: nat, off: nat, src: seq<Byte>)
    requires Writing(fs0, fs, first, owner, ino, off, src, |src|)
    ensures var r := Finish(fs, ino, off + |src|);
            && r.Wf() && |r.inodes| == |fs0.inodes| && r.inodes[ino].size <= MAXBYTES
            && Contents(r, ino) == Splice(Contents(fs0, ino), off, src)
            && forall i :: 0 <= i < |r.inodes| && i != ino ==>
                 r.inodes[i] == fs0.inodes[i] && Contents(r, i) == Contents(fs0, i)
  {
    hide Word, InUse, Ptr, FileByte, TreeSize, Owned;
    var size := Max(fs.inodes[ino].size, off + |src|);
    var r := Resize(fs, ino, size);
    OwnedWf(fs, first, owner);
    ResizePtrs(fs, ino, size);
    var c, want := Contents(r, ino), Splice(Contents(fs0, ino), off, src);
    assert |c| == |want|;
    forall k | 0 <= k < |c|
      ensures c[k] == want[k]
    {
      assert c[k] == FileByte(r, ino, k) == FileByte(fs, ino, k);
    }
    assert c == want;
    forall i | 0 <= i < |r.inodes| && i != ino
      ensures r.inodes[i] == fs0.inodes[i] && Contents(r, i) == Contents(fs0, i)
    {
      assert fs.inodes[i] == fs0.inodes[i] && SameFile(fs0, fs, i);
      forall k | 0 <= k < fs0.inodes[i].size
        ensures Contents(r, i)[k] == Contents(fs0, i)[k]
      {
        assert FileByte(r, i, k) == FileByte(fs, i, k) == FileByte(fs0, i, k);
      }
    }
  }

  /** What a successful write has done, seen from outside. */
  ghost predicate WriteDone(fs0: Fs, fs: Fs, ino: nat, off: nat, src: seq<Byte>) {
    && fs0.Wf() && fs.Wf() && ino < |fs0.inodes| == |fs.inodes|
    && off <= fs0.inodes[ino].size <= MAXBYTES && fs.inodes[ino].size <= MAXBYTES
    && Contents(fs, ino) == Splice(Contents(fs0, ino), off, src)
    && (forall i {:trigger fs.inodes[i]} :: 0 <= i < |fs.inodes| && i != ino ==>
          fs.inodes[i] == fs0.inodes[i] && fs0.inodes[i].size <= MAXBYTES && Contents(fs, i) == Contents(fs0, i))
    && FreeCount(fs.marked) == FreeCount(fs0.marked)
         - (TreeSize(BlockCount(fs.inodes[ino].size)) - TreeSize(BlockCount(fs0.inodes[ino].size)))
  }

  /** An upper bound on the blocks one inode_write call logs: one for each block it touches,
      five more for each block it appends (up to three bitmap and two table blocks), the inode. */
  function WriteBudget(size: nat, off: nat, n: nat): (k: int) {
    Spanned(off, n) + 5 * (Reach(size, off + n) - BlockCount(size)) + 1
  }

  lemma SizeBound(fs: Fs, ino: nat)
    requires NoHoles(fs) && ino < |fs.inodes|
    ensures fs.Wf() && fs.inodes[ino].size <= MAXBYTES
  {
  }

  lemma BeforeMap(fs0: Fs, fs: Fs, first: nat, o: map<nat, Slot>, ino: nat, off: nat, src: seq<Byte>, tot: nat)
    requires Writing(fs0, fs, first, o, ino, off, src, tot) && tot < |src|
    ensures (off + tot) / BSIZE < MAXFILE && Owned(fs, first, o) && fs.Wf() && |fs.inodes| == |fs0.inodes|
    ensures off <= fs.inodes[ino].size == fs0.inodes[ino].size
    ensures forall s :: s in Path(ino, (off + tot) / BSIZE) ==> IsSlot(|fs.inodes|, s)
    ensures var bn, nb := (off + tot) / BSIZE, Reach(fs0.inodes[ino].size, off + tot);
            && bn <= nb
            && (bn < nb ==> Missing(fs, Path(ino, bn)) == 0)
            && (bn == nb ==> Missing(fs, Path(ino, bn)) > 0)
  {
    hide Word, Ptr, InUse, FileByte, TreeSize, Path;
    var bn, nb := (off + tot) / BSIZE, Reach(fs0.inodes[ino].size, off + tot);
    NextBlock(fs0.inodes[ino].size, off, tot, 1);
    ReachBound(fs0.inodes[ino].size, off + tot);
    MissingNext(fs, ino, nb, bn);
  }

  /** If bmap runs out, the pool was too small for the whole write. */
  lemma OutOfBlocks(fs0: Fs, fs: Fs, first: nat, o: map<nat, Slot>, ino: nat, off: nat, src: seq<Byte>, tot: nat,
                    m: nat)
    requires Writing(fs0, fs, first, o, ino, off, src, tot) && 0 < m <= BSIZE - (off + tot) % BSIZE && tot + m <= |src|
    requires (off + tot) / BSIZE < MAXFILE
    requires forall s :: s in Path(ino, (off + tot) / BSIZE) ==> IsSlot(|fs.inodes|, s)
    requires Missing(fs, Path(ino, (off + tot) / BSIZE)) > FreeCount(fs.marked)
    ensures TreeSize(Reach(fs0.inodes[ino].size, off + |src|)) - TreeSize(BlockCount(fs0.inodes[ino].size))
            > FreeCount(fs0.marked)
  {
    hide Word, Ptr, InUse, FileByte, TreeSize, Path;
    var size, bn := fs0.inodes[ino].size, (off + tot) / BSIZE;
    var nb := Reach(size, off + tot);
    NextBlock(size, off, tot, m);
    ReachBound(size, off + tot);
    MissingNext(fs, ino, nb, bn);
    ReachMonotone(size, off + tot + m, off + |src|);
    TreeMonotone(nb + 1, Reach(size, off + |src|));
  }

  lemma ReachMonotone(size: nat, a: nat, b: nat)
    requires a <= b
    ensures Reach(size, a) <= Reach(size, b)
  {
  }

  /** When the loop is done there were enough blocks, and memory agrees with the inode blocks
      unless the size is about to be changed. */
  lemma WriteEnd(fs0: Fs, fs: Fs, first: nat, owner: map<nat, Slot>, ino: nat, off: nat, src: seq<Byte>)
    requires Writing(fs0, fs, first, owner, ino, off, src, |src|)
    ensures var end, size := off + |src|, fs0.inodes[ino].size;
            && fs.Wf() && |fs.inodes| == |fs0.inodes| && fs.inodes[ino].size == size
            && TreeSize(Reach(size, end)) - TreeSize(BlockCount(size)) <= FreeCount(fs0.marked)
            && (end <= size ==> Finish(fs, ino, end) == fs && fs.inodes == fs0.inodes)
            && (end > size ==> Finish(fs, ino, end).inodes == fs0.inodes[ino := Inode(fs.inodes[ino].addrs, end)])
            && WriteDone(fs0, Finish(fs, ino, end), ino, off, src)
  {
    hide Word, Ptr, InUse, FileByte, TreeSize, Contents, Shaped;
    FinishContents(fs0, fs, first, owner, ino, off, src);
    var end, size := off + |src|, fs0.inodes[ino].size;
    var r := Finish(fs, ino, end);
    if end > size {
      var want := fs0.inodes[ino := Inode(fs.inodes[ino].addrs, end)];
      forall i | 0 <= i < |r.inodes|
        ensures r.inodes[i] == want[i]
      {
      }
      assert r.inodes == want;
    } else {
      assert r.inodes == fs.inodes;
    }
  }

  lemma LoggedStep(l: set<nat>, l': set<nat>, touched: set<nat>, addr: nat, missing: nat)
    requires missing == 0 ==> l' == l + {addr}
    requires missing > 0 ==> l' <= l + touched && |touched| <= 6
    ensures |l'| <= |l| + (if missing == 0 then 1 else 6)
  {
    if missing > 0 {
      Cardinality(l', l + touched);
      UnionBound(l, touched);
    } else {
      UnionBound(l, {addr});
    }
  }

  lemma {:induction false} Cardinality(a: set<nat>, b: set<nat>)
    requires a <= b
    ensures |a| <= |b|
    decreases |a|
  {
    if a != {} {
      var x :| x in a;
      Cardinality(a - {x}, b - {x});
    }
  }

  lemma UnionBound(a: set<nat>, b: set<nat>)
    ensures |a + b| <= |a| + |b|
  {
    assert a + b == a + (b - a);
    Cardinality(b - a, b);
    assert a !! (b - a);
  }

  lemma SpanStart(size: nat, off: nat)
    requires off <= size
    ensures Spanned(off, 0) == 0 && Reach(size, off + 0) == BlockCount(size)
  {
  }

  /** Each iteration handles one more block. */
  lemma SpannedStep(off: nat, tot: nat, m: nat, n: nat)
    requires tot < n && m == Min(n - tot, BSIZE - (off + tot) % BSIZE)
    requires 0 < tot ==> (off + tot) % BSIZE == 0
    ensures 0 < m && Spanned(off, tot + m) == Spanned(off, tot) + 1
    ensures tot + m < n ==> (off + tot + m) % BSIZE == 0
  {
  }
}

/** One iteration of inode_read (kernel/fs.c), on the file's bytes. */
module FileRead {
  import opened Blocks
  import opened BlockTree
  import opened FileShape
  import opened FileContents
  import opened BlockMap
  import opened FileWrite

  /** Every block below the file size exists, so bmap has nothing to allocate. */
  lemma ReadBlock(fs: Fs, first: nat, o: map<nat, Slot>, ino: nat, off: nat)
    requires Owned(fs, first, o) && ino < |fs.inodes| && off < fs.inodes[ino].size <= MAXBYTES
    requires Shaped(fs, ino, BlockCount(fs.inodes[ino].size))
    ensures off / BSIZE < MAXFILE
    ensures forall s :: s in Path(ino, off / BSIZE) ==> IsSlot(|fs.inodes|, s)
    ensures Missing(fs, Path(ino, off / BSIZE)) == 0
  {
    hide Word, InUse, Path, Ptr, TreeSize;
    MissingNext(fs, ino, BlockCount(fs.inodes[ino].size), off / BSIZE);
  }

  lemma MappedNone(fs: Fs, fs': Fs, first: nat, o: map<nat, Slot>, o': map<nat, Slot>, path: seq<Slot>, addr: nat)
    requires Mapped(fs, fs', first, o, o', path, addr) && Missing(fs, path) == 0
    ensures fs' == fs && o' == o && |path| > 0 && addr == Ptr(fs, path[|path| - 1]) != 0
  {
  }

  /** The bytes copied from one block are the next bytes of the file. */
  lemma ReadChunk(fs: Fs, first: nat, o: map<nat, Slot>, ino: nat, off: nat, m: nat, addr: nat)
    requires Owned(fs, first, o) && ino < |fs.inodes| && off / BSIZE < MAXFILE && fs.inodes[ino].size <= MAXBYTES
    requires 0 < m <= BSIZE - off % BSIZE && off + m <= fs.inodes[ino].size
    requires |Path(ino, off / BSIZE)| > 0 && IsSlot(|fs.inodes|, Path(ino, off / BSIZE)[|Path(ino, off / BSIZE)| - 1])
    requires addr == Ptr(fs, Path(ino, off / BSIZE)[|Path(ino, off / BSIZE)| - 1]) != 0
    ensures addr < |fs.blocks|
    ensures fs.blocks[addr][off % BSIZE..off % BSIZE + m] == Contents(fs, ino)[off..off + m]
  {
    hide Word, InUse, Path, Ptr, DataSlot;
    PathEnd(ino, off / BSIZE);
    var c, d := Contents(fs, ino)[off..off + m], fs.blocks[addr][off % BSIZE..off % BSIZE + m];
    forall k | 0 <= k < m
      ensures c[k] == d[k]
    {
      assert (off + k) / BSIZE == off / BSIZE && (off + k) % BSIZE == off % BSIZE + k;
      assert c[k] == FileByte(fs, ino, off + k);
    }
  }
}

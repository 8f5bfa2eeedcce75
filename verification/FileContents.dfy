/** The bytes of a file (kernel/fs.c), read through its block tree. */
module FileContents {
  import opened Blocks
  import opened BlockTree
  import opened FileShape

  const MAXBYTES := 134758400     // MAXFILE * BSIZE

  /** The block that holds block number `bn` of a file. */
  function BlockOf(fs: Fs, ino: nat, bn: nat): (b: Block)
    requires fs.Wf() && ino < |fs.inodes| && bn < MAXFILE
  {
    DataSlotIs(|fs.inodes|, ino, bn);
    var p := Ptr(fs, DataSlot(ino, bn));
    if 0 < p < |fs.blocks| then fs.blocks[p] else ZeroBlock()
  }

  function FileByte(fs: Fs, ino: nat, k: nat): (x: Byte)
    requires fs.Wf() && ino < |fs.inodes| && k < MAXBYTES
  {
    BlockOf(fs, ino, k / BSIZE)[k % BSIZE]
  }

  /** The file as a byte string. */
  function Contents(fs: Fs, ino: nat): (c: seq<Byte>)
    requires fs.Wf() && ino < |fs.inodes| && fs.inodes[ino].size <= MAXBYTES
    ensures |c| == fs.inodes[ino].size
  {
    seq(fs.inodes[ino].size, k requires 0 <= k < fs.inodes[ino].size => FileByte(fs, ino, k))
  }

  /** `data` written over `c` from offset `off` on. */
  function Splice(c: seq<Byte>, off: nat, data: seq<Byte>): (r: seq<Byte>)
    requires off <= |c|
    ensures |r| == if off + |data| > |c| then off + |data| else |c|
  {
    if off + |data| >= |c| then c[..off] + data else c[..off] + data + c[off + |data|..]
  }

  /** Byte by byte: what is written is there, and every other byte is as it was. */
  lemma SpliceBytes(c: seq<Byte>, off: nat, data: seq<Byte>, k: nat)
    requires off <= |c| && k < |Splice(c, off, data)|
    ensures Splice(c, off, data)[k] == if off <= k < off + |data| then data[k - off] else if k < |c| then c[k] else 0
  {
    assert k < |c| || k < off + |data|;
  }

  /** Writing a file in two pieces is writing it in one. */
  lemma SpliceSplice(c: seq<Byte>, off: nat, a: seq<Byte>, b: seq<Byte>)
    requires off <= |c|
    ensures Splice(Splice(c, off, a), off + |a|, b) == Splice(c, off, a + b)
  {
  }

  ghost predicate SameFile(fs: Fs, fs': Fs, i: nat)
    requires fs.Wf() && fs'.Wf() && i < |fs.inodes| == |fs'.inodes|
  {
    forall k :: 0 <= k < MAXBYTES && k < fs.inodes[i].size ==> FileByte(fs', i, k) == FileByte(fs, i, k)
  }

  /** Growing a tree moves no byte of any file. */
  lemma GrownByte(fs: Fs, fs': Fs, first: nat, owner: map<nat, Slot>, owner': map<nat, Slot>, path: set<Slot>,
                  i: nat, bn: nat)
    requires Grown(fs, fs', first, owner, owner', path) && i < |fs.inodes| && bn < MAXFILE
    requires IsSlot(|fs.inodes|, DataSlot(i, bn)) && Ptr(fs, DataSlot(i, bn)) != 0
    ensures BlockOf(fs', i, bn) == BlockOf(fs, i, bn)
  {
    hide Word;
    DataSlotIs(|fs.inodes|, i, bn);
    var s := DataSlot(i, bn);
    assert Ptr(fs', s) == Ptr(fs, s);
    assert owner[Ptr(fs, s)] == s;
  }

  /** A file system with the data block of (`ino`, `bn`) replaced. */
  function PutBlock(fs: Fs, ino: nat, bn: nat, data: Block): (r: Fs)
    requires fs.Wf() && ino < |fs.inodes| && bn < MAXFILE
    requires IsSlot(|fs.inodes|, DataSlot(ino, bn)) && 0 < Ptr(fs, DataSlot(ino, bn)) < |fs.blocks|
  {
    Fs(fs.marked, fs.blocks[Ptr(fs, DataSlot(ino, bn)) := data], fs.inodes)
  }

  /** Writing a data block leaves every tree as it is. */
  lemma PutBlockPtrs(fs: Fs, first: nat, owner: map<nat, Slot>, ino: nat, bn: nat, data: Block)
    requires Owned(fs, first, owner) && ino < |fs.inodes| && bn < MAXFILE
    requires IsSlot(|fs.inodes|, DataSlot(ino, bn)) && Ptr(fs, DataSlot(ino, bn)) != 0
    ensures Ptr(fs, DataSlot(ino, bn)) < |fs.blocks|
    ensures PutBlock(fs, ino, bn, data).Wf()
    ensures forall s {:trigger Ptr(PutBlock(fs, ino, bn, data), s)} ::
              IsSlot(|fs.inodes|, s) ==> Ptr(PutBlock(fs, ino, bn, data), s) == Ptr(fs, s)
    ensures Owned(PutBlock(fs, ino, bn, data), first, owner)
  {
    hide Word;
    DataSlotIs(|fs.inodes|, ino, bn);
    var fs' := PutBlock(fs, ino, bn, data);
    assert fs'.Wf();
    forall s {:trigger Ptr(fs', s)} | IsSlot(|fs.inodes|, s)
      ensures Ptr(fs', s) == Ptr(fs, s)
    {
      PtrFrame(fs, fs', first, owner, s);
    }
  }

  /** ... keeps every shape, and changes exactly one block of one file. */
  lemma PutBlockEffect(fs: Fs, first: nat, owner: map<nat, Slot>, ino: nat, bn: nat, data: Block)
    requires Owned(fs, first, owner) && ino < |fs.inodes| && bn < MAXFILE
    requires IsSlot(|fs.inodes|, DataSlot(ino, bn)) && Ptr(fs, DataSlot(ino, bn)) != 0
    ensures Ptr(fs, DataSlot(ino, bn)) < |fs.blocks|
    ensures PutBlock(fs, ino, bn, data).Wf()
    ensures forall i: nat, n: nat :: i < |fs.inodes| && Shaped(fs, i, n) ==> Shaped(PutBlock(fs, ino, bn, data), i, n)
    ensures BlockOf(PutBlock(fs, ino, bn, data), ino, bn) == data
    ensures forall i: nat, n: nat :: i < |fs.inodes| && n < MAXFILE && (i != ino || n != bn) ==>
              BlockOf(PutBlock(fs, ino, bn, data), i, n) == BlockOf(fs, i, n)
  {
    hide Word, InUse, DataSlot;
    PutBlockPtrs(fs, first, owner, ino, bn, data);
    var fs' := PutBlock(fs, ino, bn, data);
    DataSlotIs(|fs.inodes|, ino, bn);
    forall i: nat, n: nat | i < |fs.inodes| && n < MAXFILE && (i != ino || n != bn)
      ensures BlockOf(fs', i, n) == BlockOf(fs, i, n)
    {
      DataSlotIs(|fs.inodes|, i, n);
      if DataSlot(i, n) == DataSlot(ino, bn) { DataSlotInjective(i, n, ino, bn); }
      assert Ptr(fs', DataSlot(i, n)) == Ptr(fs, DataSlot(i, n));
    }
  }
}

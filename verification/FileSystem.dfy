/** kernel/fs.c: block allocation, the block map, truncation, reading and writing of
    inodes, on the blocks as the buffer cache presents them. */
module FileSystem {
  import opened Arithmetic
  import opened Blocks
  import opened Bitmap
  import opened BlockTree
  import opened FileShape
  import opened FileContents
  import opened BlockMap
  import opened FileWrite
  import opened FileRead
  import opened FileTruncate
  import opened InodeBlocks

  /** block_alloc returns -ENOSPC through an unsigned type. */
  const NOSPACE := 0xffff_ffff_ffff_ffe4

  datatype ReadResult = Bytes(data: seq<Byte>) | ReadDomainError
  /** NoSpace: block_alloc found no block, and the source panics on the address it returns. */
  datatype WriteResult = Written(n: nat) | DomainError | NoSpace

  lemma Slices(s: seq<Byte>, a: nat, b: nat, c: nat)
    requires a <= b <= c <= |s|
    ensures s[a..b] + s[b..c] == s[a..c]
  {
  }

  /** Addresses are block numbers, so an inode fits its place on the disk. */
  lemma OwnedStorable(fs: Fs, first: nat, owner: map<nat, Slot>, ino: nat)
    requires Owned(fs, first, owner) && ino < |fs.inodes| && fs.inodes[ino].size <= MAXBYTES
    ensures Storable(fs.inodes[ino])
  {
    hide Word;
    forall k | 0 <= k < NADDRS ensures fs.inodes[ino].addrs[k] < TWO64 {
      assert Ptr(fs, Root(ino, k)) == fs.inodes[ino].addrs[k];
    }
  }

  lemma DataAddr(fs: Fs, first: nat, owner: map<nat, Slot>, s: Slot, addr: nat)
    requires Owned(fs, first, owner) && IsSlot(|fs.inodes|, s) && addr == Ptr(fs, s) != 0
    ensures first <= addr < |fs.blocks|
  {
    hide Word;
  }

  lemma {:induction false} SubsetSize(a: set<nat>, b: set<nat>)
    requires a <= b
    ensures |a| <= |b|
  {
    if x :| x in a {
      SubsetSize(a - {x}, b - {x});
    }
  }

  lemma OneMoreEntry(parent: Slot, j: nat)
    requires j < NINDIRECT
    ensures (set k | 0 <= k < j + 1 :: Entry(parent, k)) ==
              (set k | 0 <= k < j :: Entry(parent, k)) + {Entry(parent, j)}
  {
  }

  /** What is on the disk: bitmap blocks, data blocks, inode blocks. */
  datatype Media = Media(bitmap: seq<Block>, blocks: seq<Block>, iblocks: seq<Block>)

  class Disk {
    /** Superblock: size in blocks, first data block, first bitmap and first inode block. */
    const nblocks: nat
    const first: nat
    const bmapstart: nat
    const inodestart: nat

    var bitmap: seq<Block>
    var blocks: seq<Block>
    /** The inodes in memory, and the blocks that hold their copies. */
    var inodes: seq<Inode>
    var iblocks: seq<Block>
    /** Who owns which data block. */
    ghost var owner: map<nat, Slot>
    /** The blocks handed to log_write since the operation began. */
    var logged: set<nat>

    ghost predicate Sized()
      reads this
    {
      nblocks <= |bitmap| * BPB && |blocks| == nblocks && nblocks < NOSPACE
    }

    ghost function State(): (fs: Fs)
      requires nblocks <= |bitmap| * BPB
      reads this
    {
      Fs(Marks(bitmap, nblocks), blocks, inodes)
    }

    /** Block ownership. */
    ghost predicate Valid()
      reads this
    {
      Sized() && Owned(State(), first, owner)
    }

    /** The inode blocks hold the inodes in memory. */
    ghost predicate UpToDate()
      reads this
    {
      |inodes| <= |iblocks| * IPB && Dinodes(iblocks, |inodes|) == inodes
    }

    /** Between operations: ownership, no holes, and the inode blocks are up to date. */
    ghost predicate Consistent()
      reads this
    {
      Valid() && NoHoles(State()) && UpToDate()
    }

    ghost function OnDisk(): Media
      reads this
    {
      Media(bitmap, blocks, iblocks)
    }

    /** `x` is a bitmap block, an inode block or a data block. */
    ghost predicate Place(m: Media, x: nat) {
      || bmapstart <= x < bmapstart + |m.bitmap|
      || inodestart <= x < inodestart + |m.iblocks|
      || first <= x < nblocks
    }

    /** From `a` to `b` exactly blocks that were logged may have changed: the log grew from `l0`
        to `l1`, by blocks of the file system proper. */
    ghost predicate Journaled(a: Media, b: Media, l0: set<nat>, l1: set<nat>) {
      && |b.bitmap| == |a.bitmap| && |b.blocks| == |a.blocks| && |b.iblocks| == |a.iblocks| && l0 <= l1
      && (forall k :: 0 <= k < |a.bitmap| && b.bitmap[k] != a.bitmap[k] ==> bmapstart + k in l1)
      && (forall k :: 0 <= k < |a.blocks| && b.blocks[k] != a.blocks[k] ==> first <= k && k in l1)
      && (forall k :: 0 <= k < |a.iblocks| && b.iblocks[k] != a.iblocks[k] ==> inodestart + k in l1)
      && (forall x :: x in l1 && x !in l0 ==> Place(a, x))
    }

    lemma Still(a: Media, l: set<nat>)
      ensures Journaled(a, a, l, l)
    {
    }

    /** A data block is written and logged. */
    lemma DataWrite(a: Media, b: nat, data: Block, l: set<nat>)
      requires first <= b < |a.blocks| && |a.blocks| == nblocks
      ensures Journaled(a, a.(blocks := a.blocks[b := data]), l, l + {b})
    {
    }

    /** A bitmap block is written and logged. */
    lemma BitWrite(a: Media, b: nat, v: bool, l: set<nat>)
      requires b / BPB < |a.bitmap|
      ensures Journaled(a, a.(bitmap := Put(a.bitmap, b, v)), l, l + {bmapstart + b / BPB})
    {
      hide WithBit, Pow2;
    }

    lemma Join(a: Media, b: Media, c: Media, l0: set<nat>, l1: set<nat>, l2: set<nat>)
      requires Journaled(a, b, l0, l1) && Journaled(b, c, l1, l2)
      ensures Journaled(a, c, l0, l2)
    {
    }

    /** The same where blocks were only given back: no block was logged but bitmap blocks. */
    ghost predicate Cleared(a: Media, b: Media, l0: set<nat>, l1: set<nat>) {
      Journaled(a, b, l0, l1) && forall x :: x in l1 && x !in l0 ==> bmapstart <= x < bmapstart + |a.bitmap|
    }

    lemma NothingCleared(a: Media, l: set<nat>)
      ensures Cleared(a, a, l, l)
    {
    }

    lemma BitCleared(a: Media, b: nat, l: set<nat>)
      requires b / BPB < |a.bitmap|
      ensures Cleared(a, a.(bitmap := Put(a.bitmap, b, false)), l, l + {bmapstart + b / BPB})
    {
      hide WithBit, Pow2;
      BitWrite(a, b, false, l);
    }

    lemma JoinCleared(a: Media, b: Media, c: Media, l0: set<nat>, l1: set<nat>, l2: set<nat>)
      requires Cleared(a, b, l0, l1) && Cleared(b, c, l1, l2)
      ensures Cleared(a, c, l0, l2)
    {
    }

    /** Giving blocks back logs at most the whole bitmap. */
    lemma ClearedCount(a: Media, b: Media, l0: set<nat>, l1: set<nat>)
      requires Cleared(a, b, l0, l1)
      ensures Journaled(a, b, l0, l1) && |l1| <= |l0| + |a.bitmap|
    {
      var u := BitmapBlocks(|a.bitmap|);
      assert l1 <= l0 + u;
      SubsetSize(l1, l0 + u);
      assert |l0 + u| == |l0| + |u - l0|;
      SubsetSize(u - l0, u);
    }

    ghost function BitmapBlocks(n: nat): (u: set<nat>)
      ensures |u| == n && forall x :: x in u <==> bmapstart <= x < bmapstart + n
    {
      if n == 0 then {} else BitmapBlocks(n - 1) + {bmapstart + n - 1}
    }

    lemma KeepsSizes(a: Media, b: Media, l0: set<nat>, l1: set<nat>)
      requires Journaled(a, b, l0, l1)
      ensures |b.bitmap| == |a.bitmap| && |b.blocks| == |a.blocks| && |b.iblocks| == |a.iblocks|
    {
    }

    /** A freshly made file system: metadata blocks marked, all inodes empty. */
    constructor (nblocks: nat, first: nat, bmapstart: nat, inodestart: nat, ninodes: nat)
      requires 1 <= first <= nblocks < NOSPACE
      ensures Consistent() && this.nblocks == nblocks && this.first == first
      ensures this.bmapstart == bmapstart && this.inodestart == inodestart
      ensures inodes == seq(ninodes, _ => Inode(NULLS, 0)) && owner == map[] && logged == {}
      ensures |bitmap| == nblocks / BPB + 1 && |iblocks| == ninodes / IPB + 1
    {
      hide Bit, WithBit, Word, LoadInode;
      this.nblocks, this.first, this.bmapstart, this.inodestart := nblocks, first, bmapstart, inodestart;
      var bm: seq<Block> := seq(nblocks / BPB + 1, _ => ZeroBlock());
      var b := 0;
      ZeroBitmap(bm, nblocks);
      while b < first
        invariant 0 <= b <= first && |bm| == nblocks / BPB + 1
        invariant forall c :: 0 <= c < nblocks ==> (Marks(bm, nblocks)[c] <==> c < b)
      {
        PutMarks(bm, b, true, nblocks);
        bm := Put(bm, b, true);
        b := b + 1;
      }
      bitmap := bm;
      blocks := seq(nblocks, _ => ZeroBlock());
      inodes := seq(ninodes, _ => Inode(NULLS, 0));
      iblocks := seq(ninodes / IPB + 1, _ => ZeroBlock());
      owner, logged := map[], {};
      new;
      EmptyConsistent(State(), first);
      forall i | 0 <= i < ninodes ensures Dinodes(iblocks, ninodes)[i] == inodes[i] { ZeroInode(i); }
    }

    /** The file system that a machine finds on its disk; inodes are read from their blocks. */
    constructor Load(nblocks: nat, first: nat, bmapstart: nat, inodestart: nat, m: Media, ninodes: nat,
                     ghost owner: map<nat, Slot>)
      requires nblocks <= |m.bitmap| * BPB && |m.blocks| == nblocks < NOSPACE && ninodes <= |m.iblocks| * IPB
      requires Owned(Fs(Marks(m.bitmap, nblocks), m.blocks, Dinodes(m.iblocks, ninodes)), first, owner)
      requires NoHoles(Fs(Marks(m.bitmap, nblocks), m.blocks, Dinodes(m.iblocks, ninodes)))
      ensures Consistent() && this.nblocks == nblocks && this.first == first
      ensures this.bmapstart == bmapstart && this.inodestart == inodestart
      ensures OnDisk() == m && inodes == Dinodes(m.iblocks, ninodes) && logged == {}
    {
      this.nblocks, this.first, this.bmapstart, this.inodestart := nblocks, first, bmapstart, inodestart;
      bitmap, blocks, iblocks := m.bitmap, m.blocks, m.iblocks;
      inodes := Dinodes(m.iblocks, ninodes);
      this.owner, logged := owner, {};
    }

    /** block_zero */
    method BlockZero(b: nat)
      requires Sized() && b < nblocks
      modifies this`blocks, this`logged
      ensures blocks == old(blocks)[b := ZeroBlock()] && logged == old(logged) + {b}
    {
      blocks := blocks[b := ZeroBlock()];
      logged := logged + {b};
    }

    /** The body of block_alloc's search: a free block is marked and zeroed. */
    method TakeBlock(b: nat)
      requires Sized() && b < nblocks
      modifies this`bitmap, this`blocks, this`logged
      ensures Sized() && State() == Mark(old(State()), b) && logged == old(logged) + {bmapstart + b / BPB, b}
      ensures first <= b ==> Journaled(old(OnDisk()), OnDisk(), old(logged), logged)
    {
      hide Bit, WithBit, Journaled, Put;
      PutMarks(bitmap, b, true, nblocks);
      BitWrite(OnDisk(), b, true, logged);
      bitmap := Put(bitmap, b, true);
      logged := logged + {bmapstart + b / BPB};
      ghost var m1, l1 := OnDisk(), logged;
      BlockZero(b);
      if first <= b {
        DataWrite(m1, b, ZeroBlock(), l1);
        Join(old(OnDisk()), m1, OnDisk(), old(logged), l1, logged);
      }
    }

    /** block_alloc: the lowest free block, marked and zeroed. */
    method BlockAlloc() returns (r: nat)
      requires Sized()
      modifies this`bitmap, this`blocks, this`logged
      ensures Sized()
      ensures r < nblocks ==>
                && !old(State()).marked[r] && (forall b :: 0 <= b < r ==> old(State()).marked[b])
                && State() == Mark(old(State()), r)
                && logged == old(logged) + {bmapstart + r / BPB, r}
      ensures r >= nblocks ==>
                && r == NOSPACE && (forall b :: 0 <= b < nblocks ==> old(State()).marked[b])
                && State() == old(State()) && logged == old(logged)
      ensures first <= r ==> Journaled(old(OnDisk()), OnDisk(), old(logged), logged)
    {
      hide Bit, WithBit, Journaled, Put;
      Still(OnDisk(), logged);
      var b := 0;
      while b < nblocks
        invariant b % BPB == 0 && Sized() && State() == old(State()) && OnDisk() == old(OnDisk())
                  && logged == old(logged)
        invariant forall c :: 0 <= c < b && c < nblocks ==> Test(bitmap, c)
        decreases nblocks - b
      {
        var bi := 0;
        while bi < BPB && b + bi < nblocks
          invariant 0 <= bi <= BPB && Sized() && State() == old(State()) && OnDisk() == old(OnDisk())
                    && logged == old(logged)
          invariant forall c :: 0 <= c < b + bi && c < nblocks ==> Test(bitmap, c)
        {
          if !Test(bitmap, b + bi) {
            TakeBlock(b + bi);
            return b + bi;
          }
          bi := bi + 1;
        }
        b := b + BPB;
      }
      return NOSPACE;
    }

    /** block_free; the source panics on a block that is free already. */
    method BlockFree(b: nat)
      requires Sized() && b < nblocks && State().marked[b]
      modifies this`bitmap, this`logged
      ensures Sized()
      ensures State() == Fs(old(State()).marked[b := false], blocks, inodes)
      ensures logged == old(logged) + {bmapstart + b / BPB}
      ensures Cleared(old(OnDisk()), OnDisk(), old(logged), logged)
    {
      hide Bit, WithBit, Journaled, Cleared, Put;
      PutMarks(bitmap, b, false, nblocks);
      BitCleared(OnDisk(), b, logged);
      bitmap := Put(bitmap, b, false);
      logged := logged + {bmapstart + b / BPB};
    }

    /** The step of bmap at an address in the inode: an address that is 0 gets a new block.
        `ok` is false where no block is left, after which the source panics on the address. */
    method FillRoot(ino: nat, k: nat) returns (addr: nat, ok: bool)
      requires Valid() && ino < |inodes| && k < NADDRS
      modifies this`bitmap, this`blocks, this`inodes, this`owner, this`logged
      ensures ok <==> Ptr(old(State()), Root(ino, k)) != 0 || FreeCount(old(State()).marked) > 0
      ensures ok ==> Valid() && Filled(old(State()), State(), first, old(owner), owner, Root(ino, k), addr)
      ensures ok ==> logged == if Ptr(old(State()), Root(ino, k)) != 0 then old(logged)
                               else old(logged) + {bmapstart + addr / BPB, addr}
      ensures Journaled(old(OnDisk()), OnDisk(), old(logged), logged)
    {
      hide Word, SetWord, Marks, Journaled;
      ghost var fs := State();
      Still(OnDisk(), logged);
      addr := inodes[ino].addrs[k];
      ok := true;
      if addr != 0 {
        GrownRefl(fs, first, owner, Root(ino, k));
        return;
      }
      addr := BlockAlloc();
      if addr >= nblocks {
        NoneFree(fs.marked);
        ok := false;
        return;
      }
      SomeFree(fs.marked, addr);
      GrowFills(fs, first, owner, Root(ino, k), addr);
      inodes := inodes[ino := Inode(inodes[ino].addrs[k := addr], inodes[ino].size)];
      owner := owner[addr := Root(ino, k)];
      assert State() == Grow(fs, Root(ino, k), addr);
    }

    /** An address goes into a table block. */
    method StoreEntry(table: nat, j: nat, addr: nat)
      requires Sized() && first <= table < nblocks && j < NINDIRECT
      modifies this`blocks, this`logged
      ensures blocks == old(blocks)[table := SetWord(old(blocks)[table], j, addr)] && logged == old(logged) + {table}
      ensures Journaled(old(OnDisk()), OnDisk(), old(logged), logged)
    {
      hide SetWord, Journaled;
      blocks := blocks[table := SetWord(blocks[table], j, addr)];
      logged := logged + {table};
      DataWrite(old(OnDisk()), table, blocks[table], old(logged));
    }

    /** The step of bmap at an address in a table block, which is logged when it changes. */
    method FillEntry(ghost s: Slot, table: nat, j: nat) returns (addr: nat, ok: bool)
      requires Valid() && IsSlot(|inodes|, s) && !s.Root? && s.j == j
      requires table == Table(State(), s) != 0
      modifies this`bitmap, this`blocks, this`owner, this`logged
      ensures ok <==> Ptr(old(State()), s) != 0 || FreeCount(old(State()).marked) > 0
      ensures ok ==> Valid() && Filled(old(State()), State(), first, old(owner), owner, s, addr)
      ensures ok ==> logged == if Ptr(old(State()), s) != 0 then old(logged)
                               else old(logged) + {bmapstart + addr / BPB, addr, table}
      ensures Journaled(old(OnDisk()), OnDisk(), old(logged), logged)
    {
      hide Word, SetWord, Marks, Grow, Ptr, Table, Filled, FreeCount, Journaled;
      ghost var fs := State();
      Still(OnDisk(), logged);
      EntryPtr(fs, first, owner, s);
      addr := Word(blocks[table], j);
      ok := true;
      if addr != 0 {
        AlreadyFilled(fs, first, owner, s);
        return;
      }
      addr := BlockAlloc();
      if addr >= nblocks {
        NoneFree(fs.marked);
        ok := false;
        return;
      }
      SomeFree(fs.marked, addr);
      GrowFills(fs, first, owner, s, addr);
      TableOwner(fs, first, owner, s);
      ghost var m1, l1 := OnDisk(), logged;
      StoreEntry(table, j, addr);
      Join(old(OnDisk()), m1, OnDisk(), old(logged), l1, logged);
      owner := owner[addr := s];
      assert State() == Grow(fs, s, addr);
    }

    /** bmap: the address of block `bn` of inode `ino`, allocating what its path lacks.
        It succeeds exactly if there are as many free blocks as the path lacks. */
    method Bmap(ino: nat, bn: nat) returns (addr: nat, ok: bool, ghost touched: set<nat>)
      requires Valid() && ino < |inodes| && bn < MAXFILE
      requires forall s :: s in Path(ino, bn) ==> IsSlot(|inodes|, s)
      modifies this`bitmap, this`blocks, this`inodes, this`owner, this`logged
      ensures ok <==> Missing(old(State()), Path(ino, bn)) <= FreeCount(old(State()).marked)
      ensures ok ==> Valid() && Mapped(old(State()), State(), first, old(owner), owner, Path(ino, bn), addr)
      ensures ok && Missing(old(State()), Path(ino, bn)) == 0 ==> logged == old(logged)
      ensures ok ==> |touched| <= 6 && logged <= old(logged) + touched
      ensures ok && Missing(old(State()), Path(ino, bn)) > 0 ==> addr in touched
      ensures Journaled(old(OnDisk()), OnDisk(), old(logged), logged)
    {
      hide Word, Marks, Grown, Ptr, Journaled;
      ghost var fs, o := State(), owner;
      touched := {};
      if bn < NDIRECT {
        addr, ok := FillRoot(ino, bn);
        MapFirst(fs, Root(ino, bn));
        if !ok { return; }
        MappedOne(fs, State(), first, o, owner, Root(ino, bn), addr);
        touched := {bmapstart + addr / BPB, addr};
        return;
      }
      if bn < DOUBLE {
        addr, touched, ok := BmapIndirect(ino, bn);
        return;
      }
      addr, touched, ok := BmapDouble(ino, bn);
    }

    /** Through a table named in the inode: what both indirect cases of bmap begin with. */
    method FillTwo(ino: nat, k: nat, j: nat) returns (addr: nat, ghost touched: set<nat>, ok: bool)
      requires Valid() && ino < |inodes| && NDIRECT <= k < NADDRS && j < NINDIRECT
      modifies this`bitmap, this`blocks, this`inodes, this`owner, this`logged
      ensures ok <==> Missing(old(State()), [Root(ino, k), Mid(ino, k, j)]) <= FreeCount(old(State()).marked)
      ensures ok ==> Valid()
                     && Mapped(old(State()), State(), first, old(owner), owner, [Root(ino, k), Mid(ino, k, j)], addr)
      ensures ok && Missing(old(State()), [Root(ino, k), Mid(ino, k, j)]) == 0 ==> logged == old(logged)
      ensures ok ==> |touched| <= 4 && logged <= old(logged) + touched && addr in touched
      ensures Journaled(old(OnDisk()), OnDisk(), old(logged), logged)
    {
      hide Word, Marks, Grown, Ptr, Table, Owned, Missing, Journaled;
      ghost var fs, o := State(), owner;
      ghost var s0, s1 := Root(ino, k), Mid(ino, k, j);
      OwnedWf(fs, first, o);
      assert [s0, s1] == [s0] + [s1];
      MapFirst(fs, s0);
      MissingAppend(fs, [s0], s1);
      touched := {};
      var t0;
      t0, ok := FillRoot(ino, k);
      if !ok { addr := 0; return; }
      ghost var a, oa := State(), owner;
      MappedOne(fs, a, first, o, oa, s0, t0);
      MappedFrame(fs, a, first, o, oa, [s0], t0, s1);
      RootTable(a, s1);
      ghost var m1, l1 := OnDisk(), logged;
      addr, ok := FillEntry(s1, t0, j);
      Join(old(OnDisk()), m1, OnDisk(), old(logged), l1, logged);
      if !ok { return; }
      MappedMore(fs, a, State(), first, o, oa, owner, [s0], t0, s1, addr);
      touched := {bmapstart + t0 / BPB, t0, bmapstart + addr / BPB, addr};
    }

    /** The single indirect case of bmap. */
    method BmapIndirect(ino: nat, bn: nat) returns (addr: nat, ghost touched: set<nat>, ok: bool)
      requires Valid() && ino < |inodes| && NDIRECT <= bn < DOUBLE
      requires forall s :: s in Path(ino, bn) ==> IsSlot(|inodes|, s)
      modifies this`bitmap, this`blocks, this`inodes, this`owner, this`logged
      ensures ok <==> Missing(old(State()), Path(ino, bn)) <= FreeCount(old(State()).marked)
      ensures ok ==> Valid() && Mapped(old(State()), State(), first, old(owner), owner, Path(ino, bn), addr)
      ensures ok && Missing(old(State()), Path(ino, bn)) == 0 ==> logged == old(logged)
      ensures ok ==> |touched| <= 6 && logged <= old(logged) + touched
      ensures ok && Missing(old(State()), Path(ino, bn)) > 0 ==> addr in touched
      ensures Journaled(old(OnDisk()), OnDisk(), old(logged), logged)
    {
      hide Word, Marks, Grown, Ptr, Owned, Missing, Mapped, Journaled;
      assert Path(ino, bn) == [Root(ino, NDIRECT), Mid(ino, NDIRECT, bn - NDIRECT)];
      addr, touched, ok := FillTwo(ino, NDIRECT, bn - NDIRECT);
    }

    /** The doubly indirect case of bmap. */
    method BmapDouble(ino: nat, bn: nat) returns (addr: nat, ghost touched: set<nat>, ok: bool)
      requires Valid() && ino < |inodes| && DOUBLE <= bn < MAXFILE
      requires forall s :: s in Path(ino, bn) ==> IsSlot(|inodes|, s)
      modifies this`bitmap, this`blocks, this`inodes, this`owner, this`logged
      ensures ok <==> Missing(old(State()), Path(ino, bn)) <= FreeCount(old(State()).marked)
      ensures ok ==> Valid() && Mapped(old(State()), State(), first, old(owner), owner, Path(ino, bn), addr)
      ensures ok && Missing(old(State()), Path(ino, bn)) == 0 ==> logged == old(logged)
      ensures ok ==> |touched| <= 6 && logged <= old(logged) + touched
      ensures ok && Missing(old(State()), Path(ino, bn)) > 0 ==> addr in touched
      ensures Journaled(old(OnDisk()), OnDisk(), old(logged), logged)
    {
      hide Word, Marks, Grown, Ptr, Table, Owned, Missing, Journaled;
      ghost var fs, o := State(), owner;
      var d := bn - DOUBLE;
      var i, j := d / NINDIRECT, d % NINDIRECT;
      ghost var path, s2 := [Root(ino, NDIRECT + 1), Mid(ino, NDIRECT + 1, i)], Leaf(ino, i, j);
      OwnedWf(fs, first, o);
      assert Path(ino, bn) == path + [s2];
      MissingAppend(fs, path, s2);
      var t1;
      t1, touched, ok := FillTwo(ino, NDIRECT + 1, i);
      if !ok { addr := 0; return; }
      ghost var b, ob := State(), owner;
      MappedFrame(fs, b, first, o, ob, path, t1, s2);
      MidTable(b, s2);
      ghost var m2, l2 := OnDisk(), logged;
      addr, ok := FillEntry(s2, t1, j);
      Join(old(OnDisk()), m2, OnDisk(), old(logged), l2, logged);
      if !ok { return; }
      MappedMore(fs, b, State(), first, o, ob, owner, path, t1, s2, addr);
      touched := touched + {bmapstart + addr / BPB, addr};
    }

    /** inode_update, for the fields that make up a file: the inode block now holds the size and
        the addresses in memory, and its other inodes stay as they are. */
    method InodeUpdate(ino: nat)
      requires ino < |inodes| <= |iblocks| * IPB && Storable(inodes[ino])
      modifies this`iblocks, this`logged
      ensures iblocks == old(iblocks)[ino / IPB := StoreInode(old(iblocks)[ino / IPB], ino, inodes[ino])]
      ensures Dinodes(iblocks, |inodes|) == Dinodes(old(iblocks), |inodes|)[ino := inodes[ino]]
      ensures logged == old(logged) + {inodestart + ino / IPB}
      ensures Journaled(old(OnDisk()), OnDisk(), old(logged), logged)
    {
      hide LoadInode, SetWord;
      StoreOne(iblocks, |inodes|, ino, inodes[ino]);
      var dip := SetWord(iblocks[ino / IPB], Field(ino, SIZE_WORD), inodes[ino].size);
      ghost var sized := dip;
      for k := 0 to NADDRS
        invariant dip == StoreAddrs(sized, ino, inodes[ino].addrs, k)
      {
        dip := SetWord(dip, Field(ino, ADDR_WORD + k), inodes[ino].addrs[k]);
      }
      iblocks := iblocks[ino / IPB := dip];
      logged := logged + {inodestart + ino / IPB};
    }

    /** One round of the loop of inode_read: bytes of one block. */
    method ReadPart(ino: nat, off: nat, m: nat) returns (part: seq<Byte>)
      requires Valid() && NoHoles(State()) && ino < |inodes| && 0 < m <= BSIZE - off % BSIZE
               && off + m <= inodes[ino].size <= MAXBYTES
      modifies this`bitmap, this`blocks, this`inodes, this`owner, this`logged
      ensures Sized() && State() == old(State()) && owner == old(owner) && logged == old(logged)
      ensures part == Contents(State(), ino)[off..off + m]
      ensures Journaled(old(OnDisk()), OnDisk(), logged, logged)
    {
      hide Word, Marks, Ptr, InUse, Owned, FileByte, Missing, Mapped, TreeSize, Shaped, Contents, Journaled;
      ghost var fs, o := State(), owner;
      OwnedWf(fs, first, o);
      assert Shaped(fs, ino, BlockCount(fs.inodes[ino].size));
      ReadBlock(fs, first, o, ino, off);
      var addr, ok, _ := Bmap(ino, off / BSIZE);
      MappedNone(fs, State(), first, o, owner, Path(ino, off / BSIZE), addr);
      ReadChunk(fs, first, o, ino, off, m, addr);
      part := blocks[addr][off % BSIZE..off % BSIZE + m];
    }

    /** inode_read: the slice of the file, clipped to its size. It allocates and logs
        nothing, so it needs no transaction. */
    method InodeRead(ino: nat, off0: int, n0: nat) returns (r: ReadResult)
      requires Consistent() && ino < |inodes|
      modifies this`bitmap, this`blocks, this`inodes, this`owner, this`logged
      ensures Consistent() && State() == old(State()) && owner == old(owner) && logged == old(logged)
      ensures r.ReadDomainError? <==> off0 < 0 || off0 > inodes[ino].size || off0 + n0 >= TWO64 / 2
      ensures r.Bytes? ==> 0 <= off0 <= inodes[ino].size <= MAXBYTES
      ensures r.Bytes? ==> r.data == Contents(State(), ino)[off0..Min(off0 + n0, inodes[ino].size)]
      ensures Journaled(old(OnDisk()), OnDisk(), old(logged), logged)
    {
      hide Word, Marks, Ptr, InUse, Owned, FileByte, NoHoles, Contents, Journaled;
      ghost var fs, o, l := State(), owner, logged;
      Still(OnDisk(), logged);
      SizeBound(fs, ino);
      if off0 < 0 || off0 > inodes[ino].size || off0 + n0 >= TWO64 / 2 {
        return ReadDomainError;
      }
      var n := if off0 + n0 > inodes[ino].size then inodes[ino].size - off0 else n0;
      var tot, off, dst := 0, off0, [];
      while tot < n
        invariant 0 <= tot <= n && off == off0 + tot
        invariant Sized() && State() == fs && owner == o && logged == l
        invariant dst == Contents(fs, ino)[off0..off]
        invariant Journaled(old(OnDisk()), OnDisk(), old(logged), logged)
      {
        ghost var m1 := OnDisk();
        var m := Min(n - tot, BSIZE - off % BSIZE);
        var part := ReadPart(ino, off, m);
        Join(old(OnDisk()), m1, OnDisk(), l, l, l);
        Slices(Contents(fs, ino), off0, off, off + m);
        dst := dst + part;
        tot, off := tot + m, off + m;
      }
      return Bytes(dst);
    }

    /** inode_write: the bytes of the file are spliced, no other file changes, no hole
        appears, and the blocks taken from the pool are those the larger tree needs. */
    method InodeWrite(ino: nat, off0: int, src: seq<Byte>) returns (r: WriteResult)
      requires Consistent() && ino < |inodes|
      modifies this`bitmap, this`blocks, this`inodes, this`iblocks, this`owner, this`logged
      ensures r.DomainError? <==> off0 < 0 || off0 > old(inodes[ino].size) || off0 + |src| > MAXBYTES
      ensures r.DomainError? ==> Consistent() && State() == old(State()) && OnDisk() == old(OnDisk())
                                 && owner == old(owner) && logged == old(logged)
      ensures !r.DomainError? ==>
                (r.NoSpace? <==>
                   TreeSize(Reach(old(inodes[ino].size), off0 + |src|)) - TreeSize(BlockCount(old(inodes[ino].size)))
                                 > FreeCount(old(State()).marked))
      ensures r.Written? ==> r.n == |src| && Consistent()
      ensures r.Written? ==> WriteDone(old(State()), State(), ino, off0, src)
      ensures r.Written? ==> |logged| <= |old(logged)| + WriteBudget(old(inodes[ino].size), off0, |src|)
      ensures Journaled(old(OnDisk()), OnDisk(), old(logged), logged)
    {
      hide Word, Marks, Ptr, InUse, Owned, FileByte, TreeSize, Shaped, Writing, NoHoles, Contents;
      hide Spanned, BlockCount, WriteDone, Journaled, LoadInode;
      ghost var fs0 := State();
      Still(OnDisk(), logged);
      SizeBound(fs0, ino);
      if off0 < 0 || off0 > inodes[ino].size || off0 + |src| > MAXBYTES {
        return DomainError;
      }
      var ok := WriteBlocks(ino, off0, src);
      if !ok {
        return NoSpace;
      }
      var off, n := off0 + |src|, |src|;
      FinishShape(fs0, State(), first, owner, ino, off0, src);
      WriteEnd(fs0, State(), first, owner, ino, off0, src);
      if n > 0 && off > inodes[ino].size {
        ghost var m1, l1 := OnDisk(), logged;
        SetSize(ino, off, fs0.inodes);
        Join(old(OnDisk()), m1, OnDisk(), old(logged), l1, logged);
      }
      return Written(n);
    }

    /** The end of inode_write for a file that grew. */
    method SetSize(ino: nat, size: nat, ghost before: seq<Inode>)
      requires Sized() && ino < |inodes| && |inodes| <= |iblocks| * IPB && Dinodes(iblocks, |inodes|) == before
               && size <= MAXBYTES
      requires Owned(Resize(State(), ino, size), first, owner)
      requires Resize(State(), ino, size).inodes == before[ino := Inode(inodes[ino].addrs, size)]
      modifies this`inodes, this`iblocks, this`logged
      ensures State() == Resize(old(State()), ino, size) && UpToDate()
              && logged == old(logged) + {inodestart + ino / IPB}
      ensures Journaled(old(OnDisk()), OnDisk(), old(logged), logged)
    {
      hide Word, Marks, Owned, Journaled, LoadInode, StoreInode;
      inodes := inodes[ino := Inode(inodes[ino].addrs, size)];
      OwnedStorable(State(), first, owner, ino);
      InodeUpdate(ino);
    }

    /** The loop of inode_write. */
    method WriteBlocks(ino: nat, off0: nat, src: seq<Byte>) returns (ok: bool)
      requires Consistent() && ino < |inodes| && off0 <= inodes[ino].size && off0 + |src| <= MAXBYTES
      modifies this`bitmap, this`blocks, this`inodes, this`owner, this`logged
      ensures ok ==> Sized() && Writing(old(State()), State(), first, owner, ino, off0, src, |src|)
      ensures ok ==> |logged| <= |old(logged)| + WriteBudget(old(inodes[ino].size), off0, |src|) - 1
      ensures !ok ==> TreeSize(Reach(old(inodes[ino].size), off0 + |src|)) - TreeSize(BlockCount(old(inodes[ino].size)))
                      > FreeCount(old(State()).marked)
      ensures Journaled(old(OnDisk()), OnDisk(), old(logged), logged)
    {
      hide Word, Marks, Ptr, InUse, Owned, FileByte, TreeSize, Shaped, Writing, NoHoles, Contents;
      hide Spanned, Reach, BlockCount, Journaled;
      ghost var fs0, l0 := State(), logged;
      Still(OnDisk(), logged);
      var tot, n := 0, |src|;
      WritingStart(fs0, first, owner, ino, off0, src);
      ghost var size := inodes[ino].size;
      SpanStart(size, off0);
      while tot < n
        invariant 0 <= tot <= n && Sized() && |inodes| == |fs0.inodes|
        invariant Writing(fs0, State(), first, owner, ino, off0, src, tot)
        invariant 0 < tot < n ==> (off0 + tot) % BSIZE == 0
        invariant Journaled(old(OnDisk()), OnDisk(), old(logged), logged)
        invariant |logged| <= |l0| + Spanned(off0, tot) + 5 * (Reach(size, off0 + tot) - BlockCount(size))
      {
        var m;
        ghost var m1, l1 := OnDisk(), logged;
        m, ok := WriteBlock(fs0, ino, off0, src, tot);
        Join(old(OnDisk()), m1, OnDisk(), old(logged), l1, logged);
        if !ok {
          return;
        }
        SpannedStep(off0, tot, m, n);
        tot := tot + m;
      }
      ok := true;
    }

    /** One iteration of the loop of inode_write. */
    method WriteBlock(ghost fs0: Fs, ino: nat, off0: nat, src: seq<Byte>, tot: nat) returns (m: nat, ok: bool)
      requires Sized() && ino < |inodes| == |fs0.inodes| && tot < |src|
      requires Writing(fs0, State(), first, owner, ino, off0, src, tot)
      modifies this`bitmap, this`blocks, this`inodes, this`owner, this`logged
      ensures m == Min(|src| - tot, BSIZE - (off0 + tot) % BSIZE)
      ensures ok ==> Sized() && |inodes| == |fs0.inodes| && Writing(fs0, State(), first, owner, ino, off0, src, tot + m)
      ensures ok ==> |logged| <= |old(logged)| + 1
                       + 5 * (Reach(fs0.inodes[ino].size, off0 + tot + m) - Reach(fs0.inodes[ino].size, off0 + tot))
      ensures !ok ==> TreeSize(Reach(fs0.inodes[ino].size, off0 + |src|)) - TreeSize(BlockCount(fs0.inodes[ino].size))
                      > FreeCount(fs0.marked)
      ensures Journaled(old(OnDisk()), OnDisk(), old(logged), logged)
    {
      hide Word, Marks, Ptr, InUse, Owned, FileByte, Missing, Mapped, TreeSize, Shaped, Writing, Contents;
      hide Reach, BlockCount, PutBlock, DataSlot, Path, Journaled;
      ghost var fs, o, l := State(), owner, logged;
      var off := off0 + tot;
      BeforeMap(fs0, fs, first, o, ino, off0, src, tot);
      var addr;
      ghost var touched;
      addr, ok, touched := Bmap(ino, off / BSIZE);
      m := Min(|src| - tot, BSIZE - off % BSIZE);
      NextBlock(fs0.inodes[ino].size, off0, tot, m);
      if !ok {
        OutOfBlocks(fs0, fs, first, o, ino, off0, src, tot, m);
        return;
      }
      ghost var fsm := State();
      WriteStep(fs0, fs, fsm, first, o, owner, ino, off0, src, tot, m, addr);
      ghost var m1, l1 := OnDisk(), logged;
      blocks := blocks[addr := Overwrite(blocks[addr], off % BSIZE, src[tot..tot + m])];
      logged := logged + {addr};
      DataAddr(fsm, first, owner, DataSlot(ino, off / BSIZE), addr);
      DataWrite(m1, addr, blocks[addr], l1);
      Join(old(OnDisk()), m1, OnDisk(), old(logged), l1, logged);
      LoggedStep(l, logged, touched, addr, Missing(fs, Path(ino, off / BSIZE)));
    }

    /** The loop over one table block, which frees entries up to the first null one. */
    method FreeEntries(ghost fs0: Fs, ghost ino: nat, ghost parent: Slot, table: nat, ghost done: set<Slot>)
      returns (ghost done': set<Slot>)
      requires Sized() && blocks == fs0.blocks && Owned(fs0, first, owner) && Freeing(fs0, owner, State().marked, done)
      requires LowestTable(fs0, ino, parent) && table == Ptr(fs0, parent) != 0
      requires forall j :: 0 <= j < NINDIRECT ==> Entry(parent, j) !in done
      modifies this`bitmap, this`logged
      ensures Sized() && Freeing(fs0, owner, State().marked, done') && table < nblocks
      ensures done' == done + (set j | 0 <= j < Leading(blocks[table], 0) :: Entry(parent, j))
      ensures Cleared(old(OnDisk()), OnDisk(), old(logged), logged)
    {
      hide Word, Marks, Ptr, Owned, Freeing, LowestTable, Cleared;
      NothingCleared(OnDisk(), logged);
      TableFacts(fs0, first, owner, ino, parent);
      done' := done;
      var j := 0;
      while j < NINDIRECT
        invariant 0 <= j <= NINDIRECT && Sized() && Freeing(fs0, owner, State().marked, done')
        invariant done' == done + (set k | 0 <= k < j :: Entry(parent, k))
        invariant Leading(blocks[table], 0) == Leading(blocks[table], j)
        invariant Cleared(old(OnDisk()), OnDisk(), old(logged), logged)
      {
        var p := Word(blocks[table], j);
        EntryFacts(fs0, first, owner, ino, parent, j);
        if p == 0 {
          break;
        }
        FreeStep(fs0, first, owner, State().marked, done', Entry(parent, j));
        ghost var m1, l1 := OnDisk(), logged;
        BlockFree(p);
        JoinCleared(old(OnDisk()), m1, OnDisk(), old(logged), l1, logged);
        OneMoreEntry(parent, j);
        done' := done' + {Entry(parent, j)};
        j := j + 1;
      }
    }

    /** One table of data block numbers: its entries, and then the table itself. */
    method FreeTable(ghost fs0: Fs, ghost ino: nat, ghost s: Slot, table: nat, ghost done: set<Slot>)
      returns (ghost done': set<Slot>)
      requires Sized() && blocks == fs0.blocks && Owned(fs0, first, owner) && Freeing(fs0, owner, State().marked, done)
      requires LowestTable(fs0, ino, s) && table == Ptr(fs0, s) != 0
      requires s !in done && forall j :: 0 <= j < NINDIRECT ==> Entry(s, j) !in done
      modifies this`bitmap, this`logged
      ensures Sized() && Freeing(fs0, owner, State().marked, done') && table < nblocks
      ensures done' == done + (set j | 0 <= j < Leading(blocks[table], 0) :: Entry(s, j)) + {s}
      ensures Cleared(old(OnDisk()), OnDisk(), old(logged), logged)
    {
      hide Word, Marks, Ptr, Owned, Freeing, Leading, Cleared;
      done' := FreeEntries(fs0, ino, s, table, done);
      ghost var m1, l1 := OnDisk(), logged;
      NotAnEntry(s, Leading(blocks[table], 0));
      FreeStep(fs0, first, owner, State().marked, done', s);
      BlockFree(table);
      JoinCleared(old(OnDisk()), m1, OnDisk(), old(logged), l1, logged);
      done' := done' + {s};
    }

    /** The first loop of inode_truncate: the direct blocks. */
    method FreeDirect(ghost fs0: Fs, ino: nat) returns (ghost done: set<Slot>)
      requires Valid() && fs0 == State() && ino < |inodes|
      modifies this`bitmap, this`inodes, this`logged
      ensures Sized() && Freeing(fs0, owner, State().marked, done) && Stage(fs0, ino, done, NDIRECT)
      ensures |inodes| == |fs0.inodes| && |inodes[ino].addrs| == NADDRS && inodes[ino].size == fs0.inodes[ino].size
      ensures forall k :: 0 <= k < NADDRS ==>
                inodes[ino].addrs[k] == if k < NDIRECT then 0 else fs0.inodes[ino].addrs[k]
      ensures forall i :: 0 <= i < |inodes| && i != ino ==> inodes[i] == fs0.inodes[i]
      ensures Cleared(old(OnDisk()), OnDisk(), old(logged), logged)
    {
      hide Word, Marks, Owned, Freeing, Stage, Released, Cleared;
      NothingCleared(OnDisk(), logged);
      OwnedWf(fs0, first, owner);
      done := {};
      var i := 0;
      StageStart(fs0, owner, ino);
      while i < NDIRECT
        invariant 0 <= i <= NDIRECT && Sized() && |inodes| == |fs0.inodes| && |inodes[ino].addrs| == NADDRS
        invariant inodes[ino].size == fs0.inodes[ino].size
        invariant Freeing(fs0, owner, State().marked, done) && Stage(fs0, ino, done, i)
        invariant forall k :: 0 <= k < NADDRS ==>
                    inodes[ino].addrs[k] == if k < i then 0 else fs0.inodes[ino].addrs[k]
        invariant forall j :: 0 <= j < |inodes| && j != ino ==> inodes[j] == fs0.inodes[j]
        invariant Cleared(old(OnDisk()), OnDisk(), old(logged), logged)
      {
        StageSingle(fs0, ino, done, Root(ino, i));
        if inodes[ino].addrs[i] != 0 {
          FreeStep(fs0, first, owner, State().marked, done, Root(ino, i));
          ghost var m1, l1 := OnDisk(), logged;
          BlockFree(inodes[ino].addrs[i]);
          JoinCleared(old(OnDisk()), m1, OnDisk(), old(logged), l1, logged);
          done := done + {Root(ino, i)};
          inodes := inodes[ino := Inode(inodes[ino].addrs[i := 0], inodes[ino].size)];
        }
        i := i + 1;
      }
    }

    /** The doubly indirect part of inode_truncate: every table below, then the table itself. */
    method FreeDouble(ghost fs0: Fs, ghost ino: nat, table: nat, ghost done0: set<Slot>) returns (ghost done: set<Slot>)
      requires Sized() && blocks == fs0.blocks && Owned(fs0, first, owner) && ino < |fs0.inodes|
      requires Freeing(fs0, owner, State().marked, done0) && Stage(fs0, ino, done0, NDIRECT + 1)
      requires table == Ptr(fs0, Root(ino, NDIRECT + 1)) != 0
      modifies this`bitmap, this`logged
      ensures Sized() && Freeing(fs0, owner, State().marked, done) && Stage(fs0, ino, done, NDIRECT + 2 + NINDIRECT)
      ensures Cleared(old(OnDisk()), OnDisk(), old(logged), logged)
    {
      hide Word, Marks, Owned, Freeing, Stage, Released, Leading, Ptr, Cleared;
      NothingCleared(OnDisk(), logged);
      OwnedWf(fs0, first, owner);
      PtrBound(fs0, first, owner, Root(ino, NDIRECT + 1));
      done := done0;
      var i := 0;
      while i < NINDIRECT
        invariant 0 <= i <= NINDIRECT && Sized()
        invariant Freeing(fs0, owner, State().marked, done) && Stage(fs0, ino, done, NDIRECT + 1 + i)
        invariant Cleared(old(OnDisk()), OnDisk(), old(logged), logged)
      {
        ghost var s := Second(ino, i);
        SecondFacts(fs0, first, owner, ino, i);
        StageTable(fs0, ino, done, s);
        var a := Word(blocks[table], i);
        if a != 0 {
          ghost var m1, l1 := OnDisk(), logged;
          done := FreeTable(fs0, ino, s, a, done);
          JoinCleared(old(OnDisk()), m1, OnDisk(), old(logged), l1, logged);
        }
        i := i + 1;
      }
      ghost var root := Root(ino, NDIRECT + 1);
      StageSingle(fs0, ino, done, root);
      FreeStep(fs0, first, owner, State().marked, done, root);
      ghost var m3, l3 := OnDisk(), logged;
      BlockFree(table);
      JoinCleared(old(OnDisk()), m3, OnDisk(), old(logged), l3, logged);
      done := done + {root};
    }

    /** The three tiers of inode_truncate, in the order of the source. */
    method FreeTree(ghost fs0: Fs, ino: nat) returns (ghost done: set<Slot>)
      requires Valid() && fs0 == State() && ino < |inodes|
      modifies this`bitmap, this`inodes, this`logged
      ensures Sized() && Freeing(fs0, owner, State().marked, done) && Stage(fs0, ino, done, NDIRECT + 2 + NINDIRECT)
      ensures inodes == fs0.inodes[ino := Inode(NULLS, fs0.inodes[ino].size)]
      ensures Cleared(old(OnDisk()), OnDisk(), old(logged), logged)
    {
      hide Word, Marks, Owned, Freeing, Stage, Released, Leading, Ptr, Cleared;
      OwnedWf(fs0, first, owner);
      RootPtrs(fs0, ino);
      done := FreeDirect(fs0, ino);
      ghost var s := Root(ino, NDIRECT);
      var a := inodes[ino].addrs[NDIRECT];
      PtrBound(fs0, first, owner, s);
      StageTable(fs0, ino, done, s);
      if a != 0 {
        ghost var m1, l1 := OnDisk(), logged;
        done := FreeTable(fs0, ino, s, a, done);
        JoinCleared(old(OnDisk()), m1, OnDisk(), old(logged), l1, logged);
        inodes := inodes[ino := Inode(inodes[ino].addrs[NDIRECT := 0], inodes[ino].size)];
      }
      a := inodes[ino].addrs[NDIRECT + 1];
      if a != 0 {
        ghost var m3, l3 := OnDisk(), logged;
        done := FreeDouble(fs0, ino, a, done);
        JoinCleared(old(OnDisk()), m3, OnDisk(), old(logged), l3, logged);
        inodes := inodes[ino := Inode(inodes[ino].addrs[NDIRECT + 1 := 0], inodes[ino].size)];
      } else {
        StageSkip(fs0, ino, done);
      }
      assert inodes[ino].addrs == NULLS;
    }

    /** inode_truncate on any file system with proper ownership: exactly the released
        blocks become free. `owner` is brought up to date; see TruncateFreesAllIff. */
    method InodeTruncate(ino: nat)
      requires Valid() && ino < |inodes| <= |iblocks| * IPB
      modifies this`bitmap, this`inodes, this`iblocks, this`owner, this`logged
      ensures Sized() && Truncated(old(State()), State(), old(owner), ino)
      ensures owner == Disown(old(owner), ino) && |iblocks| == |old(iblocks)|
      ensures Dinodes(iblocks, |inodes|) == Dinodes(old(iblocks), |inodes|)[ino := inodes[ino]]
      ensures Journaled(old(OnDisk()), OnDisk(), old(logged), logged) && |logged| <= |old(logged)| + |bitmap| + 1
    {
      hide Word, Marks, Owned, Freeing, Stage, Released, Leading, Ptr, Truncated, Journaled, Cleared, LoadInode;
      ghost var fs0 := State();
      OwnedWf(fs0, first, owner);
      ghost var done := FreeTree(fs0, ino);
      inodes := inodes[ino := Inode(inodes[ino].addrs, 0)];
      assert inodes == fs0.inodes[ino := Inode(NULLS, 0)];
      StageFinal(fs0, first, owner, State().marked, done, ino, inodes);
      owner := Disown(owner, ino);
      ghost var m4, l4 := OnDisk(), logged;
      ClearedCount(old(OnDisk()), m4, old(logged), l4);
      InodeUpdate(ino);
      Join(old(OnDisk()), m4, OnDisk(), old(logged), l4, logged);
    }
  }
}

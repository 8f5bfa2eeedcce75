/** Files without holes (kernel/fs.c): which slots of an inode are in use, what growing a
    file changes, and the bytes a file holds. */
module FileShape {
  import opened Blocks
  import opened BlockTree
  import opened Bitmap

  // ----- block numbers and slots -------------------------------------------

  /** The slot that holds the `bn`-th block of a file, by the three cases of bmap. */
  function DataSlot(ino: nat, bn: nat): (s: Slot)
    requires bn < MAXFILE
  {
    if bn < NDIRECT then Root(ino, bn)
    else if bn < DOUBLE then Mid(ino, NDIRECT, bn - NDIRECT)
    else Leaf(ino, (bn - DOUBLE) / NINDIRECT, (bn - DOUBLE) % NINDIRECT)
  }

  /** The slots bmap visits for block `bn`, from the inode down. */
  function Path(ino: nat, bn: nat): (p: seq<Slot>)
    requires bn < MAXFILE
  {
    if bn < NDIRECT then [Root(ino, bn)]
    else if bn < DOUBLE then [Root(ino, NDIRECT), DataSlot(ino, bn)]
    else [Root(ino, NDIRECT + 1), Mid(ino, NDIRECT + 1, (bn - DOUBLE) / NINDIRECT), DataSlot(ino, bn)]
  }

  /** A file of `nb` blocks without holes uses exactly these slots. */
  predicate InUse(nb: nat, s: Slot) {
    match s
    case Root(_, k) => if k < NDIRECT then k < nb else if k == NDIRECT then nb > NDIRECT else nb > DOUBLE
    case Mid(_, k, j) => if k == NDIRECT then NDIRECT + j < nb else DOUBLE + NINDIRECT * j < nb
    case Leaf(_, i, j) => DOUBLE + NINDIRECT * i + j < nb
  }

  lemma DataSlotIs(n: nat, ino: nat, bn: nat)
    requires bn < MAXFILE && ino < n
    ensures IsSlot(n, DataSlot(ino, bn)) && !IsTableSlot(DataSlot(ino, bn)) && DataSlot(ino, bn).ino == ino
    ensures forall nb: nat :: InUse(nb, DataSlot(ino, bn)) <==> bn < nb
  {
  }

  lemma DataSlotInjective(i: nat, bn: nat, i': nat, bn': nat)
    requires bn < MAXFILE && bn' < MAXFILE && DataSlot(i, bn) == DataSlot(i', bn')
    ensures i == i' && bn == bn'
  {
  }

  lemma NothingInUse(s: Slot)
    ensures !InUse(0, s)
  {
  }

  /** Growing by one block fills exactly the slots on the path of that block. */
  lemma InUseGrows(ino: nat, nb: nat, s: Slot, n: nat)
    requires nb < MAXFILE && s.ino == ino && IsSlot(n, s)
    ensures InUse(nb + 1, s) <==> InUse(nb, s) || s in Path(ino, nb)
  {
    var d := nb - DOUBLE;
    match s
    case Root(_, k) =>
      assert s in Path(ino, nb) <==>
        (if nb < NDIRECT then k == nb else if nb < DOUBLE then k == NDIRECT else k == NDIRECT + 1);
    case Mid(_, k, j) =>
      if nb >= DOUBLE {
        assert s in Path(ino, nb) <==> k == NDIRECT + 1 && j == d / NINDIRECT;
      } else if nb >= NDIRECT {
        assert s in Path(ino, nb) <==> s == DataSlot(ino, nb);
      }
    case Leaf(_, i, j) =>
      if nb >= DOUBLE {
        assert s in Path(ino, nb) <==> s == DataSlot(ino, nb);
      } else if nb >= NDIRECT {
        assert s in Path(ino, nb) <==> s == DataSlot(ino, nb);
      }
  }

  /** The prefix property: block `bn` and everything above it exist when `bn < nb`. */
  lemma InUsePath(ino: nat, bn: nat, nb: nat, s: Slot)
    requires bn < nb <= MAXFILE && s in Path(ino, bn)
    ensures InUse(nb, s)
  {
  }

  // ----- shape -------------------------------------------------------------

  function BlockCount(size: nat): (nb: nat)
    ensures (nb - 1) * BSIZE < size <= nb * BSIZE || (size == 0 && nb == 0)
  {
    (size + BSIZE - 1) / BSIZE
  }

  /** Inode `ino` holds a tree of exactly `nb` data blocks without holes. */
  ghost predicate Shaped(fs: Fs, ino: nat, nb: nat) {
    && fs.Wf() && ino < |fs.inodes|
    && forall s {:trigger Ptr(fs, s)} :: IsSlot(|fs.inodes|, s) && s.ino == ino ==> (Ptr(fs, s) != 0 <==> InUse(nb, s))
  }

  /** No holes: the tree of every inode is exactly what its size calls for. */
  ghost predicate NoHoles(fs: Fs) {
    && fs.Wf()
    && forall i {:trigger fs.inodes[i]} :: 0 <= i < |fs.inodes| ==>
         fs.inodes[i].size <= MAXFILE * BSIZE && Shaped(fs, i, BlockCount(fs.inodes[i].size))
  }

  // ----- what growing a file changes ---------------------------------------

  ghost predicate SameSizes(fs: Fs, fs': Fs) {
    && |fs'.inodes| == |fs.inodes| && |fs'.blocks| == |fs.blocks| && |fs'.marked| == |fs.marked|
    && forall i :: 0 <= i < |fs.inodes| ==> fs'.inodes[i].size == fs.inodes[i].size
  }

  /** The slots in `path` are filled where they were empty; nothing else about the trees,
      and no byte of file data, changes. */
  ghost predicate Grown(fs: Fs, fs': Fs, first: nat, owner: map<nat, Slot>, owner': map<nat, Slot>, path: set<Slot>) {
    && Owned(fs, first, owner) && Owned(fs', first, owner') && SameSizes(fs, fs')
    && (forall t {:trigger Ptr(fs', t)} {:trigger Ptr(fs, t)} :: IsSlot(|fs.inodes|, t) ==>
          && (t in path ==> Ptr(fs', t) != 0)
          && ((t in path && Ptr(fs, t) == 0) || Ptr(fs', t) == Ptr(fs, t)))
    && (forall b :: b in owner && !IsTableSlot(owner[b]) ==> fs'.blocks[b] == fs.blocks[b])
    && (forall i, k :: 0 <= i < |fs.inodes| && 0 <= k < NADDRS && Root(i, k) !in path ==>
          fs'.inodes[i].addrs[k] == fs.inodes[i].addrs[k])
  }

  lemma GrownRefl(fs: Fs, first: nat, owner: map<nat, Slot>, s: Slot)
    requires Owned(fs, first, owner) && IsSlot(|fs.inodes|, s) && Ptr(fs, s) != 0
    ensures Grown(fs, fs, first, owner, owner, {s})
  {
  }

  lemma GrownStep(fs: Fs, first: nat, owner: map<nat, Slot>, s: Slot, b: nat)
    requires CanGrow(fs, first, owner, s, b)
    ensures !s.Root? ==> 0 < Table(fs, s) < |fs.blocks| && Table(fs, s) != b
    ensures b != fs.inodes[s.ino].addrs[NDIRECT + 1]
    ensures Grown(fs, Grow(fs, s, b), first, owner, owner[b := s], {s})
    ensures FreeCount(Grow(fs, s, b).marked) == FreeCount(fs.marked) - 1
  {
    hide Word, SetWord;
    GrowOwned(fs, first, owner, s, b);
    FreeCountFlip(fs.marked, b);
    var r := Grow(fs, s, b);
    forall t | IsSlot(|fs.inodes|, t)
      ensures Ptr(r, t) == (if t == s then b else Ptr(fs, t))
    {
      GrowPtrs(fs, first, owner, s, b, t);
    }
    CanGrowBounds(fs, first, owner, s, b);
    if !s.Root? { TableOwner(fs, first, owner, s); }
  }

  lemma GrownTrans(a: Fs, b: Fs, c: Fs, first: nat, oa: map<nat, Slot>, ob: map<nat, Slot>, oc: map<nat, Slot>,
                   p: set<Slot>, q: set<Slot>)
    requires Grown(a, b, first, oa, ob, p) && Grown(b, c, first, ob, oc, q)
    ensures Grown(a, c, first, oa, oc, p + q)
  {
    hide Word;
    forall d | d in oa && !IsTableSlot(oa[d])
      ensures c.blocks[d] == a.blocks[d]
    {
      assert Ptr(a, oa[d]) == d;
      assert Ptr(b, oa[d]) == d;
      assert ob[d] == oa[d];
    }
  }

  /** A file without holes that gets its next block still has no holes; all others are untouched. */
  lemma GrownShape(fs: Fs, fs': Fs, first: nat, owner: map<nat, Slot>, owner': map<nat, Slot>, ino: nat, nb: nat)
    requires ino < |fs.inodes| && nb < MAXFILE
    requires Grown(fs, fs', first, owner, owner', set s | s in Path(ino, nb))
    requires Shaped(fs, ino, nb)
    ensures Shaped(fs', ino, nb + 1)
    ensures forall i: nat, n: nat :: i < |fs.inodes| && i != ino && Shaped(fs, i, n) ==> Shaped(fs', i, n)
  {
    hide Word, InUse, Path;
    forall s {:trigger Ptr(fs', s)} | IsSlot(|fs'.inodes|, s) && s.ino == ino
      ensures Ptr(fs', s) != 0 <==> InUse(nb + 1, s)
    {
      InUseGrows(ino, nb, s, |fs.inodes|);
      assert s in Path(ino, nb) || Ptr(fs', s) == Ptr(fs, s);
    }
    forall i: nat, n: nat | i < |fs.inodes| && i != ino && Shaped(fs, i, n)
      ensures Shaped(fs', i, n)
    {
      forall s {:trigger Ptr(fs', s)} | IsSlot(|fs'.inodes|, s) && s.ino == i
        ensures Ptr(fs', s) != 0 <==> InUse(n, s)
      {
        PathIno(ino, nb, s);
        assert Ptr(fs', s) == Ptr(fs, s);
      }
    }
  }

  lemma PathIno(ino: nat, bn: nat, s: Slot)
    requires bn < MAXFILE
    ensures s in Path(ino, bn) ==> s.ino == ino
  {
  }

  // ----- how many blocks a file takes --------------------------------------

  /** Blocks in the tree of a file of `nb` data blocks: data, indirect and doubly indirect. */
  function TreeSize(nb: nat): (n: nat) {
    nb + (if nb > NDIRECT then 1 else 0)
       + (if nb > DOUBLE then 1 + (nb - DOUBLE + NINDIRECT - 1) / NINDIRECT else 0)
  }

  /** How many slots of a path are still empty. */
  function Missing(fs: Fs, path: seq<Slot>): (n: nat)
    requires fs.Wf() && forall s :: s in path ==> IsSlot(|fs.inodes|, s)
  {
    if |path| == 0 then 0
    else (if Ptr(fs, path[0]) == 0 then 1 else 0) + Missing(fs, path[1..])
  }

  lemma PathSlots(n: nat, ino: nat, bn: nat)
    requires bn < MAXFILE && ino < n
    ensures forall s :: s in Path(ino, bn) ==> IsSlot(n, s)
  {
  }

  /** The blocks one append needs are the growth of the tree. */
  lemma MissingAtEnd(fs: Fs, ino: nat, nb: nat)
    requires nb < MAXFILE && Shaped(fs, ino, nb)
    requires forall s :: s in Path(ino, nb) ==> IsSlot(|fs.inodes|, s)
    ensures Missing(fs, Path(ino, nb)) == TreeSize(nb + 1) - TreeSize(nb)
  {
    hide Word;
    var p := Path(ino, nb);
    if nb < NDIRECT {
      assert p[0] in p && p[1..] == [];
    } else if nb < DOUBLE {
      assert p[0] in p && p[1] in p && p[1..] == [p[1]] && p[1..][1..] == [];
      assert Missing(fs, p[1..][1..]) == 0 && Missing(fs, p[1..]) == 1;
      assert Ptr(fs, p[0]) == 0 <==> nb == NDIRECT;
    } else {
      assert p[0] in p && p[1] in p && p[2] in p;
      assert p[1..] == [p[1], p[2]] && p[1..][1..] == [p[2]] && p[1..][1..][1..] == [];
      assert Missing(fs, p[1..][1..]) == 1;
      assert Ptr(fs, p[1]) == 0 <==> (nb - DOUBLE) % NINDIRECT == 0;
      assert Ptr(fs, p[0]) == 0 <==> nb == DOUBLE;
    }
  }
}

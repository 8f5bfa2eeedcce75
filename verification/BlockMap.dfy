/** What bmap does to the trees (kernel/fs.c): filling the slots on the path of one block. */
module BlockMap {
  import opened Blocks
  import opened Bitmap
  import opened BlockTree
  import opened FileShape

  /** Slot `s` now holds `addr`; if it was empty, one block was allocated for it. */
  ghost predicate Filled(fs: Fs, fs': Fs, first: nat, owner: map<nat, Slot>, owner': map<nat, Slot>, s: Slot,
                         addr: nat) {
    && Grown(fs, fs', first, owner, owner', {s}) && IsSlot(|fs.inodes|, s)
    && addr == Ptr(fs', s) != 0
    && FreeCount(fs'.marked) == FreeCount(fs.marked) - (if Ptr(fs, s) != 0 then 0 else 1)
    && (Ptr(fs, s) != 0 ==> fs' == fs && owner' == owner)
  }

  lemma EntryPtr(fs: Fs, first: nat, owner: map<nat, Slot>, s: Slot)
    requires Owned(fs, first, owner) && IsSlot(|fs.inodes|, s) && !s.Root? && Table(fs, s) != 0
    ensures 0 < Table(fs, s) < |fs.blocks| && Ptr(fs, s) == Word(fs.blocks[Table(fs, s)], s.j)
  {
    hide Word;
    TableOwner(fs, first, owner, s);
  }

  lemma AlreadyFilled(fs: Fs, first: nat, owner: map<nat, Slot>, s: Slot)
    requires Owned(fs, first, owner) && IsSlot(|fs.inodes|, s) && Ptr(fs, s) != 0
    ensures Filled(fs, fs, first, owner, owner, s, Ptr(fs, s))
  {
    hide Owned, Grown;
    GrownRefl(fs, first, owner, s);
  }

  /** Allocating the free block `b` for slot `s`, spelled out. */
  lemma GrowFills(fs: Fs, first: nat, owner: map<nat, Slot>, s: Slot, b: nat)
    requires CanGrow(fs, first, owner, s, b)
    ensures !s.Root? ==> 0 < Table(fs, s) < |fs.blocks| && Table(fs, s) != b
    ensures b != fs.inodes[s.ino].addrs[NDIRECT + 1]
    ensures Filled(fs, Grow(fs, s, b), first, owner, owner[b := s], s, b)
    ensures Owned(Grow(fs, s, b), first, owner[b := s])
    ensures !s.Root? ==>
      var m := Mark(fs, b);
      Grow(fs, s, b) == Fs(m.marked, m.blocks[Table(fs, s) := SetWord(m.blocks[Table(fs, s)], s.j, b)], m.inodes)
  {
    hide Word, SetWord;
    CanGrowBounds(fs, first, owner, s, b);
    GrownStep(fs, first, owner, s, b);
    GrowPtrs(fs, first, owner, s, b, s);
  }

  /** The outcome of bmap along `path`: its slots are filled, one block each for those that
      were empty, and `addr` is the address in the last. */
  ghost predicate Mapped(fs: Fs, fs': Fs, first: nat, owner: map<nat, Slot>, owner': map<nat, Slot>, path: seq<Slot>,
                         addr: nat) {
    && |path| > 0 && fs.Wf() && fs'.Wf() && |fs.inodes| == |fs'.inodes|
    && (forall s :: s in path ==> IsSlot(|fs.inodes|, s))
    && Grown(fs, fs', first, owner, owner', set s | s in path)
    && addr == Ptr(fs', path[|path| - 1]) != 0
    && FreeCount(fs'.marked) == FreeCount(fs.marked) - Missing(fs, path)
    && (Missing(fs, path) == 0 ==> fs' == fs && owner' == owner)
  }

  lemma {:induction false} MissingAppend(fs: Fs, path: seq<Slot>, s: Slot)
    requires fs.Wf() && IsSlot(|fs.inodes|, s) && forall t :: t in path ==> IsSlot(|fs.inodes|, t)
    ensures Missing(fs, path + [s]) == Missing(fs, path) + (if Ptr(fs, s) == 0 then 1 else 0)
    decreases |path|
  {
    hide Word;
    if |path| > 0 {
      assert (path + [s])[1..] == path[1..] + [s];
      MissingAppend(fs, path[1..], s);
    } else {
      assert path + [s] == [s] && [s][1..] == [];
    }
  }

  lemma OwnedWf(fs: Fs, first: nat, owner: map<nat, Slot>)
    requires Owned(fs, first, owner)
    ensures fs.Wf()
  {
  }

  lemma GrownWf(fs: Fs, fs': Fs, first: nat, owner: map<nat, Slot>, owner': map<nat, Slot>, path: set<Slot>)
    requires Grown(fs, fs', first, owner, owner', path)
    ensures fs.Wf() && fs'.Wf() && |fs'.inodes| == |fs.inodes|
  {
  }

  lemma MapFirst(fs: Fs, s: Slot)
    requires fs.Wf() && IsSlot(|fs.inodes|, s)
    ensures Missing(fs, [s]) == if Ptr(fs, s) == 0 then 1 else 0
  {
    hide Word;
    assert [s][1..] == [];
  }

  lemma MappedOne(fs: Fs, a: Fs, first: nat, o: map<nat, Slot>, oa: map<nat, Slot>, s: Slot, addr: nat)
    requires Filled(fs, a, first, o, oa, s, addr)
    ensures Mapped(fs, a, first, o, oa, [s], addr)
  {
    hide Word;
    MapFirst(fs, s);
    assert (set t | t in [s]) == {s};
  }

  lemma MappedFrame(fs: Fs, a: Fs, first: nat, o: map<nat, Slot>, oa: map<nat, Slot>, path: seq<Slot>, addr: nat,
                    s: Slot)
    requires Mapped(fs, a, first, o, oa, path, addr) && IsSlot(|fs.inodes|, s) && s !in path
    ensures Ptr(a, s) == Ptr(fs, s) && Owned(a, first, oa)
  {
    hide Word;
  }

  lemma RootTable(fs: Fs, s: Slot)
    requires fs.Wf() && IsSlot(|fs.inodes|, s) && s.Mid?
    ensures Table(fs, s) == Ptr(fs, Root(s.ino, s.k))
  {
    hide Word;
  }

  lemma MidTable(fs: Fs, s: Slot)
    requires fs.Wf() && IsSlot(|fs.inodes|, s) && s.Leaf?
    ensures Table(fs, s) == Ptr(fs, Mid(s.ino, NDIRECT + 1, s.i))
  {
    hide Word;
  }

  lemma MappedMore(fs: Fs, a: Fs, b: Fs, first: nat, o: map<nat, Slot>, oa: map<nat, Slot>, ob: map<nat, Slot>,
                   path: seq<Slot>, addr: nat, s: Slot, addr': nat)
    requires Mapped(fs, a, first, o, oa, path, addr) && s !in path
    requires Filled(a, b, first, oa, ob, s, addr')
    ensures Mapped(fs, b, first, o, ob, path + [s], addr')
  {
    hide Word, Ptr, Grown;
    GrownWf(a, b, first, oa, ob, {s});
    GrownTrans(fs, a, b, first, o, oa, ob, set t | t in path, {s});
    assert (set t | t in path) + {s} == (set t | t in path + [s]);
    MappedFrame(fs, a, first, o, oa, path, addr, s);
    MissingAppend(fs, path, s);
    assert forall t :: t in path + [s] ==> t in path || t == s;
  }
}

/** What inode_truncate frees (kernel/fs.c). Its inner loops stop at the first null entry of
    a table, so it frees the whole tree exactly if no table has a hole. */
module FileTruncate {
  import opened Blocks
  import opened BlockTree
  import opened FileShape
  import opened FileContents
  import opened FileWrite

  /** The index of the first null entry from `j` on: where the loop breaks. */
  function Leading(b: Block, j: nat): (r: nat)
    requires j <= NINDIRECT
    ensures j <= r <= NINDIRECT
    ensures forall k :: j <= k < r ==> Word(b, k) != 0
    ensures r < NINDIRECT ==> Word(b, r) == 0
    decreases NINDIRECT - j
  {
    if j < NINDIRECT && Word(b, j) != 0 then Leading(b, j + 1) else j
  }

  /** A slot that points to a table of data block numbers. */
  ghost predicate LowestTable(fs: Fs, ino: nat, s: Slot) {
    s.ino == ino && IsSlot(|fs.inodes|, s) && (s == Root(ino, NDIRECT) || (s.Mid? && s.k == NDIRECT + 1))
  }

  /** Entry `j` of the table at slot `s`. */
  function Entry(s: Slot, j: nat): (r: Slot) {
    if s.Mid? then Leaf(s.ino, s.j, j) else Mid(s.ino, NDIRECT, j)
  }

  /** The marks once the blocks in the slots of `done` have been freed. */
  ghost predicate Freeing(fs: Fs, owner: map<nat, Slot>, marked: seq<bool>, done: set<Slot>) {
    && |marked| == |fs.marked|
    && forall b :: 0 <= b < |marked| ==> (marked[b] <==> fs.marked[b] && !(b in owner && owner[b] in done))
  }

  lemma FreeStep(fs: Fs, first: nat, owner: map<nat, Slot>, marked: seq<bool>, done: set<Slot>, s: Slot)
    requires Owned(fs, first, owner) && Freeing(fs, owner, marked, done)
    requires IsSlot(|fs.inodes|, s) && Ptr(fs, s) != 0 && s !in done
    ensures Ptr(fs, s) < |marked| && marked[Ptr(fs, s)]
    ensures Freeing(fs, owner, marked[Ptr(fs, s) := false], done + {s})
  {
    hide Word;
  }

  lemma TableFacts(fs: Fs, first: nat, owner: map<nat, Slot>, ino: nat, s: Slot)
    requires Owned(fs, first, owner) && LowestTable(fs, ino, s) && Ptr(fs, s) != 0
    ensures fs.Wf() && Ptr(fs, s) < |fs.blocks|
  {
    hide Word;
  }

  lemma EntryFacts(fs: Fs, first: nat, owner: map<nat, Slot>, ino: nat, s: Slot, j: nat)
    requires Owned(fs, first, owner) && LowestTable(fs, ino, s) && Ptr(fs, s) != 0 && j < NINDIRECT
    ensures fs.Wf() && Ptr(fs, s) < |fs.blocks| && IsSlot(|fs.inodes|, Entry(s, j))
    ensures Word(fs.blocks[Ptr(fs, s)], j) == Ptr(fs, Entry(s, j))
  {
    hide Word;
  }

  // ----- which slots are released, and in which order ----------------------

  /** The slots whose blocks inode_truncate frees. */
  ghost predicate Released(fs: Fs, s: Slot)
    requires fs.Wf() && IsSlot(|fs.inodes|, s)
  {
    match s
    case Root(_, _) => Ptr(fs, s) != 0
    case Mid(ino, k, j) =>
      if k == NDIRECT + 1 then Ptr(fs, s) != 0 else InPrefix(fs, Ptr(fs, Root(ino, NDIRECT)), j)
    case Leaf(ino, i, j) => InPrefix(fs, Ptr(fs, Mid(ino, NDIRECT + 1, i)), j)
  }

  /** Entry `j` of table `p` comes before the first null entry. */
  ghost predicate InPrefix(fs: Fs, p: nat, j: nat) {
    0 < p < |fs.blocks| && j < Leading(fs.blocks[p], 0)
  }

  /** The order in which inode_truncate deals with the slots; a table's entries go with it. */
  function Order(s: Slot): (n: nat) {
    match s
    case Root(_, k) => if k <= NDIRECT then k else NDIRECT + 1 + NINDIRECT
    case Mid(_, k, j) => if k == NDIRECT then NDIRECT else NDIRECT + 1 + j
    case Leaf(_, i, _) => NDIRECT + 1 + i
  }

  /** `done` are the slots released before stage `n`. */
  ghost predicate Stage(fs: Fs, ino: nat, done: set<Slot>, n: nat)
    requires fs.Wf()
  {
    forall s {:trigger s in done} ::
      s in done <==> IsSlot(|fs.inodes|, s) && s.ino == ino && Order(s) < n && Released(fs, s)
  }

  lemma StageSingle(fs: Fs, ino: nat, done: set<Slot>, s: Slot)
    requires fs.Wf() && IsSlot(|fs.inodes|, s) && s.ino == ino && Stage(fs, ino, done, Order(s))
    requires s.Root? && s.k != NDIRECT
    ensures s !in done
    ensures Stage(fs, ino, if Ptr(fs, s) != 0 then done + {s} else done, Order(s) + 1)
  {
    hide Word, Ptr, Leading;
    assert forall t :: IsSlot(|fs.inodes|, t) && t.ino == ino && Order(t) == Order(s) ==> t == s;
  }

  lemma StageTable(fs: Fs, ino: nat, done: set<Slot>, s: Slot)
    requires fs.Wf() && LowestTable(fs, ino, s) && Stage(fs, ino, done, Order(s))
    requires Ptr(fs, s) < |fs.blocks|
    ensures s !in done && forall j :: 0 <= j < NINDIRECT ==> Entry(s, j) !in done
    ensures Ptr(fs, s) == 0 ==> Stage(fs, ino, done, Order(s) + 1)
    ensures Ptr(fs, s) != 0 ==>
      Stage(fs, ino, done + (set j | 0 <= j < Leading(fs.blocks[Ptr(fs, s)], 0) :: Entry(s, j)) + {s}, Order(s) + 1)
  {
    hide Word, Ptr, Leading;
    var p := Ptr(fs, s);
    forall j | 0 <= j < NINDIRECT
      ensures IsSlot(|fs.inodes|, Entry(s, j)) && Order(Entry(s, j)) == Order(s)
      ensures Released(fs, Entry(s, j)) <==> InPrefix(fs, p, j)
    {
    }
    forall t | IsSlot(|fs.inodes|, t) && t.ino == ino && Order(t) == Order(s)
      ensures t == s || exists j :: 0 <= j < NINDIRECT && t == Entry(s, j)
    {
      if t != s {
        assert t == Entry(s, t.j);
      }
    }
    if p != 0 {
      var es := set j | 0 <= j < Leading(fs.blocks[p], 0) :: Entry(s, j);
      forall t
        ensures t in done + es + {s} <==>
          IsSlot(|fs.inodes|, t) && t.ino == ino && Order(t) < Order(s) + 1 && Released(fs, t)
      {
        if t in es {
          var j :| 0 <= j < Leading(fs.blocks[p], 0) && t == Entry(s, j);
        }
        if IsSlot(|fs.inodes|, t) && t.ino == ino && Order(t) == Order(s) && t != s && Released(fs, t) {
          var j :| 0 <= j < NINDIRECT && t == Entry(s, j);
          assert InPrefix(fs, p, j);
        }
      }
    }
  }

  /** Without a doubly indirect table nothing is left to release. */
  lemma StageSkip(fs: Fs, ino: nat, done: set<Slot>)
    requires fs.Wf() && ino < |fs.inodes| && Stage(fs, ino, done, NDIRECT + 1)
    requires Ptr(fs, Root(ino, NDIRECT + 1)) == 0
    ensures Stage(fs, ino, done, NDIRECT + 2 + NINDIRECT)
  {
    hide Word, Leading;
  }

  lemma StageStart(fs: Fs, owner: map<nat, Slot>, ino: nat)
    requires fs.Wf()
    ensures Freeing(fs, owner, fs.marked, {}) && Stage(fs, ino, {}, 0)
  {
  }

  lemma PtrBound(fs: Fs, first: nat, owner: map<nat, Slot>, s: Slot)
    requires Owned(fs, first, owner) && IsSlot(|fs.inodes|, s)
    ensures Ptr(fs, s) < |fs.blocks|
  {
    hide Word;
  }

  lemma RootPtrs(fs: Fs, ino: nat)
    requires fs.Wf() && ino < |fs.inodes|
    ensures forall k :: 0 <= k < NADDRS ==> Ptr(fs, Root(ino, k)) == fs.inodes[ino].addrs[k]
  {
  }

  lemma SecondFacts(fs: Fs, first: nat, owner: map<nat, Slot>, ino: nat, i: nat)
    requires Owned(fs, first, owner) && ino < |fs.inodes| && i < NINDIRECT && Ptr(fs, Root(ino, NDIRECT + 1)) != 0
    ensures LowestTable(fs, ino, Second(ino, i)) && Order(Second(ino, i)) == NDIRECT + 1 + i
    ensures Ptr(fs, Root(ino, NDIRECT + 1)) < |fs.blocks| && Ptr(fs, Second(ino, i)) < |fs.blocks|
    ensures Ptr(fs, Second(ino, i)) == Word(fs.blocks[Ptr(fs, Root(ino, NDIRECT + 1))], i)
  {
    hide Word;
    PtrBound(fs, first, owner, Root(ino, NDIRECT + 1));
    PtrBound(fs, first, owner, Second(ino, i));
  }

  lemma NotAnEntry(s: Slot, n: nat)
    ensures s !in (set j | 0 <= j < n :: Entry(s, j)) || s.Leaf?
  {
  }

  // ----- what truncation leaves --------------------------------------------

  /** The state after inode_truncate: the released blocks are unmarked, the inode is empty. */
  ghost predicate Truncated(fs: Fs, fs': Fs, owner: map<nat, Slot>, ino: nat)
    requires fs.Wf()
  {
    && ino < |fs.inodes| && fs'.blocks == fs.blocks && |fs'.marked| == |fs.marked|
    && fs'.inodes == fs.inodes[ino := Inode(NULLS, 0)]
    && forall b :: 0 <= b < |fs.marked| ==>
         (fs'.marked[b] <==> (fs.marked[b] &&
            !(b in owner && IsSlot(|fs.inodes|, owner[b]) && owner[b].ino == ino && Released(fs, owner[b]))))
  }

  lemma StageFinal(fs: Fs, first: nat, owner: map<nat, Slot>, marked: seq<bool>, done: set<Slot>, ino: nat,
                   inodes: seq<Inode>)
    requires Owned(fs, first, owner) && ino < |fs.inodes|
    requires Freeing(fs, owner, marked, done) && Stage(fs, ino, done, NDIRECT + 2 + NINDIRECT)
    requires inodes == fs.inodes[ino := Inode(NULLS, 0)]
    ensures Truncated(fs, Fs(marked, fs.blocks, inodes), owner, ino)
  {
    hide Word, Leading, Ptr, Released;
    assert forall s :: IsSlot(|fs.inodes|, s) ==> Order(s) < NDIRECT + 2 + NINDIRECT;
  }

  /** The slot of the `i`-th table below the doubly indirect one. */
  function Second(ino: nat, i: nat): (s: Slot) {
    Mid(ino, NDIRECT + 1, i)
  }

  /** No table of data block numbers has a null entry before a non-null one. */
  ghost predicate NoGaps(fs: Fs, ino: nat)
    requires fs.Wf() && ino < |fs.inodes|
  {
    && PrefixTable(fs, Root(ino, NDIRECT))
    && forall i: nat :: i < NINDIRECT ==> PrefixTable(fs, Second(ino, i))
  }

  ghost predicate PrefixTable(fs: Fs, s: Slot)
    requires fs.Wf() && IsSlot(|fs.inodes|, s)
  {
    forall j, k :: 0 <= j < k < NINDIRECT && Load(fs, Ptr(fs, s), k) != 0 ==> Load(fs, Ptr(fs, s), j) != 0
  }

  lemma PrefixTableIff(fs: Fs, s: Slot)
    requires fs.Wf() && IsSlot(|fs.inodes|, s)
    ensures PrefixTable(fs, s) <==>
            forall j: nat :: j < NINDIRECT && Load(fs, Ptr(fs, s), j) != 0 ==> InPrefix(fs, Ptr(fs, s), j)
  {
    hide Word, Ptr;
    var p := Ptr(fs, s);
    if 0 < p < |fs.blocks| {
      var b := fs.blocks[p];
      var stop := Leading(b, 0);
      assert forall j :: 0 <= j < NINDIRECT ==> Load(fs, p, j) == Word(b, j);
      if PrefixTable(fs, s) && stop < NINDIRECT {
        assert Load(fs, p, stop) == 0;
      }
    }
  }

  /** The early `break` is safe exactly when no table has a hole: then, and only then, every
      block of the inode's tree is free after inode_truncate. */
  lemma TruncateFreesAllIff(fs: Fs, fs': Fs, first: nat, owner: map<nat, Slot>, ino: nat)
    requires Owned(fs, first, owner) && Truncated(fs, fs', owner, ino)
    ensures (forall s :: IsSlot(|fs.inodes|, s) && s.ino == ino && Ptr(fs, s) != 0 ==> !fs'.marked[Ptr(fs, s)])
            <==> NoGaps(fs, ino)
  {
    hide Word, Leading, Ptr, PrefixTable, InPrefix;
    assert forall s :: IsSlot(|fs.inodes|, s) && s.ino == ino && Ptr(fs, s) != 0 ==>
                         (!fs'.marked[Ptr(fs, s)] <==> Released(fs, s));
    ReleasedAllIff(fs, ino);
  }

  lemma ReleasedAllIff(fs: Fs, ino: nat)
    requires fs.Wf() && ino < |fs.inodes|
    ensures (forall s :: IsSlot(|fs.inodes|, s) && s.ino == ino && Ptr(fs, s) != 0 ==> Released(fs, s))
            <==> NoGaps(fs, ino)
  {
    hide Word, Leading, InPrefix, PrefixTable, Ptr, Released, NoGaps;
    if forall s :: IsSlot(|fs.inodes|, s) && s.ino == ino && Ptr(fs, s) != 0 ==> Released(fs, s) {
      AllReleasedNoGaps(fs, ino);
    }
    if NoGaps(fs, ino) {
      forall s | IsSlot(|fs.inodes|, s) && s.ino == ino && Ptr(fs, s) != 0
        ensures Released(fs, s)
      {
        NoGapsReleased(fs, ino, s);
      }
    }
  }

  lemma NoGapsReleased(fs: Fs, ino: nat, s: Slot)
    requires fs.Wf() && ino < |fs.inodes| && NoGaps(fs, ino)
    requires IsSlot(|fs.inodes|, s) && s.ino == ino && Ptr(fs, s) != 0
    ensures Released(fs, s)
  {
    hide Word, Leading, InPrefix, PrefixTable;
    match s
    case Root(_, _) =>
    case Mid(_, k, j) =>
      if k == NDIRECT { PrefixTableIff(fs, Root(ino, NDIRECT)); }
    case Leaf(_, i, j) =>
      assert PrefixTable(fs, Second(ino, i));
      PrefixTableIff(fs, Second(ino, i));
  }

  lemma AllReleasedNoGaps(fs: Fs, ino: nat)
    requires fs.Wf() && ino < |fs.inodes|
    requires forall s :: IsSlot(|fs.inodes|, s) && s.ino == ino && Ptr(fs, s) != 0 ==> Released(fs, s)
    ensures NoGaps(fs, ino)
  {
    hide Word, Leading, InPrefix, PrefixTable;
    var root := Root(ino, NDIRECT);
    forall j: nat | j < NINDIRECT && Load(fs, Ptr(fs, root), j) != 0
      ensures InPrefix(fs, Ptr(fs, root), j)
    {
      assert Ptr(fs, Mid(ino, NDIRECT, j)) == Load(fs, Ptr(fs, root), j);
    }
    PrefixTableIff(fs, root);
    forall i: nat | i < NINDIRECT
      ensures PrefixTable(fs, Second(ino, i))
    {
      var up := Second(ino, i);
      forall j: nat | j < NINDIRECT && Load(fs, Ptr(fs, up), j) != 0
        ensures InPrefix(fs, Ptr(fs, up), j)
      {
        assert Ptr(fs, Leaf(ino, i, j)) == Load(fs, Ptr(fs, up), j);
      }
      PrefixTableIff(fs, up);
    }
  }

  /** A file without holes has no such table. */
  lemma ShapedNoGaps(fs: Fs, ino: nat, nb: nat)
    requires Shaped(fs, ino, nb)
    ensures NoGaps(fs, ino)
  {
    hide Word;
    forall j, k | 0 <= j < k < NINDIRECT && Load(fs, Ptr(fs, Root(ino, NDIRECT)), k) != 0
      ensures Load(fs, Ptr(fs, Root(ino, NDIRECT)), j) != 0
    {
      assert Ptr(fs, Mid(ino, NDIRECT, k)) != 0;
      assert Ptr(fs, Mid(ino, NDIRECT, j)) != 0;
    }
    forall i: nat, j, k | i < NINDIRECT && 0 <= j < k < NINDIRECT && Load(fs, Ptr(fs, Second(ino, i)), k) != 0
      ensures Load(fs, Ptr(fs, Second(ino, i)), j) != 0
    {
      assert Ptr(fs, Leaf(ino, i, k)) != 0;
      assert Ptr(fs, Leaf(ino, i, j)) != 0;
    }
  }

  // ----- truncation keeps the file system consistent -----------------------

  /** Ownership after truncation: the inode's slots own nothing any more. */
  function Disown(owner: map<nat, Slot>, ino: nat): (r: map<nat, Slot>) {
    map b | b in owner && owner[b].ino != ino :: owner[b]
  }

  lemma TruncatedPtrs(fs: Fs, fs': Fs, owner: map<nat, Slot>, ino: nat, s: Slot)
    requires fs.Wf() && Truncated(fs, fs', owner, ino) && IsSlot(|fs.inodes|, s)
    ensures fs'.Wf() && Ptr(fs', s) == if s.ino == ino then 0 else Ptr(fs, s)
  {
    hide Word, Leading;
  }

  lemma TruncateKeepsOwned(fs: Fs, fs': Fs, first: nat, owner: map<nat, Slot>, ino: nat)
    requires Owned(fs, first, owner) && Truncated(fs, fs', owner, ino)
    ensures Owned(fs', first, Disown(owner, ino)) <==> NoGaps(fs, ino)
  {
    hide Word, Leading, Ptr, NoGaps, Released;
    var o := Disown(owner, ino);
    TruncatedPtrs(fs, fs', owner, ino, Root(ino, 0));
    forall s {:trigger Ptr(fs', s)} | IsSlot(|fs.inodes|, s)
      ensures Ptr(fs', s) == if s.ino == ino then 0 else Ptr(fs, s)
    {
      TruncatedPtrs(fs, fs', owner, ino, s);
    }
    TruncateFreesAllIff(fs, fs', first, owner, ino);
    if NoGaps(fs, ino) {
      forall b
        ensures b in o <==> first <= b < |fs'.marked| && fs'.marked[b]
      {
        if b in owner && owner[b].ino == ino {
          assert Ptr(fs, owner[b]) == b;
        }
      }
    } else {
      var s :| IsSlot(|fs.inodes|, s) && s.ino == ino && Ptr(fs, s) != 0 && fs'.marked[Ptr(fs, s)];
      assert Ptr(fs, s) !in o;
    }
  }

  /** The other files are untouched, this one is empty, and there is still no hole. */
  lemma TruncateKeepsFiles(fs: Fs, fs': Fs, first: nat, owner: map<nat, Slot>, ino: nat)
    requires Owned(fs, first, owner) && NoHoles(fs) && Truncated(fs, fs', owner, ino)
    ensures NoHoles(fs') && fs'.inodes[ino].size == 0
    ensures forall i :: 0 <= i < |fs.inodes| && i != ino ==>
              fs'.inodes[i] == fs.inodes[i] && fs.inodes[i].size <= MAXBYTES && Contents(fs', i) == Contents(fs, i)
  {
    hide Word, Leading, Ptr, Released, InUse, DataSlot, Owned;
    TruncatedPtrs(fs, fs', owner, ino, Root(ino, 0));
    forall s {:trigger Ptr(fs', s)} | IsSlot(|fs.inodes|, s)
      ensures Ptr(fs', s) == if s.ino == ino then 0 else Ptr(fs, s)
    {
      TruncatedPtrs(fs, fs', owner, ino, s);
    }
    forall s | IsSlot(|fs.inodes|, s) && s.ino == ino
      ensures !InUse(0, s)
    {
      NothingInUse(s);
    }
    assert Shaped(fs', ino, BlockCount(0));
    forall i {:trigger fs'.inodes[i]} | 0 <= i < |fs'.inodes|
      ensures fs'.inodes[i].size <= MAXFILE * BSIZE && Shaped(fs', i, BlockCount(fs'.inodes[i].size))
    {
      if i != ino { assert Shaped(fs, i, BlockCount(fs.inodes[i].size)); }
    }
    forall i | 0 <= i < |fs.inodes| && i != ino
      ensures fs'.inodes[i] == fs.inodes[i] && Contents(fs', i) == Contents(fs, i)
    {
      forall k | 0 <= k < fs.inodes[i].size
        ensures FileByte(fs', i, k) == FileByte(fs, i, k)
      {
        DataSlotIs(|fs.inodes|, i, k / BSIZE);
      }
    }
  }

  /** A file system in which every inode is empty. */
  lemma EmptyConsistent(fs: Fs, first: nat)
    requires fs.Wf() && 1 <= first <= |fs.marked|
    requires forall b :: 0 <= b < |fs.marked| ==> (fs.marked[b] <==> b < first)
    requires forall i :: 0 <= i < |fs.inodes| ==> fs.inodes[i] == Inode(NULLS, 0)
    ensures Owned(fs, first, map[]) && NoHoles(fs)
  {
    hide Word, InUse;
    forall s {:trigger Ptr(fs, s)} | IsSlot(|fs.inodes|, s)
      ensures Ptr(fs, s) == 0 && !InUse(0, s)
    {
      NothingInUse(s);
    }
  }
}

/** The block tree of a file (kernel/fs.c): direct blocks, one indirect table, one doubly
    indirect table, all over one pool of disk blocks with a free bitmap. */
module BlockTree {
  import opened Arithmetic
  import opened Blocks

  const NDIRECT := 8
  const NINDIRECT := 256
  const NADDRS := 10
  const MAXFILE := 65800      // NDIRECT + NINDIRECT + NINDIRECT * NINDIRECT
  const DOUBLE := 264         // first block number behind the doubly indirect table

  const NULLS: seq<nat> := [0, 0, 0, 0, 0, 0, 0, 0, 0, 0]

  datatype Inode = Inode(addrs: seq<nat>, size: nat)

  /** `marked[b]`: the bitmap bit of block b. */
  datatype Fs = Fs(marked: seq<bool>, blocks: seq<Block>, inodes: seq<Inode>) {
    ghost predicate Wf() {
      && |marked| == |blocks| < TWO64
      && forall i :: 0 <= i < |inodes| ==> |inodes[i].addrs| == NADDRS
    }
  }

  /** The places in which an inode keeps a block number: `ip->addrs[k]`, entry `j` of the
      table at `addrs[k]`, entry `j` of the i-th table below the doubly indirect one. */
  datatype Slot =
    | Root(ino: nat, k: nat)
    | Mid(ino: nat, k: nat, j: nat)
    | Leaf(ino: nat, i: nat, j: nat)

  predicate IsSlot(inodes: nat, s: Slot) {
    s.ino < inodes &&
    match s
    case Root(_, k) => k < NADDRS
    case Mid(_, k, j) => NDIRECT <= k < NADDRS && j < NINDIRECT
    case Leaf(_, i, j) => i < NINDIRECT && j < NINDIRECT
  }

  /** Entry `j` of the table in block `p`; a null table has null entries only. */
  function Load(fs: Fs, p: nat, j: nat): (v: nat)
    requires j < NINDIRECT
  {
    if 0 < p < |fs.blocks| then Word(fs.blocks[p], j) else 0
  }

  /** The table a slot lies in; 0 for a slot of the inode itself. */
  function Table(fs: Fs, s: Slot): (p: nat)
    requires fs.Wf() && IsSlot(|fs.inodes|, s)
  {
    match s
    case Root(_, _) => 0
    case Mid(ino, k, _) => fs.inodes[ino].addrs[k]
    case Leaf(ino, i, _) => Load(fs, fs.inodes[ino].addrs[NDIRECT + 1], i)
  }

  /** The block number stored in a slot. */
  function Ptr(fs: Fs, s: Slot): (p: nat)
    requires fs.Wf() && IsSlot(|fs.inodes|, s)
  {
    match s
    case Root(ino, k) => fs.inodes[ino].addrs[k]
    case Mid(_, _, j) => Load(fs, Table(fs, s), j)
    case Leaf(_, _, j) => Load(fs, Table(fs, s), j)
  }

  /** A slot that points to a table rather than to file data. */
  predicate IsTableSlot(s: Slot) {
    match s
    case Root(_, k) => k >= NDIRECT
    case Mid(_, k, _) => k == NDIRECT + 1
    case Leaf(_, _, _) => false
  }

  /** Ownership: `owner` is a one-to-one correspondence between the data blocks marked in
      the bitmap and the non-null slots of all inodes. Blocks below `first` hold metadata. */
  ghost predicate Owned(fs: Fs, first: nat, owner: map<nat, Slot>) {
    && fs.Wf() && 1 <= first <= |fs.marked|
    && (forall b :: 0 <= b < first ==> fs.marked[b])
    && (forall b :: b in owner <==> first <= b < |fs.marked| && fs.marked[b])
    && (forall b :: b in owner ==> IsSlot(|fs.inodes|, owner[b]) && Ptr(fs, owner[b]) == b)
    && (forall s {:trigger Ptr(fs, s)} :: IsSlot(|fs.inodes|, s) && Ptr(fs, s) != 0 ==>
          Ptr(fs, s) in owner && owner[Ptr(fs, s)] == s)
  }

  /** Distinct places never share a disk block. */
  lemma NoSharing(fs: Fs, first: nat, owner: map<nat, Slot>, s: Slot, t: Slot)
    requires Owned(fs, first, owner) && IsSlot(|fs.inodes|, s) && IsSlot(|fs.inodes|, t)
    requires s != t && Ptr(fs, s) != 0
    ensures Ptr(fs, s) != Ptr(fs, t) && fs.marked[Ptr(fs, s)]
  {
  }

  /** block_alloc's effect on the pool: mark and zero. */
  function Mark(fs: Fs, b: nat): (r: Fs)
    requires b < |fs.marked| == |fs.blocks|
  {
    Fs(fs.marked[b := true], fs.blocks[b := ZeroBlock()], fs.inodes)
  }

  /** Storing block number `b` in slot `s`. */
  function Store(fs: Fs, s: Slot, b: nat): (r: Fs)
    requires fs.Wf() && IsSlot(|fs.inodes|, s)
    requires !s.Root? ==> 0 < Table(fs, s) < |fs.blocks|
  {
    match s
    case Root(ino, k) =>
      Fs(fs.marked, fs.blocks, fs.inodes[ino := Inode(fs.inodes[ino].addrs[k := b], fs.inodes[ino].size)])
    case Mid(_, _, j) =>
      Fs(fs.marked, fs.blocks[Table(fs, s) := SetWord(fs.blocks[Table(fs, s)], j, b)], fs.inodes)
    case Leaf(_, _, j) =>
      Fs(fs.marked, fs.blocks[Table(fs, s) := SetWord(fs.blocks[Table(fs, s)], j, b)], fs.inodes)
  }

  /** Allocating block `b` for the empty slot `s`. */
  function Grow(fs: Fs, s: Slot, b: nat): (r: Fs)
    requires fs.Wf() && IsSlot(|fs.inodes|, s) && b < |fs.blocks|
    requires !s.Root? ==> 0 < Table(fs, s) < |fs.blocks| && Table(fs, s) != b
    requires b != fs.inodes[s.ino].addrs[NDIRECT + 1]
  {
    Store(Mark(fs, b), s, b)
  }

  // ----- frames ------------------------------------------------------------

  /** Table blocks are owned by table slots, so they are neither free nor file data. */
  lemma TableOwner(fs: Fs, first: nat, owner: map<nat, Slot>, s: Slot)
    requires Owned(fs, first, owner) && IsSlot(|fs.inodes|, s) && Table(fs, s) != 0
    ensures Table(fs, s) in owner && IsTableSlot(owner[Table(fs, s)])
    ensures s.Mid? ==> owner[Table(fs, s)] == Root(s.ino, s.k)
    ensures s.Leaf? ==> owner[Table(fs, s)] == Mid(s.ino, NDIRECT + 1, s.i)
  {
    hide Word;
    match s
    case Root(_, _) =>
    case Mid(ino, k, _) => assert Ptr(fs, Root(ino, k)) == Table(fs, s);
    case Leaf(ino, i, _) => assert Ptr(fs, Mid(ino, NDIRECT + 1, i)) == Table(fs, s);
  }

  /** Changing blocks that are not tables changes no pointer. */
  lemma PtrFrame(fs: Fs, fs': Fs, first: nat, owner: map<nat, Slot>, s: Slot)
    requires Owned(fs, first, owner) && IsSlot(|fs.inodes|, s) && fs'.Wf()
    requires fs'.inodes == fs.inodes && |fs'.blocks| == |fs.blocks|
    requires forall p :: p in owner && IsTableSlot(owner[p]) ==> fs'.blocks[p] == fs.blocks[p]
    ensures Table(fs', s) == Table(fs, s) && Ptr(fs', s) == Ptr(fs, s)
  {
    hide Word;
    match s
    case Root(_, _) =>
    case Mid(ino, k, j) =>
      if Table(fs, s) != 0 { TableOwner(fs, first, owner, s); }
    case Leaf(ino, i, j) =>
      var up := Mid(ino, NDIRECT + 1, i);
      if Table(fs, up) != 0 { TableOwner(fs, first, owner, up); }
      if Table(fs, s) != 0 { TableOwner(fs, first, owner, s); }
  }

  /** Marking a free block changes no pointer. */
  lemma MarkFrame(fs: Fs, first: nat, owner: map<nat, Slot>, b: nat, s: Slot)
    requires Owned(fs, first, owner) && b < |fs.marked| && !fs.marked[b] && IsSlot(|fs.inodes|, s)
    ensures Mark(fs, b).Wf()
    ensures Table(Mark(fs, b), s) == Table(fs, s) && Ptr(Mark(fs, b), s) == Ptr(fs, s)
  {
    hide Word;
    PtrFrame(fs, Mark(fs, b), first, owner, s);
  }

  // ----- growing the tree --------------------------------------------------

  /** `s` is empty, the table it lies in exists, and block `b` is free. */
  ghost predicate CanGrow(fs: Fs, first: nat, owner: map<nat, Slot>, s: Slot, b: nat) {
    && Owned(fs, first, owner) && IsSlot(|fs.inodes|, s)
    && Ptr(fs, s) == 0 && (!s.Root? ==> Table(fs, s) != 0)
    && b < |fs.marked| && !fs.marked[b]
  }

  lemma CanGrowBounds(fs: Fs, first: nat, owner: map<nat, Slot>, s: Slot, b: nat)
    requires CanGrow(fs, first, owner, s, b)
    ensures first <= b && b !in owner
    ensures !s.Root? ==> 0 < Table(fs, s) < |fs.blocks| && Table(fs, s) != b && Table(fs, s) in owner
    ensures b != fs.inodes[s.ino].addrs[NDIRECT + 1]
    ensures Table(Mark(fs, b), s) == Table(fs, s)
  {
    hide Word;
    if !s.Root? { TableOwner(fs, first, owner, s); }
    assert Ptr(fs, Root(s.ino, NDIRECT + 1)) == fs.inodes[s.ino].addrs[NDIRECT + 1];
    MarkFrame(fs, first, owner, b, s);
  }

  /** The slot that was filled now holds `b`, and no other slot changed: in particular
      the entries of a new table are all null. */
  lemma GrowPtrs(fs: Fs, first: nat, owner: map<nat, Slot>, s: Slot, b: nat, t: Slot)
    requires CanGrow(fs, first, owner, s, b) && IsSlot(|fs.inodes|, t)
    ensures !s.Root? ==> 0 < Table(fs, s) < |fs.blocks| && Table(fs, s) != b
    ensures b != fs.inodes[s.ino].addrs[NDIRECT + 1]
    ensures Grow(fs, s, b).Wf()
    ensures Ptr(Grow(fs, s, b), t) == (if t == s then b else Ptr(fs, t))
  {
    hide Word, SetWord;
    CanGrowBounds(fs, first, owner, s, b);
    var m, r := Mark(fs, b), Grow(fs, s, b);
    MarkFrame(fs, first, owner, b, t);
    match s
    case Root(ino, k) => GrowRoot(fs, first, owner, ino, k, b, t);
    case Mid(ino, k, j) =>
      SetWordReads(m.blocks[Table(fs, s)], j, b);
      GrowTable(fs, first, owner, s, j, b, t);
    case Leaf(ino, i, j) =>
      SetWordReads(m.blocks[Table(fs, s)], j, b);
      GrowTable(fs, first, owner, s, j, b, t);
  }

  lemma GrowRoot(fs: Fs, first: nat, owner: map<nat, Slot>, ino: nat, k: nat, b: nat, t: Slot)
    requires CanGrow(fs, first, owner, Root(ino, k), b) && IsSlot(|fs.inodes|, t)
    requires b != fs.inodes[ino].addrs[NDIRECT + 1] && first <= b
    ensures Ptr(Grow(fs, Root(ino, k), b), t) == (if t == Root(ino, k) then b else Ptr(fs, t))
  {
    hide Word;
    var m, r := Mark(fs, b), Grow(fs, Root(ino, k), b);
    assert r.Wf();
    MarkFrame(fs, first, owner, b, t);
    match t
    case Root(_, _) =>
    case Mid(ino', k', j) =>
      if ino' == ino && k' == k { ZeroBlockWords(j); }
    case Leaf(ino', i, j) =>
      if ino' == ino && k == NDIRECT + 1 {
        ZeroBlockWords(i);
        assert Table(r, t) == 0;
      } else {
        MarkFrame(fs, first, owner, b, Mid(ino', NDIRECT + 1, i));
        assert Table(r, t) == Table(m, t);
      }
  }

  lemma GrowTable(fs: Fs, first: nat, owner: map<nat, Slot>, s: Slot, j: nat, b: nat, t: Slot)
    requires CanGrow(fs, first, owner, s, b) && IsSlot(|fs.inodes|, t) && !s.Root? && s.j == j
    requires 0 < Table(fs, s) < |fs.blocks| && Table(fs, s) != b && first <= b && b !in owner
    requires b != fs.inodes[s.ino].addrs[NDIRECT + 1]
    requires var p := Mark(fs, b).blocks[Table(fs, s)];
             Word(SetWord(p, j, b), j) == b
             && forall j': nat :: j' < WORDS && j' != j ==> Word(SetWord(p, j, b), j') == Word(p, j')
    ensures Ptr(Grow(fs, s, b), t) == (if t == s then b else Ptr(fs, t))
  {
    hide Word, SetWord;
    var m, r := Mark(fs, b), Grow(fs, s, b);
    var p := Table(fs, s);
    assert r.Wf() && r.blocks[p] == SetWord(m.blocks[p], j, b) && r.inodes == fs.inodes;
    MarkFrame(fs, first, owner, b, t);
    TableOwner(fs, first, owner, s);
    match t
    case Root(_, _) =>
    case Mid(_, _, _) =>
      if Table(fs, t) != 0 { TableOwner(fs, first, owner, t); }
    case Leaf(ino, i, j') =>
      var up := Mid(ino, NDIRECT + 1, i);
      MarkFrame(fs, first, owner, b, up);
      if Table(fs, up) != 0 { TableOwner(fs, first, owner, up); }
      if Table(fs, t) != 0 { TableOwner(fs, first, owner, t); }
      if up == s {
        assert Table(r, t) == b;
        ZeroBlockWords(j');
      } else {
        assert Table(r, t) == Table(fs, t);
      }
  }

  /** Allocation keeps ownership: the new block gets exactly one owner. */
  lemma GrowOwned(fs: Fs, first: nat, owner: map<nat, Slot>, s: Slot, b: nat)
    requires CanGrow(fs, first, owner, s, b)
    ensures !s.Root? ==> 0 < Table(fs, s) < |fs.blocks| && Table(fs, s) != b
    ensures b != fs.inodes[s.ino].addrs[NDIRECT + 1]
    ensures Owned(Grow(fs, s, b), first, owner[b := s])
  {
    hide Word, SetWord;
    CanGrowBounds(fs, first, owner, s, b);
    var r := Grow(fs, s, b);
    forall t | IsSlot(|fs.inodes|, t)
      ensures r.Wf() && Ptr(r, t) == (if t == s then b else Ptr(fs, t))
    {
      GrowPtrs(fs, first, owner, s, b, t);
    }
    assert r.Wf();
  }
}

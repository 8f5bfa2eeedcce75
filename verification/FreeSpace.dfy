/** Conservation of disk blocks (kernel/fs.c): what is not free is metadata or in the tree of
    one file, and a tree without holes has as many blocks as the size of its file calls for. */
module FreeSpace {
  import opened Arithmetic
  import opened Bitmap
  import opened BlockTree
  import opened FileShape

  // ----- the slots of one file ---------------------------------------------

  /** What block `nb` adds to a file: its data slot, and its tables if it is the first below them. */
  ghost function NewSlots(ino: nat, nb: nat): (u: set<Slot>)
    requires nb < MAXFILE
  {
    Unused(nb, Path(ino, nb))
  }

  ghost function Unused(nb: nat, path: seq<Slot>): (u: set<Slot>) {
    set s | s in path && !InUse(nb, s)
  }

  /** The slots that a file of `nb` blocks without holes uses, block by block. */
  ghost function UsedSlots(ino: nat, nb: nat): (u: set<Slot>)
    requires nb <= MAXFILE
  {
    if nb == 0 then {} else UsedSlots(ino, nb - 1) + NewSlots(ino, nb - 1)
  }

  lemma {:induction false} UsedIff(ino: nat, nb: nat, s: Slot)
    requires nb <= MAXFILE
    ensures s in UsedSlots(ino, nb) <==> IsSlot(ino + 1, s) && s.ino == ino && InUse(nb, s)
  {
    hide InUse, Path;
    if nb == 0 {
      NothingInUse(s);
    } else {
      UsedIff(ino, nb - 1, s);
      PathIno(ino, nb - 1, s);
      PathSlots(ino + 1, ino, nb - 1);
      if IsSlot(ino + 1, s) && s.ino == ino { InUseGrows(ino, nb - 1, s, ino + 1); }
    }
  }

  lemma NewDirect(ino: nat, nb: nat)
    requires nb < NDIRECT
    ensures |NewSlots(ino, nb)| == TreeSize(nb + 1) - TreeSize(nb)
  {
    assert NewSlots(ino, nb) == {Root(ino, nb)};
  }

  lemma NewIndirect(ino: nat, nb: nat)
    requires NDIRECT <= nb < DOUBLE
    ensures |NewSlots(ino, nb)| == TreeSize(nb + 1) - TreeSize(nb)
  {
    var top, data := Root(ino, NDIRECT), Mid(ino, NDIRECT, nb - NDIRECT);
    assert Path(ino, nb) == [top, data] && !InUse(nb, data) && (InUse(nb, top) <==> nb > NDIRECT);
    hide InUse, Path;
    assert NewSlots(ino, nb) == if nb == NDIRECT then {top, data} else {data};
  }

  lemma UnusedCons(nb: nat, x: Slot, rest: seq<Slot>)
    requires x !in rest
    ensures |Unused(nb, [x] + rest)| == |Unused(nb, rest)| + if InUse(nb, x) then 0 else 1
  {
    hide InUse;
    if InUse(nb, x) {
      assert Unused(nb, [x] + rest) == Unused(nb, rest);
    } else {
      assert Unused(nb, [x] + rest) == Unused(nb, rest) + {x};
    }
  }

  lemma Three(nb: nat, top: Slot, mid: Slot, data: Slot)
    requires top != mid && mid != data && data != top && !InUse(nb, data)
    ensures |Unused(nb, [top, mid, data])| == (if InUse(nb, top) then 0 else 1) + (if InUse(nb, mid) then 0 else 1) + 1
  {
    hide InUse, Unused;
    UnusedCons(nb, top, [mid, data]);
    UnusedCons(nb, mid, [data]);
    UnusedCons(nb, data, []);
    assert [top] + [mid, data] == [top, mid, data] && [mid] + [data] == [mid, data] && [data] + [] == [data];
    assert Unused(nb, []) == {} by { UnusedNone(nb); }
  }

  lemma UnusedNone(nb: nat)
    ensures Unused(nb, []) == {}
  {
  }

  lemma DoublePath(ino: nat, nb: nat)
    requires DOUBLE <= nb < MAXFILE
    ensures var d := nb - DOUBLE;
      Path(ino, nb) == [Root(ino, NDIRECT + 1), Mid(ino, NDIRECT + 1, d / NINDIRECT),
                        Leaf(ino, d / NINDIRECT, d % NINDIRECT)]
  {
  }

  lemma NewDouble(ino: nat, nb: nat)
    requires DOUBLE <= nb < MAXFILE
    ensures |NewSlots(ino, nb)| == TreeSize(nb + 1) - TreeSize(nb)
  {
    hide InUse, TreeSize, Path, Unused;
    var q, r := (nb - DOUBLE) / NINDIRECT, (nb - DOUBLE) % NINDIRECT;
    DoublePath(ino, nb);
    DoubleInUse(ino, nb);
    Three(nb, Root(ino, NDIRECT + 1), Mid(ino, NDIRECT + 1, q), Leaf(ino, q, r));
    DoubleGrowth(nb);
  }

  lemma DoubleInUse(ino: nat, nb: nat)
    requires DOUBLE <= nb < MAXFILE
    ensures var d := nb - DOUBLE;
      && !InUse(nb, Leaf(ino, d / NINDIRECT, d % NINDIRECT))
      && (InUse(nb, Root(ino, NDIRECT + 1)) <==> d > 0)
      && (InUse(nb, Mid(ino, NDIRECT + 1, d / NINDIRECT)) <==> d % NINDIRECT > 0)
  {
  }

  lemma DoubleGrowth(nb: nat)
    requires nb >= DOUBLE
    ensures TreeSize(nb + 1) - TreeSize(nb) ==
              1 + (if nb == DOUBLE then 1 else 0) + (if (nb - DOUBLE) % NINDIRECT == 0 then 1 else 0)
  {
    var d := nb - DOUBLE;
    DivUnique(d + NINDIRECT, NINDIRECT, d / NINDIRECT + 1, d % NINDIRECT);
    if d % NINDIRECT == 0 {
      DivUnique(d + NINDIRECT - 1, NINDIRECT, d / NINDIRECT, NINDIRECT - 1);
    } else {
      DivUnique(d + NINDIRECT - 1, NINDIRECT, d / NINDIRECT + 1, d % NINDIRECT - 1);
    }
  }

  lemma NewSlotsCount(ino: nat, nb: nat)
    requires nb < MAXFILE
    ensures |NewSlots(ino, nb)| == TreeSize(nb + 1) - TreeSize(nb)
  {
    hide InUse, Path, TreeSize, NewSlots;
    if nb < NDIRECT { NewDirect(ino, nb); } else if nb < DOUBLE { NewIndirect(ino, nb); } else { NewDouble(ino, nb); }
  }

  /** A tree without holes has TreeSize blocks. */
  lemma {:induction false} UsedCount(ino: nat, nb: nat)
    requires nb <= MAXFILE
    ensures |UsedSlots(ino, nb)| == TreeSize(nb)
  {
    hide InUse, Path, TreeSize;
    assert TreeSize(0) == 0 by { TreeOfNone(); }
    if nb > 0 {
      var before, added := UsedSlots(ino, nb - 1), NewSlots(ino, nb - 1);
      UsedCount(ino, nb - 1);
      NewSlotsCount(ino, nb - 1);
      forall s | s in before ensures s !in added { UsedIff(ino, nb - 1, s); }
      assert before !! added;
    }
  }

  lemma TreeOfNone()
    ensures TreeSize(0) == 0
  {
  }

  // ----- the slots of all files --------------------------------------------

  /** Blocks in the trees of files of the given sizes. */
  function TreeBlocks(sizes: seq<nat>): (n: nat) {
    if |sizes| == 0 then 0
    else TreeBlocks(sizes[..|sizes| - 1]) + TreeSize(BlockCount(sizes[|sizes| - 1]))
  }

  lemma {:induction false} TreeBlocksUpdate(sizes: seq<nat>, i: nat, size: nat)
    requires i < |sizes|
    ensures TreeBlocks(sizes[i := size]) ==
              TreeBlocks(sizes) - TreeSize(BlockCount(sizes[i])) + TreeSize(BlockCount(size))
  {
    hide TreeSize, BlockCount;
    var n := |sizes| - 1;
    if i < n {
      TreeBlocksUpdate(sizes[..n], i, size);
      assert sizes[i := size][..n] == sizes[..n][i := size];
    } else {
      assert sizes[i := size][..n] == sizes[..n];
    }
  }

  ghost function AllSlots(sizes: seq<nat>): (u: set<Slot>)
    requires forall i :: 0 <= i < |sizes| ==> BlockCount(sizes[i]) <= MAXFILE
  {
    if |sizes| == 0 then {}
    else AllSlots(sizes[..|sizes| - 1]) + UsedSlots(|sizes| - 1, BlockCount(sizes[|sizes| - 1]))
  }

  lemma {:induction false} AllIff(sizes: seq<nat>, s: Slot)
    requires forall i :: 0 <= i < |sizes| ==> BlockCount(sizes[i]) <= MAXFILE
    ensures s in AllSlots(sizes) <==> IsSlot(|sizes|, s) && InUse(BlockCount(sizes[s.ino]), s)
  {
    hide InUse, BlockCount;
    if |sizes| > 0 {
      var n := |sizes| - 1;
      AllIff(sizes[..n], s);
      UsedIff(n, BlockCount(sizes[n]), s);
    }
  }

  lemma {:induction false} AllCount(sizes: seq<nat>)
    requires forall i :: 0 <= i < |sizes| ==> BlockCount(sizes[i]) <= MAXFILE
    ensures |AllSlots(sizes)| == TreeBlocks(sizes)
  {
    hide InUse, BlockCount, TreeSize;
    if |sizes| > 0 {
      var n := |sizes| - 1;
      var rest, mine := AllSlots(sizes[..n]), UsedSlots(n, BlockCount(sizes[n]));
      AllCount(sizes[..n]);
      UsedCount(n, BlockCount(sizes[n]));
      forall s | s in rest ensures s !in mine {
        AllIff(sizes[..n], s);
        UsedIff(n, BlockCount(sizes[n]), s);
      }
      assert rest !! mine;
    }
  }

  // ----- counting ----------------------------------------------------------

  /** A one-to-one correspondence relates sets of equal size. */
  lemma {:induction false} OneToOne(m: map<nat, Slot>, u: set<Slot>)
    requires forall a, b :: a in m && b in m && m[a] == m[b] ==> a == b
    requires forall a :: a in m ==> m[a] in u
    requires forall s :: s in u ==> exists a :: a in m && m[a] == s
    ensures |m.Keys| == |u|
    decreases |u|
  {
    if u == {} {
      assert m.Keys == {};
    } else {
      var s :| s in u;
      var a :| a in m && m[a] == s;
      var m' := m - {a};
      forall t | t in u - {s} ensures exists b :: b in m' && m'[b] == t {
        var b :| b in m && m[b] == t;
        assert b in m' && m'[b] == t;
      }
      OneToOne(m', u - {s});
      assert m.Keys == m'.Keys + {a};
    }
  }

  /** The blocks from `k` on that are marked, and those that are free. */
  lemma {:induction false} MarkedCount(m: seq<bool>, k: nat)
    requires k <= |m|
    ensures FreeCount(m[k..]) + |set b | k <= b < |m| && m[b]| == |m| - k
    decreases |m| - k
  {
    var here := set b | k <= b < |m| && m[b];
    if k == |m| {
      assert here == {};
    } else {
      MarkedCount(m, k + 1);
      var next := set b | k + 1 <= b < |m| && m[b];
      assert m[k..][1..] == m[k + 1..];
      assert here == if m[k] then next + {k} else next;
    }
  }

  ghost function Below(n: nat): (u: set<nat>)
    ensures |u| == n && forall b :: b in u <==> 0 <= b < n
  {
    if n == 0 then {} else Below(n - 1) + {n - 1}
  }

  ghost function Sizes(inodes: seq<Inode>): (r: seq<nat>)
    ensures |r| == |inodes| && forall i :: 0 <= i < |r| ==> r[i] == inodes[i].size
  {
    seq(|inodes|, i requires 0 <= i < |inodes| => inodes[i].size)
  }

  lemma SlotsOwned(fs: Fs, first: nat, owner: map<nat, Slot>)
    requires Owned(fs, first, owner) && NoHoles(fs)
    ensures forall i :: 0 <= i < |fs.inodes| ==> BlockCount(Sizes(fs.inodes)[i]) <= MAXFILE
    ensures |owner.Keys| == TreeBlocks(Sizes(fs.inodes))
  {
    hide InUse, Ptr;
    var sizes := Sizes(fs.inodes);
    forall i | 0 <= i < |fs.inodes| ensures BlockCount(sizes[i]) <= MAXFILE {
      assert fs.inodes[i].size <= MAXFILE * 2048;
    }
    hide BlockCount;
    var u := AllSlots(sizes);
    forall b | b in owner ensures owner[b] in u {
      var s := owner[b];
      assert IsSlot(|fs.inodes|, s) && Ptr(fs, s) == b;
      assert Shaped(fs, s.ino, BlockCount(fs.inodes[s.ino].size));
      AllIff(sizes, s);
    }
    forall s | s in u ensures exists b :: b in owner && owner[b] == s {
      AllIff(sizes, s);
      assert Shaped(fs, s.ino, BlockCount(fs.inodes[s.ino].size));
      assert Ptr(fs, s) in owner && owner[Ptr(fs, s)] == s;
    }
    OneToOne(owner, u);
    AllCount(sizes);
  }

  ghost function MarkedBlocks(m: seq<bool>): (u: set<nat>) {
    set b | 0 <= b < |m| && m[b]
  }

  lemma MarkedOwned(fs: Fs, first: nat, owner: map<nat, Slot>)
    requires Owned(fs, first, owner)
    ensures first <= |fs.marked| && |MarkedBlocks(fs.marked)| == first + |owner.Keys|
  {
    hide Ptr;
    var below := Below(first);
    assert MarkedBlocks(fs.marked) == below + owner.Keys && below !! owner.Keys;
  }

  /** Conservation: the pool is what metadata and the trees of all files leave. */
  lemma Conservation(fs: Fs, first: nat, owner: map<nat, Slot>)
    requires Owned(fs, first, owner) && NoHoles(fs)
    ensures FreeCount(fs.marked) == |fs.marked| - first - TreeBlocks(Sizes(fs.inodes))
  {
    hide Owned, NoHoles, FreeCount;
    SlotsOwned(fs, first, owner);
    MarkedOwned(fs, first, owner);
    MarkedCount(fs.marked, 0);
    assert fs.marked[0..] == fs.marked;
  }
}

/** Inodes in their blocks (kernel/include/fs.h): sixteen to a block, sixteen words each, with
    the size in word 3 and the ten addresses from word 5 on. The words between and behind them
    hold times, mode, owner, device and link count. */
module InodeBlocks {
  import opened Arithmetic
  import opened Blocks
  import opened BlockTree

  const IPB := 16             // inodes per block
  const DINODE_WORDS := 16
  const SIZE_WORD := 3
  const ADDR_WORD := 5

  /** Word `k` of inode `i`, counted from the start of its block. */
  function Field(i: nat, k: nat): (w: nat)
    requires k < DINODE_WORDS
    ensures w < WORDS
  {
    DINODE_WORDS * (i % IPB) + k
  }

  function LoadAddrs(b: Block, i: nat): (a: seq<nat>)
    ensures |a| == NADDRS && forall k :: 0 <= k < NADDRS ==> a[k] == Word(b, Field(i, ADDR_WORD + k))
  {
    seq<nat>(NADDRS, k requires 0 <= k < NADDRS => Word(b, Field(i, ADDR_WORD + k)))
  }

  /** Size and addresses of inode `i`, read from its block. */
  function LoadInode(b: Block, i: nat): (ip: Inode)
    ensures |ip.addrs| == NADDRS
  {
    Inode(LoadAddrs(b, i), Word(b, Field(i, SIZE_WORD)))
  }

  /** The block after the first `k` addresses of inode `i` were stored. */
  function StoreAddrs(b: Block, i: nat, addrs: seq<nat>, k: nat): (r: Block)
    requires k <= |addrs| == NADDRS
  {
    if k == 0 then b else SetWord(StoreAddrs(b, i, addrs, k - 1), Field(i, ADDR_WORD + k - 1), addrs[k - 1])
  }

  function StoreInode(b: Block, i: nat, ip: Inode): (r: Block)
    requires |ip.addrs| == NADDRS
  {
    StoreAddrs(SetWord(b, Field(i, SIZE_WORD), ip.size), i, ip.addrs, NADDRS)
  }

  /** Everything in the inode fits its 64-bit field. */
  ghost predicate Storable(ip: Inode) {
    |ip.addrs| == NADDRS && ip.size < TWO64 && forall k :: 0 <= k < NADDRS ==> ip.addrs[k] < TWO64
  }

  lemma {:induction false} StoreAddrsReads(b: Block, i: nat, addrs: seq<nat>, k: nat, w: nat)
    requires k <= |addrs| == NADDRS && w < WORDS && forall j :: 0 <= j < NADDRS ==> addrs[j] < TWO64
    ensures Word(StoreAddrs(b, i, addrs, k), w) ==
            if Field(i, ADDR_WORD) <= w < Field(i, ADDR_WORD) + k then addrs[w - Field(i, ADDR_WORD)] else Word(b, w)
    decreases k
  {
    hide Word, SetWord;
    if k > 0 {
      StoreAddrsReads(b, i, addrs, k - 1, w);
      SetWordReads(StoreAddrs(b, i, addrs, k - 1), Field(i, ADDR_WORD + k - 1), addrs[k - 1]);
    }
  }

  /** Word by word, what storing an inode does to its block: size and addresses of that inode
      change, and no other word of the block. */
  lemma StoreReads(b: Block, i: nat, ip: Inode, w: nat)
    requires Storable(ip) && w < WORDS
    ensures Word(StoreInode(b, i, ip), w) ==
            if w == Field(i, SIZE_WORD) then ip.size
            else if Field(i, ADDR_WORD) <= w < Field(i, ADDR_WORD) + NADDRS then ip.addrs[w - Field(i, ADDR_WORD)]
            else Word(b, w)
  {
    hide Word, SetWord, StoreAddrs;
    SetWordReads(b, Field(i, SIZE_WORD), ip.size);
    StoreAddrsReads(SetWord(b, Field(i, SIZE_WORD), ip.size), i, ip.addrs, NADDRS, w);
  }

  /** An inode stored is read back, and the other fifteen of its block are untouched. */
  lemma InodeRoundTrip(b: Block, i: nat, ip: Inode, j: nat)
    requires Storable(ip)
    ensures LoadInode(StoreInode(b, i, ip), j) == if i % IPB == j % IPB then ip else LoadInode(b, j)
  {
    hide Word, StoreInode;
    var r := StoreInode(b, i, ip);
    StoreReads(b, i, ip, Field(j, SIZE_WORD));
    var want := if i % IPB == j % IPB then ip else LoadInode(b, j);
    forall k | 0 <= k < NADDRS ensures LoadInode(r, j).addrs[k] == want.addrs[k] {
      StoreReads(b, i, ip, Field(j, ADDR_WORD + k));
    }
    assert LoadInode(r, j).addrs == want.addrs;
  }

  /** The inodes that the inode blocks hold. */
  function Dinodes(iblocks: seq<Block>, n: nat): (d: seq<Inode>)
    requires n <= |iblocks| * IPB
    ensures |d| == n && forall i :: 0 <= i < n ==> d[i] == LoadInode(iblocks[i / IPB], i)
  {
    seq(n, i requires 0 <= i < n => LoadInode(iblocks[i / IPB], i))
  }

  /** Storing one inode in its block changes one inode. */
  lemma StoreOne(iblocks: seq<Block>, n: nat, i: nat, ip: Inode)
    requires i < n <= |iblocks| * IPB && Storable(ip)
    ensures Dinodes(iblocks[i / IPB := StoreInode(iblocks[i / IPB], i, ip)], n) == Dinodes(iblocks, n)[i := ip]
  {
    hide LoadInode, StoreInode;
    var next := iblocks[i / IPB := StoreInode(iblocks[i / IPB], i, ip)];
    forall j | 0 <= j < n ensures Dinodes(next, n)[j] == Dinodes(iblocks, n)[i := ip][j] {
      InodeRoundTrip(iblocks[i / IPB], i, ip, j);
    }
  }

  lemma ZeroInode(i: nat)
    ensures LoadInode(ZeroBlock(), i) == Inode(NULLS, 0)
  {
    hide Word;
    ZeroBlockWords(Field(i, SIZE_WORD));
    forall k | 0 <= k < NADDRS ensures LoadInode(ZeroBlock(), i).addrs[k] == 0 {
      ZeroBlockWords(Field(i, ADDR_WORD + k));
    }
    assert LoadInode(ZeroBlock(), i).addrs == NULLS;
  }
}

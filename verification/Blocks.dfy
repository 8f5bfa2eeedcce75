/** Disk blocks: 2048 raw bytes, which the kernel also reads as 256 little-endian
    64-bit words (log header, indirect blocks). */
module Blocks {
  import opened Arithmetic

  const BSIZE := 2048
  const WORDS := 256          // BSIZE / sizeof(uintptr_t)

  type Byte = b: int | 0 <= b < 256
  type Block = b: seq<Byte> | |b| == BSIZE witness seq(BSIZE, _ => 0)

  /** The block that `memset(bp->data, 0, BSIZE)` produces. */
  function ZeroBlock(): (b: Block)
    ensures forall i :: 0 <= i < BSIZE ==> b[i] == 0
  {
    seq(BSIZE, _ => 0)
  }

  function Pow256(k: nat): (p: nat)
    ensures p >= 1
  {
    if k == 0 then 1 else 256 * Pow256(k - 1)
  }

  /** The value of a little-endian byte string. */
  function FromLe(s: seq<Byte>): (v: nat)
    decreases |s|
  {
    if |s| == 0 then 0 else s[0] + 256 * FromLe(s[1..])
  }

  /** The `k` low-order bytes of `v`, least significant first. */
  function ToLe(v: nat, k: nat): (s: seq<Byte>)
    ensures |s| == k
    decreases k
  {
    if k == 0 then [] else [v % 256] + ToLe(v / 256, k - 1)
  }

  lemma {:induction false} ToLeRoundTrip(v: nat, k: nat)
    requires v < Pow256(k)
    ensures FromLe(ToLe(v, k)) == v
    decreases k
  {
    if k > 0 {
      assert v / 256 < Pow256(k - 1);
      ToLeRoundTrip(v / 256, k - 1);
      assert ToLe(v, k)[1..] == ToLe(v / 256, k - 1);
    }
  }

  /** `v` shifted down by `i` bytes. */
  function Shifted(v: nat, i: nat): (r: nat) {
    if i == 0 then v else Shifted(v / 256, i - 1)
  }

  lemma {:induction false} ToLeByte(v: nat, k: nat, i: nat)
    requires i < k
    ensures ToLe(v, k)[i] == Shifted(v, i) % 256
    decreases i
  {
    if i > 0 {
      ToLeByte(v / 256, k - 1, i - 1);
    }
  }

  /** xlong of tools/mkfs.c puts the number shifted down by `i` bytes in place `i`: the kernel reads
      the number back. */
  lemma XlongReads(v: nat, a: seq<Byte>)
    requires v < TWO64 && |a| == 8 && forall i :: 0 <= i < 8 ==> a[i] == Shifted(v, i) % 256
    ensures FromLe(a) == v
  {
    hide ToLe, Pow256, FromLe, Shifted;
    forall i | 0 <= i < 8 ensures a[i] == ToLe(v, 8)[i] { ToLeByte(v, 8, i); }
    assert a == ToLe(v, 8);
    Pow256Of8();
    ToLeRoundTrip(v, 8);
  }

  lemma {:induction false} ZerosAreZero(s: seq<Byte>)
    requires forall i :: 0 <= i < |s| ==> s[i] == 0
    ensures FromLe(s) == 0
    decreases |s|
  {
    if |s| > 0 {
      ZerosAreZero(s[1..]);
    }
  }

  /** Entry `i` of a block read as an array of pointers. */
  function Word(b: Block, i: nat): (v: nat)
    requires i < WORDS
  {
    FromLe(b[8 * i..8 * i + 8])
  }

  /** The block after entry `i` of that array is stored. */
  function SetWord(b: Block, i: nat, v: nat): (r: Block)
    requires i < WORDS
  {
    b[..8 * i] + ToLe(v, 8) + b[8 * i + 8..]
  }

  lemma Pow256Of8()
    ensures Pow256(8) == TWO64
  {
    assert Pow256(4) == 0x1_0000_0000;
    assert Pow256(5) == 256 * Pow256(4);
    assert Pow256(6) == 256 * Pow256(5);
    assert Pow256(7) == 256 * Pow256(6);
  }

  lemma SetWordSame(b: Block, i: nat, v: nat)
    requires i < WORDS && v < TWO64
    ensures Word(SetWord(b, i, v), i) == v
  {
    Pow256Of8();
    ToLeRoundTrip(v, 8);
    assert SetWord(b, i, v)[8 * i..8 * i + 8] == ToLe(v, 8);
  }

  lemma SliceKept(b: seq<Byte>, m: seq<Byte>, from: nat, to: nat, lo: nat, hi: nat)
    requires from + |m| == to <= |b| && lo <= hi <= |b| && (hi <= from || to <= lo)
    ensures |b[..from] + m + b[to..]| == |b| && (b[..from] + m + b[to..])[lo..hi] == b[lo..hi]
  {
    var r := b[..from] + m + b[to..];
    forall k | lo <= k < hi ensures r[k] == b[k] {
      if to <= k { assert r[k] == b[to..][k - to]; }
    }
  }

  lemma SetWordOther(b: Block, i: nat, v: nat, j: nat)
    requires i < WORDS && j < WORDS && j != i
    ensures Word(SetWord(b, i, v), j) == Word(b, j)
  {
    hide ToLe, FromLe;
    SliceKept(b, ToLe(v, 8), 8 * i, 8 * i + 8, 8 * j, 8 * j + 8);
  }

  /** Storing a 64-bit word and reading it back; the other words are untouched. */
  lemma SetWordReads(b: Block, i: nat, v: nat)
    requires i < WORDS && v < TWO64
    ensures Word(SetWord(b, i, v), i) == v
    ensures forall j: nat :: j < WORDS && j != i ==> Word(SetWord(b, i, v), j) == Word(b, j)
  {
    SetWordSame(b, i, v);
    forall j: nat | j < WORDS && j != i
      ensures Word(SetWord(b, i, v), j) == Word(b, j)
    {
      SetWordOther(b, i, v, j);
    }
  }

  /** Every word of a zeroed block reads as the null pointer. */
  lemma ZeroBlockWords(i: nat)
    requires i < WORDS
    ensures Word(ZeroBlock(), i) == 0
  {
    ZerosAreZero(ZeroBlock()[8 * i..8 * i + 8]);
  }
}

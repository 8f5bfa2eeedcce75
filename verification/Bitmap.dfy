/** The free bitmap (kernel/fs.c): one bit per disk block, packed into bitmap blocks. */
module Bitmap {
  import opened Arithmetic
  import opened Blocks

  const BPB := 16384      // bitmap bits per block

  /** Bit `k` of a byte, and the byte with that bit set or cleared (`|= m`, `&= ~m`). */
  function Bit(x: nat, k: nat): (v: bool) {
    if k == 0 then x % 2 == 1 else Bit(x / 2, k - 1)
  }

  function WithBit(x: nat, k: nat, v: bool): (r: nat) {
    if k == 0 then x - x % 2 + (if v then 1 else 0) else 2 * WithBit(x / 2, k - 1, v) + x % 2
  }

  lemma {:induction false} WithBitRange(x: nat, k: nat, n: nat, v: bool)
    requires k < n && x < Pow2(n)
    ensures WithBit(x, k, v) < Pow2(n)
    decreases k
  {
    if k > 0 {
      WithBitRange(x / 2, k - 1, n - 1, v);
    } else {
      assert Pow2(n) == 2 * Pow2(n - 1);
    }
  }

  lemma {:induction false} WithBitReads(x: nat, k: nat, j: nat, v: bool)
    ensures Bit(WithBit(x, k, v), j) == (if j == k then v else Bit(x, j))
    decreases k
  {
    if k > 0 {
      Halves(WithBit(x / 2, k - 1, v), x % 2);
      if j > 0 { WithBitReads(x / 2, k - 1, j - 1, v); }
    } else {
      Halves(x / 2, if v then 1 else 0);
    }
  }

  lemma Halves(q: nat, r: nat)
    requires r < 2
    ensures (2 * q + r) / 2 == q && (2 * q + r) % 2 == r
  {
  }

  /** Bitmap block, byte and bit determine the disk block. */
  lemma BitPlace(b: nat)
    ensures b == BPB * (b / BPB) + 8 * (b % BPB / 8) + b % 8
  {
    ModShift(b, 8, 2048 * (b / BPB));
  }

  /** The bit of block `b` in the bitmap. */
  function Test(bitmap: seq<Block>, b: nat): (v: bool)
    requires b / BPB < |bitmap|
  {
    Bit(bitmap[b / BPB][b % BPB / 8], b % 8)
  }

  /** The bitmap after the byte holding the bit of `b` is rewritten. */
  function Put(bitmap: seq<Block>, b: nat, v: bool): (r: seq<Block>)
    requires b / BPB < |bitmap|
    ensures |r| == |bitmap|
  {
    var x := bitmap[b / BPB][b % BPB / 8];
    assert Pow2(8) == 256;
    WithBitRange(x, b % 8, 8, v);
    bitmap[b / BPB := bitmap[b / BPB][b % BPB / 8 := WithBit(x, b % 8, v)]]
  }

  lemma PutReads(bitmap: seq<Block>, b: nat, v: bool, c: nat)
    requires b / BPB < |bitmap| && c / BPB < |bitmap|
    ensures Test(Put(bitmap, b, v), c) == (if c == b then v else Test(bitmap, c))
  {
    hide Bit, WithBit, Pow2;
    WithBitReads(bitmap[b / BPB][b % BPB / 8], b % 8, c % 8, v);
    BitPlace(b);
    BitPlace(c);
  }

  /** The bits of blocks 0..n-1. */
  function Marks(bitmap: seq<Block>, n: nat): (m: seq<bool>)
    requires n <= |bitmap| * BPB
    ensures |m| == n
  {
    seq(n, b requires 0 <= b < n => Test(bitmap, b))
  }

  /** Rewriting one bit changes one mark. */
  lemma PutMarks(bitmap: seq<Block>, b: nat, v: bool, n: nat)
    requires b < n <= |bitmap| * BPB
    ensures Marks(Put(bitmap, b, v), n) == Marks(bitmap, n)[b := v]
  {
    forall c | 0 <= c < n
      ensures Marks(Put(bitmap, b, v), n)[c] == Marks(bitmap, n)[b := v][c]
    {
      PutReads(bitmap, b, v, c);
    }
  }

  lemma {:induction false} ZeroBits(k: nat)
    ensures !Bit(0, k)
  {
    if k > 0 {
      ZeroBits(k - 1);
    }
  }

  lemma ZeroBitmap(bm: seq<Block>, n: nat)
    requires n <= |bm| * BPB && forall i :: 0 <= i < |bm| ==> bm[i] == ZeroBlock()
    ensures forall b :: 0 <= b < n ==> !Marks(bm, n)[b]
  {
    forall b | 0 <= b < n
      ensures !Marks(bm, n)[b]
    {
      ZeroBits(b % 8);
    }
  }

  /** The number of free blocks. */
  function FreeCount(m: seq<bool>): (n: nat)
    ensures n <= |m|
  {
    if |m| == 0 then 0 else (if m[0] then 0 else 1) + FreeCount(m[1..])
  }

  lemma {:induction false} FreeCountFlip(m: seq<bool>, b: nat)
    requires b < |m|
    ensures !m[b] ==> FreeCount(m[b := true]) == FreeCount(m) - 1
    ensures m[b] ==> FreeCount(m[b := false]) == FreeCount(m) + 1
    decreases |m|
  {
    if b > 0 {
      FreeCountFlip(m[1..], b - 1);
      assert m[b := true][1..] == m[1..][b - 1 := true];
      assert m[b := false][1..] == m[1..][b - 1 := false];
    } else {
      assert m[0 := true][1..] == m[1..];
      assert m[0 := false][1..] == m[1..];
    }
  }

  lemma {:induction false} NoneFree(m: seq<bool>)
    requires forall b :: 0 <= b < |m| ==> m[b]
    ensures FreeCount(m) == 0
    decreases |m|
  {
    if |m| > 0 {
      NoneFree(m[1..]);
    }
  }

  lemma {:induction false} SomeFree(m: seq<bool>, b: nat)
    requires b < |m| && !m[b]
    ensures FreeCount(m) > 0
    decreases |m|
  {
    if b > 0 {
      SomeFree(m[1..], b - 1);
    }
  }

  // ----- the bitmap that mkfs writes ---------------------------------------

  lemma {:induction false} LowBits(n: nat, k: nat)
    ensures Bit(Pow2(n) - 1, k) <==> k < n
    decreases n
  {
    if n == 0 {
      ZeroBits(k);
    } else {
      Halves(Pow2(n - 1) - 1, 1);
      if k > 0 { LowBits(n - 1, k - 1); }
    }
  }

  lemma {:induction false} OneMoreBit(n: nat)
    ensures WithBit(Pow2(n) - 1, n, true) == Pow2(n + 1) - 1
  {
    if n > 0 {
      Halves(Pow2(n - 1) - 1, 1);
      OneMoreBit(n - 1);
    }
  }

  /** Byte `j` of a bitmap whose first `used` bits are set, low bits first. */
  function FirstBits(used: nat, j: nat): (x: Byte) {
    assert Pow2(8) == 256;
    if used <= 8 * j then 0 else if used >= 8 * j + 8 then 255 else LessThan8(used - 8 * j); Pow2(used - 8 * j) - 1
  }

  lemma {:induction false} LessThan8(n: nat)
    requires n <= 8
    ensures 1 <= Pow2(n) <= 256
    decreases 8 - n
  {
    assert Pow2(8) == 256;
    if n < 8 {
      LessThan8(n + 1);
      assert Pow2(n + 1) == 2 * Pow2(n);
    }
  }

  lemma FirstBitsSet(used: nat, b: nat)
    requires b < BPB
    ensures Bit(FirstBits(used, b / 8), b % 8) <==> b < used
  {
    assert Pow2(8) == 256;
    var j := b / 8;
    ZeroBits(b % 8);
    LowBits(8, b % 8);
    if 8 * j < used < 8 * j + 8 { LowBits(used - 8 * j, b % 8); }
  }

  lemma FirstBitsStep(i: nat)
    ensures FirstBits(i + 1, i / 8) == WithBit(FirstBits(i, i / 8), i % 8, true)
    ensures forall j: nat :: j != i / 8 ==> FirstBits(i + 1, j) == FirstBits(i, j)
  {
    assert Pow2(8) == 256;
    OneMoreBit(i % 8);
  }

  /** balloc of tools/mkfs.c: the bitmap block in which the first `used` blocks are taken. The
      kernel reads it as just that. */
  method Balloc(used: nat) returns (block: Block)
    requires used < BPB
    ensures forall j :: 0 <= j < BSIZE ==> block[j] == FirstBits(used, j)
    ensures forall b :: 0 <= b < BPB ==> (Marks([block], BPB)[b] <==> b < used)
  {
    hide FirstBits, Bit, WithBit, Pow2;
    block := ZeroBlock();
    assert forall j: nat :: FirstBits(0, j) == 0 by { NoBits(); }
    for i := 0 to used
      invariant forall j :: 0 <= j < BSIZE ==> block[j] == FirstBits(i, j)
    {
      FirstBitsStep(i);
      block := block[i / 8 := WithBit(block[i / 8], i % 8, true)];
    }
    forall b | 0 <= b < BPB ensures Marks([block], BPB)[b] <==> b < used {
      FirstBitsSet(used, b);
    }
  }

  lemma NoBits()
    ensures forall j: nat :: FirstBits(0, j) == 0
  {
  }
}

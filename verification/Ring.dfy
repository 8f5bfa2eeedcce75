/** The ring buffer under a pipe (lib/ring_buffer.c and the copying loops of kernel/pipe.c).
    The two counters only ever grow and wrap at 2^64, as size_t does. */
module Ring {
  import opened Arithmetic
  import opened Blocks

  /** PIPE_BUF */
  const PIPESIZE: nat := 512

  /** Counters less than `d` apart agree modulo `d` only when they are equal. */
  lemma ResiduesDiffer(i: nat, j: nat, d: nat)
    requires d > 0 && i <= j < i + d
    ensures i % d == j % d <==> i == j
  {
    if i % d == j % d {
      assert j == d * (j / d) + i % d;
      assert j - i == d * (j / d - i / d);
      DivUnique(j - i, d, j / d - i / d, 0);
      DivUnique(j - i, d, 0, j - i);
    }
  }

  /** Wrapping a counter does not move the cell it selects, as the size divides 2^64. */
  lemma WrapCell(n: nat, size: nat)
    requires size > 0 && TWO64 % size == 0
    ensures n % TWO64 % size == n % size
  {
    var k, q, r := TWO64 / size, n / TWO64, n % TWO64;
    assert TWO64 == size * k;
    assert n == TWO64 * q + r;
    assert r == size * (r / size) + r % size;
    Regroup(size, k, q, r / size);
    DivUnique(n, size, k * q + r / size, r % size);
  }

  /** The cell that the wrapped counter of byte `n` selects. */
  function Cell(n: nat, size: nat): nat
    requires size > 0
  {
    n % TWO64 % size
  }

  /** A ring is right past 2^64 bytes exactly when its size divides 2^64. */
  lemma CellsIff(size: nat)
    requires size > 0
    ensures (forall n: nat :: Cell(n, size) == n % size) <==> TWO64 % size == 0
  {
    if TWO64 % size == 0 {
      forall n: nat ensures Cell(n, size) == n % size { WrapCell(n, size); }
    } else {
      assert Cell(TWO64, size) == 0;
    }
  }

  lemma Regroup(a: nat, b: nat, c: nat, d: nat)
    ensures a * b * c + a * d == a * (b * c + d)
  {
  }

  /** Adding to a wrapped counter and wrapping again is adding and wrapping once. */
  lemma WrapAdd(n: nat, k: nat)
    ensures (n % TWO64 + k) % TWO64 == (n + k) % TWO64
  {
    var a := n % TWO64 + k;
    assert n == TWO64 * (n / TWO64) + n % TWO64;
    assert a == TWO64 * (a / TWO64) + a % TWO64;
    DivUnique(n + k, TWO64, n / TWO64 + a / TWO64, a % TWO64);
  }

  lemma Shift(all: seq<Byte>, out: seq<Byte>, x: Byte, rest: seq<Byte>, before: seq<Byte>)
    requires all == out + before && before == [x] + rest
    ensures all == out + [x] + rest
  {
  }

  class Ring {
    const data: array<Byte>
    var nread: nat
    var nwrite: nat
    ghost var taken: nat      // bytes read and written since the start, which
    ghost var put: nat        // the counters hold modulo 2^64

    ghost predicate Valid()
      reads this
    {
      && 0 < data.Length < TWO64 && TWO64 % data.Length == 0
      && taken <= put <= taken + data.Length
      && nread == taken % TWO64 && nwrite == put % TWO64
    }

    /** The bytes waiting in the ring, oldest first. */
    ghost function Contents(): (s: seq<Byte>)
      requires Valid()
      reads this, data
    {
      seq(put - taken, i requires 0 <= i < put - taken && Valid() reads this, data => data[(taken + i) % data.Length])
    }

    /** ring_buffer_create, for the size that pipes use. */
    constructor ()
      ensures Valid() && Contents() == [] && data.Length == PIPESIZE && fresh(data)
    {
      data := new Byte[PIPESIZE](_ => 0);
      nread, nwrite, taken, put := 0, 0, 0, 0;
    }

    method IsFull() returns (full: bool)
      requires Valid()
      ensures full <==> |Contents()| == data.Length
    {
      full := nwrite == (nread + data.Length) % TWO64;
      WrapAdd(taken, data.Length);
      ResiduesDiffer(put, taken + data.Length, TWO64);
    }

    method IsEmpty() returns (empty: bool)
      requires Valid()
      ensures empty <==> Contents() == []
    {
      empty := nread == nwrite;
      ResiduesDiffer(taken, put, TWO64);
    }

    /** One byte goes in. */
    method Put(x: Byte)
      requires Valid() && |Contents()| < data.Length
      modifies this`nwrite, this`put, data
      ensures Valid() && Contents() == old(Contents()) + [x]
    {
      forall i | taken <= i < put
        ensures i % data.Length != put % data.Length
      {
        ResiduesDiffer(i, put, data.Length);
      }
      WrapCell(put, data.Length);
      WrapAdd(put, 1);
      data[nwrite % data.Length] := x;
      nwrite := (nwrite + 1) % TWO64;
      put := put + 1;
    }

    /** One byte comes out. */
    method Get() returns (x: Byte)
      requires Valid() && Contents() != []
      modifies this`nread, this`taken
      ensures Valid() && old(Contents()) == [x] + Contents()
    {
      WrapCell(taken, data.Length);
      WrapAdd(taken, 1);
      x := data[nread % data.Length];
      nread := (nread + 1) % TWO64;
      taken := taken + 1;
    }

    /** The part of pipewrite's loop that runs without sleeping: bytes of `addr` from `i` on,
        until all are written or the ring is full. */
    method Fill(addr: seq<Byte>, i: nat) returns (j: nat)
      requires Valid() && i <= |addr|
      modifies this`nwrite, this`put, data
      ensures Valid() && i <= j <= |addr| && Contents() == old(Contents()) + addr[i..j]
      ensures j == i + Min(|addr| - i, data.Length - |old(Contents())|)
    {
      j := i;
      var full := IsFull();
      while j < |addr| && !full
        invariant Valid() && i <= j <= |addr| && Contents() == old(Contents()) + addr[i..j]
        invariant full <==> |Contents()| == data.Length
      {
        Put(addr[j]);
        assert addr[i..j + 1] == addr[i..j] + [addr[j]];
        j := j + 1;
        full := IsFull();
      }
    }

    /** The copying loop of piperead: up to `n` bytes. */
    method Drain(n: nat) returns (out: seq<Byte>)
      requires Valid()
      modifies this`nread, this`taken
      ensures Valid() && old(Contents()) == out + Contents()
      ensures |out| == Min(n, |old(Contents())|)
    {
      out := [];
      var empty := IsEmpty();
      while |out| < n && !empty
        invariant Valid() && old(Contents()) == out + Contents() && |out| <= n
        invariant empty <==> Contents() == []
        decreases n - |out|
      {
        ghost var before, rest := old(Contents()), Contents();
        var x := Get();
        Shift(before, out, x, Contents(), rest);
        out := out + [x];
        empty := IsEmpty();
      }
    }
  }
}

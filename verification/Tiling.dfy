/** Memory cut into blocks: which bytes belong to which block (userspace/libc/umalloc.c). */
module Tiling {

  const UNIT := 16            // sizeof(Header)

  /** A block of `n` units that starts at `a` contains byte `x`. */
  predicate Within(x: int, a: int, n: nat) {
    a <= x < a + UNIT * n
  }

  predicate Apart(a: int, n: nat, b: int, m: nat) {
    a + UNIT * n <= b || b + UNIT * m <= a
  }

  /** `blocks` (start address to size in units) are non-empty, disjoint, and cover exactly `arena`. */
  ghost predicate Tiles(blocks: map<int, nat>, arena: iset<int>) {
    && (forall a :: a in blocks ==> blocks[a] > 0)
    && (forall a, b :: a in blocks && b in blocks && a != b ==> Apart(a, blocks[a], b, blocks[b]))
    && (forall x :: x in arena <==> Covered(blocks, x))
  }

  ghost predicate Covered(blocks: map<int, nat>, x: int) {
    exists a :: a in blocks && Within(x, a, blocks[a])
  }

  /** No two blocks share a byte. */
  lemma NoOverlap(blocks: map<int, nat>, arena: iset<int>, a: int, b: int, x: int)
    requires Tiles(blocks, arena) && a in blocks && b in blocks
    requires Within(x, a, blocks[a]) && Within(x, b, blocks[b])
    ensures a == b
  {
  }

  /** Joining two adjacent blocks. */
  lemma JoinTiles(blocks: map<int, nat>, arena: iset<int>, a: int, b: int)
    requires Tiles(blocks, arena) && a in blocks && b in blocks && a != b && a + UNIT * blocks[a] == b
    ensures Tiles((blocks - {b})[a := blocks[a] + blocks[b]], arena)
  {
    var r := (blocks - {b})[a := blocks[a] + blocks[b]];
    forall x
      ensures Covered(r, x) <==> Covered(blocks, x)
    {
      if Covered(blocks, x) {
        var c :| c in blocks && Within(x, c, blocks[c]);
        assert Within(x, if c == b then a else c, r[if c == b then a else c]);
      }
      if Covered(r, x) {
        var c :| c in r && Within(x, c, r[c]);
        if c == a && !Within(x, a, blocks[a]) { assert Within(x, b, blocks[b]); }
      }
    }
  }

  /** Cutting `n` units off the end of a block. */
  lemma CutTiles(blocks: map<int, nat>, arena: iset<int>, a: int, n: nat)
    requires Tiles(blocks, arena) && a in blocks && 0 < n < blocks[a]
    ensures a + UNIT * (blocks[a] - n) !in blocks
    ensures Tiles(blocks[a := blocks[a] - n][a + UNIT * (blocks[a] - n) := n], arena)
  {
    var b := a + UNIT * (blocks[a] - n);
    assert b in blocks ==> Apart(a, blocks[a], b, blocks[b]);
    var r := blocks[a := blocks[a] - n][b := n];
    CutCovers(blocks, a, n);
    forall c, d | c in r && d in r && c != d
      ensures Apart(c, r[c], d, r[d])
    {
      if c in blocks && c != a { assert Apart(c, blocks[c], a, blocks[a]); }
      if d in blocks && d != a { assert Apart(d, blocks[d], a, blocks[a]); }
    }
  }

  lemma CutCovers(blocks: map<int, nat>, a: int, n: nat)
    requires a in blocks && 0 < n < blocks[a] && a + UNIT * (blocks[a] - n) !in blocks
    ensures forall x :: Covered(blocks[a := blocks[a] - n][a + UNIT * (blocks[a] - n) := n], x) <==> Covered(blocks, x)
  {
    var b := a + UNIT * (blocks[a] - n);
    var r := blocks[a := blocks[a] - n][b := n];
    forall x
      ensures Covered(r, x) <==> Covered(blocks, x)
    {
      if Covered(blocks, x) {
        var c :| c in blocks && Within(x, c, blocks[c]);
        if c == a { assert Within(x, a, r[a]) || Within(x, b, r[b]); } else { assert Within(x, c, r[c]); }
      }
      if Covered(r, x) {
        var c :| c in r && Within(x, c, r[c]);
        if c == b { assert Within(x, a, blocks[a]); } else { assert Within(x, c, blocks[c]); }
      }
    }
  }

  /** A fresh region from sbrk. */
  ghost function Region(a: int, n: nat): (r: iset<int>) {
    iset x | Within(x, a, n)
  }

  lemma InArena(blocks: map<int, nat>, arena: iset<int>, a: int, x: int)
    requires Tiles(blocks, arena) && a in blocks && Within(x, a, blocks[a])
    ensures x in arena
  {
    assert Covered(blocks, x);
  }

  lemma AddTiles(blocks: map<int, nat>, arena: iset<int>, a: int, n: nat)
    requires Tiles(blocks, arena) && n > 0 && Region(a, n) !! arena
    ensures a !in blocks && Tiles(blocks[a := n], arena + Region(a, n))
  {
    assert a in Region(a, n);
    if a in blocks { InArena(blocks, arena, a, a); }
    var r := blocks[a := n];
    forall x
      ensures Covered(r, x) <==> x in arena + Region(a, n)
    {
      if x in arena {
        var c :| c in blocks && Within(x, c, blocks[c]);
        assert Within(x, c, r[c]);
      }
      if x in Region(a, n) { assert Within(x, a, r[a]); }
      if Covered(r, x) {
        var c :| c in r && Within(x, c, r[c]);
        if c != a { assert Within(x, c, blocks[c]); }
      }
    }
    forall c | c in blocks
      ensures Apart(c, blocks[c], a, n)
    {
      var x := if c > a then c else a;
      assert !Apart(c, blocks[c], a, n) ==> x in Region(a, n) && Within(x, c, blocks[c]);
      if Within(x, c, blocks[c]) { InArena(blocks, arena, c, x); }
    }
  }
}

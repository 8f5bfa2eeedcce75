/** The free-list allocator of Section 8.7 of The C Programming Language, as libc
    (userspace/libc/umalloc.c) and the kernel (kernel/kalloc.c) use it. */
module Allocator {
  import opened Arithmetic
  import opened Tiling

  datatype Header = Header(ptr: int, size: nat)

  /** The free list in address order: circular, starting at the static header `base`. */
  ghost predicate Ring(hdr: map<int, Header>, base: int, list: seq<int>) {
    && |list| >= 1 && list[0] == base
    && (forall i :: 0 <= i < |list| ==> list[i] in hdr)
    && (forall i, j :: 0 <= i < j < |list| ==> list[i] < list[j])
    && (forall i, j :: 0 <= i < |list| && j == i + 1 < |list| ==> hdr[list[i]].ptr == list[j])
    && hdr[list[|list| - 1]].ptr == base
  }

  /** Headers, list and live blocks agree with the blocks memory is cut into. */
  ghost predicate Agrees(hdr: map<int, Header>, base: int, list: seq<int>, blocks: map<int, nat>, live: set<int>) {
    && base in hdr && hdr[base].size == 0 && base !in blocks
    && (forall a :: a in blocks ==> base < a && a in hdr && hdr[a].size == blocks[a])
    && (forall a :: a in live ==> a in blocks && a !in list)
    && (forall i :: 0 < i < |list| ==> list[i] in blocks)
    && (forall a :: a in blocks ==> a in live || a in list)
  }

  /** The free block at position `i` does not touch the next one. */
  ghost predicate Loose(list: seq<int>, blocks: map<int, nat>, i: nat) {
    0 < i && i + 1 < |list| ==> list[i] in blocks && list[i] + UNIT * blocks[list[i]] != list[i + 1]
  }

  /** Every possible merge has been made. */
  ghost predicate Coalesced(list: seq<int>, blocks: map<int, nat>) {
    forall i: nat :: Loose(list, blocks, i)
  }

  // ----- free bytes --------------------------------------------------------

  ghost predicate InLive(blocks: map<int, nat>, live: set<int>, x: int) {
    exists a :: a in live && a in blocks && Within(x, a, blocks[a])
  }

  /** The bytes of `arena` that no live block holds. */
  ghost function FreeBytes(arena: iset<int>, blocks: map<int, nat>, live: set<int>): iset<int> {
    iset x | x in arena && !InLive(blocks, live, x)
  }

  /** Somewhere in `f` there are `n` units in a row. */
  ghost predicate HasRun(f: iset<int>, n: nat) {
    exists a: int :: Region(a, n) <= f
  }

  /** A block on the list lies in free bytes. */
  lemma ListedIsFree(hdr: map<int, Header>, base: int, list: seq<int>, blocks: map<int, nat>, live: set<int>,
                     arena: iset<int>, i: nat, n: nat)
    requires Sound(hdr, base, list, blocks, live, arena) && 0 < i < |list| && list[i] in blocks && n <= blocks[list[i]]
    ensures Region(list[i], n) <= FreeBytes(arena, blocks, live)
  {
    var p := list[i];
    forall x | x in Region(p, n) ensures x in FreeBytes(arena, blocks, live) {
      assert Within(x, p, blocks[p]);
      assert Covered(blocks, x);
      if InLive(blocks, live, x) {
        var a :| a in live && a in blocks && Within(x, a, blocks[a]);
        NoOverlap(blocks, arena, a, p, x);
      }
    }
  }

  /** A free byte lies in a block on the list. */
  lemma FreeIsListed(hdr: map<int, Header>, base: int, list: seq<int>, blocks: map<int, nat>, live: set<int>,
                     arena: iset<int>, x: int)
    returns (i: nat)
    requires Sound(hdr, base, list, blocks, live, arena) && x in FreeBytes(arena, blocks, live)
    ensures 0 < i < |list| && list[i] in blocks && Within(x, list[i], blocks[list[i]])
  {
    assert Covered(blocks, x);
    var p :| p in blocks && Within(x, p, blocks[p]);
    assert p !in live;
    i :| 0 <= i < |list| && list[i] == p;
    assert i != 0;
  }

  /** Free bytes in a row lie in one free block: merging is complete. */
  lemma RunInOneBlock(hdr: map<int, Header>, base: int, list: seq<int>, blocks: map<int, nat>, live: set<int>,
                      arena: iset<int>, a: int, n: nat)
    returns (i: nat)
    requires Sound(hdr, base, list, blocks, live, arena) && Coalesced(list, blocks) && n > 0
    requires Region(a, n) <= FreeBytes(arena, blocks, live)
    ensures 0 < i < |list| && list[i] in blocks && n <= blocks[list[i]]
  {
    hide Ring, Agrees, Tiles, FreeBytes;
    assert a in Region(a, n);
    i := FreeIsListed(hdr, base, list, blocks, live, arena, a);
    var p := list[i];
    var end := p + UNIT * blocks[p];
    assert Loose(list, blocks, i);
    if end < a + UNIT * n {
      assert end in Region(a, n);
      var j := FreeIsListed(hdr, base, list, blocks, live, arena, end);
      NextInList(hdr, base, list, blocks, live, arena, i, j);
    }
  }

  /** The block that holds the byte behind a listed block is the next one on the list. */
  lemma NextInList(hdr: map<int, Header>, base: int, list: seq<int>, blocks: map<int, nat>, live: set<int>,
                   arena: iset<int>, i: nat, j: nat)
    requires Sound(hdr, base, list, blocks, live, arena) && 0 < i < |list| && 0 < j < |list| && list[i] in blocks
             && list[j] in blocks
    requires Within(list[i] + UNIT * blocks[list[i]], list[j], blocks[list[j]])
    ensures i + 1 < |list| && j == i + 1 && list[j] == list[i] + UNIT * blocks[list[i]]
  {
    assert i != j && Apart(list[i], blocks[list[i]], list[j], blocks[list[j]]);
    assert list[i] < list[j] && i < j;
    var k := i + 1;
    assert list[k] in blocks && list[i] < list[k];
    assert Apart(list[i], blocks[list[i]], list[k], blocks[list[k]]);
  }

  /** Some free block has `n` units exactly if there are `n` units of free bytes in a row. */
  lemma FitIff(hdr: map<int, Header>, base: int, list: seq<int>, blocks: map<int, nat>, live: set<int>,
               arena: iset<int>, n: nat)
    requires Sound(hdr, base, list, blocks, live, arena) && Coalesced(list, blocks) && n > 0
    ensures HasRun(FreeBytes(arena, blocks, live), n) <==>
              exists i :: 0 < i < |list| && list[i] in blocks && n <= blocks[list[i]]
  {
    hide Ring, Agrees, Tiles, FreeBytes, Coalesced;
    if a: int :| Region(a, n) <= FreeBytes(arena, blocks, live) {
      var i := RunInOneBlock(hdr, base, list, blocks, live, arena, a, n);
    }
    if i :| 0 < i < |list| && list[i] in blocks && n <= blocks[list[i]] {
      ListedIsFree(hdr, base, list, blocks, live, arena, i, n);
    }
  }

  /** Only the live blocks matter to what is free. */
  lemma SameFree(arena: iset<int>, blocks: map<int, nat>, blocks': map<int, nat>, live: set<int>)
    requires forall a :: a in live ==> a in blocks && a in blocks' && blocks'[a] == blocks[a]
    ensures FreeBytes(arena, blocks', live) == FreeBytes(arena, blocks, live)
  {
    forall x ensures InLive(blocks', live, x) <==> InLive(blocks, live, x) {
    }
  }

  /** A new region is free all over. */
  lemma RegionIsFree(arena: iset<int>, blocks: map<int, nat>, blocks': map<int, nat>, live: set<int>, hp: int, nu: nat)
    requires Tiles(blocks, arena) && Region(hp, nu) !! arena
    requires forall a :: a in live ==> a in blocks && a in blocks' && blocks'[a] == blocks[a]
    ensures FreeBytes(arena + Region(hp, nu), blocks', live) == FreeBytes(arena, blocks, live) + Region(hp, nu)
  {
    hide Region;
    forall x
      ensures x in FreeBytes(arena + Region(hp, nu), blocks', live) <==>
              x in FreeBytes(arena, blocks, live) + Region(hp, nu)
    {
      if InLive(blocks', live, x) {
        var a :| a in live && a in blocks' && Within(x, a, blocks'[a]);
        assert InLive(blocks, live, x) && Covered(blocks, x);
      }
      if InLive(blocks, live, x) {
        var a :| a in live && a in blocks && Within(x, a, blocks[a]);
        assert InLive(blocks', live, x);
      }
    }
  }

  /** Handing out a block takes its bytes, and they were free. */
  lemma CarvedFree(arena: iset<int>, blocks: map<int, nat>, blocks': map<int, nat>, live: set<int>, p: int)
    requires Tiles(blocks', arena) && p in blocks' && p !in live
    requires forall a :: a in live ==> a in blocks && a in blocks' && blocks'[a] == blocks[a]
    ensures Region(p, blocks'[p]) <= FreeBytes(arena, blocks, live)
    ensures FreeBytes(arena, blocks', live + {p}) == FreeBytes(arena, blocks, live) - Region(p, blocks'[p])
  {
    SameFree(arena, blocks, blocks', live);
    forall x ensures InLive(blocks', live + {p}, x) <==> InLive(blocks', live, x) || x in Region(p, blocks'[p]) {
      if InLive(blocks', live, x) {
        var a :| a in live && a in blocks' && Within(x, a, blocks'[a]);
        assert a in live + {p};
      }
      if x in Region(p, blocks'[p]) {
        assert p in live + {p} && Within(x, p, blocks'[p]);
      }
    }
    forall x | x in Region(p, blocks'[p]) ensures x in FreeBytes(arena, blocks', live) {
      assert Within(x, p, blocks'[p]) && Covered(blocks', x);
      if InLive(blocks', live, x) {
        var a :| a in live && a in blocks' && Within(x, a, blocks'[a]);
        NoOverlap(blocks', arena, a, p, x);
      }
    }
  }

  // ----- inserting into and merging within the list ------------------------

  ghost function InsertList(list: seq<int>, t: nat, bp: int): (r: seq<int>)
    requires t < |list|
    ensures |r| == |list| + 1
    ensures forall i :: 0 <= i <= t ==> r[i] == list[i]
    ensures r[t + 1] == bp
    ensures forall i :: t + 2 <= i < |r| ==> r[i] == list[i - 1]
  {
    list[..t + 1] + [bp] + list[t + 1..]
  }

  ghost function DropList(list: seq<int>, i: nat): (r: seq<int>)
    requires 0 < i < |list|
    ensures |r| == |list| - 1
    ensures forall k :: 0 <= k < i ==> r[k] == list[k]
    ensures forall k :: i <= k < |r| ==> r[k] == list[k + 1]
  {
    list[..i] + list[i + 1..]
  }

  lemma InsertMembers(list: seq<int>, t: nat, bp: int)
    requires t < |list|
    ensures forall a :: a in InsertList(list, t, bp) <==> a == bp || a in list
  {
    assert list == list[..t + 1] + list[t + 1..];
  }

  lemma DropMembers(list: seq<int>, i: nat)
    requires 0 < i < |list| && forall k, l :: 0 <= k < l < |list| ==> list[k] < list[l]
    ensures forall a :: a in DropList(list, i) <==> a in list && a != list[i]
  {
    assert list == list[..i] + [list[i]] + list[i + 1..];
  }

  /** Linking the block `bp` in behind position `t`. */
  lemma InsertRing(hdr: map<int, Header>, base: int, list: seq<int>, t: nat, bp: int, size: nat)
    requires Ring(hdr, base, list) && t < |list| && list[t] < bp && (t + 1 < |list| ==> bp < list[t + 1])
    ensures var h := hdr[bp := Header(hdr[list[t]].ptr, size)][list[t] := Header(bp, hdr[list[t]].size)];
            Ring(h, base, InsertList(list, t, bp))
  {
    hide InsertList;
    var r := InsertList(list, t, bp);
    var h := hdr[bp := Header(hdr[list[t]].ptr, size)][list[t] := Header(bp, hdr[list[t]].size)];
    forall i, j | 0 <= i < |r| && j == i + 1 < |r|
      ensures h[r[i]].ptr == r[j]
    {
      if i < t { assert r[i] == list[i] != list[t] && hdr[list[i]].ptr == list[i + 1]; }
      else if i > t + 1 { assert r[i] == list[i - 1] != list[t] && hdr[list[i - 1]].ptr == list[i]; }
    }
  }

  lemma InsertAgrees(hdr: map<int, Header>, base: int, list: seq<int>, blocks: map<int, nat>, live: set<int>, t: nat,
                     bp: int)
    requires Ring(hdr, base, list) && Agrees(hdr, base, list, blocks, live) && bp in live && t < |list|
    ensures var h := hdr[bp := Header(hdr[list[t]].ptr, hdr[bp].size)][list[t] := Header(bp, hdr[list[t]].size)];
            Agrees(h, base, InsertList(list, t, bp), blocks, live - {bp})
    ensures forall k: nat :: k < t && Loose(list, blocks, k) ==> Loose(InsertList(list, t, bp), blocks, k)
    ensures forall k: nat :: k > t + 1 && Loose(list, blocks, k - 1) ==> Loose(InsertList(list, t, bp), blocks, k)
  {
    hide Ring, InsertList, Loose;
    InsertMembers(list, t, bp);
    PlaceFacts(hdr, base, list, blocks, live, t);
    assert list[t] != bp;
    InsertLoose(list, blocks, t, bp);
  }

  lemma InsertLoose(list: seq<int>, blocks: map<int, nat>, t: nat, bp: int)
    requires t < |list|
    ensures forall k: nat :: k < t && Loose(list, blocks, k) ==> Loose(InsertList(list, t, bp), blocks, k)
    ensures forall k: nat :: k > t + 1 && Loose(list, blocks, k - 1) ==> Loose(InsertList(list, t, bp), blocks, k)
  {
  }

  /** Merging the block at position `i` with the adjacent one behind it. */
  lemma JoinRing(hdr: map<int, Header>, base: int, list: seq<int>, i: nat, size: nat)
    requires Ring(hdr, base, list) && 0 < i && i + 1 < |list|
    ensures Ring(hdr[list[i] := Header(hdr[list[i + 1]].ptr, size)], base, DropList(list, i + 1))
  {
    hide DropList;
    var r := DropList(list, i + 1);
    var h := hdr[list[i] := Header(hdr[list[i + 1]].ptr, size)];
    forall k, l | 0 <= k < |r| && l == k + 1 < |r|
      ensures h[r[k]].ptr == r[l]
    {
      if k < i { assert r[k] == list[k] != list[i] && hdr[list[k]].ptr == list[k + 1]; }
      else if k == i { assert hdr[list[i + 1]].ptr == list[i + 2]; }
      else { assert r[k] == list[k + 1] != list[i] && hdr[list[k + 1]].ptr == list[k + 2]; }
    }
  }

  ghost function JoinBlocks(blocks: map<int, nat>, a: int, b: int): (r: map<int, nat>)
    requires a in blocks && b in blocks && a != b
    ensures forall c :: c in r <==> c in blocks && c != b
    ensures r[a] == blocks[a] + blocks[b]
    ensures forall c :: c in r && c != a ==> r[c] == blocks[c]
  {
    (blocks - {b})[a := blocks[a] + blocks[b]]
  }

  lemma JoinAgrees(hdr: map<int, Header>, base: int, list: seq<int>, blocks: map<int, nat>, live: set<int>, i: nat)
    requires Ring(hdr, base, list) && Agrees(hdr, base, list, blocks, live) && 0 < i && i + 1 < |list|
    ensures list[i] in blocks && list[i + 1] in blocks && list[i] != list[i + 1]
    ensures var h := hdr[list[i] := Header(hdr[list[i + 1]].ptr, blocks[list[i]] + blocks[list[i + 1]])];
            Agrees(h, base, DropList(list, i + 1), JoinBlocks(blocks, list[i], list[i + 1]), live)
  {
    hide DropList, Agrees;
    DropMembers(list, i + 1);
    PlaceFacts(hdr, base, list, blocks, live, i);
    PlaceFacts(hdr, base, list, blocks, live, i + 1);
    var rest := DropList(list, i + 1);
    assert rest[0] == list[0] && list[i] < list[i + 1];
    DropBase(base, list, i + 1);
    JoinedAgrees(hdr, base, list, rest, blocks, live, list[i], list[i + 1], hdr[list[i + 1]].ptr);
  }

  lemma DropBase(base: int, list: seq<int>, i: nat)
    requires 0 < i < |list| && list[0] == base && forall k, l :: 0 <= k < l < |list| ==> list[k] < list[l]
    ensures forall k :: 0 < k < |list| - 1 ==> DropList(list, i)[k] != base
  {
  }

  lemma JoinedAgrees(hdr: map<int, Header>, base: int, list: seq<int>, rest: seq<int>, blocks: map<int, nat>,
                     live: set<int>, x: int, y: int, ptr: int)
    requires Agrees(hdr, base, list, blocks, live) && x in blocks && y in blocks && x in list && y in list && x != y
    requires forall a :: a in rest <==> a in list && a != y
    requires |list| > 0 && |rest| > 0 && list[0] == base && forall k :: 0 < k < |rest| ==> rest[k] != base
    ensures Agrees(hdr[x := Header(ptr, blocks[x] + blocks[y])], base, rest, JoinBlocks(blocks, x, y), live)
  {
    forall k | 0 < k < |rest| ensures rest[k] in blocks && rest[k] != y {
      assert rest[k] in rest;
      var j :| 0 <= j < |list| && list[j] == rest[k];
    }
  }

  lemma JoinLoose(hdr: map<int, Header>, base: int, list: seq<int>, blocks: map<int, nat>, live: set<int>, i: nat)
    requires Ring(hdr, base, list) && Agrees(hdr, base, list, blocks, live) && 0 < i && i + 1 < |list|
    requires list[i] + UNIT * blocks[list[i]] == list[i + 1]
    ensures var r, b := DropList(list, i + 1), JoinBlocks(blocks, list[i], list[i + 1]);
            && (forall k: nat {:trigger Loose(r, b, k)} :: k < i && Loose(list, blocks, k) ==> Loose(r, b, k))
            && (forall k: nat {:trigger Loose(r, b, k)} :: k >= i && Loose(list, blocks, k + 1) ==> Loose(r, b, k))
  {
    hide DropList, JoinBlocks;
    var r, b := DropList(list, i + 1), JoinBlocks(blocks, list[i], list[i + 1]);
    forall k: nat {:trigger Loose(r, b, k)} | k < i && Loose(list, blocks, k)
      ensures Loose(r, b, k)
    {
      if 0 < k { assert list[k] < list[i] < list[i + 1]; }
    }
    forall k: nat {:trigger Loose(r, b, k)} | k >= i && Loose(list, blocks, k + 1)
      ensures Loose(r, b, k)
    {
      if k + 1 < |r| {
        assert r[k + 1] == list[k + 2];
        if k > i { assert r[k] == list[k + 1] && list[i] < list[i + 1] < list[k + 1]; }
      }
    }
  }

  class Heap {
    const base: int
    /** The headers in memory, and freep (0 before the first call of malloc). */
    var hdr: map<int, Header>
    var freep: int
    ghost var list: seq<int>
    ghost var blocks: map<int, nat>
    ghost var live: set<int>
    /** Every byte obtained from the system so far. */
    ghost var arena: iset<int>

    ghost predicate Valid()
      reads this
    {
      && base > 0 && Tiles(blocks, arena)
      && if freep == 0 then live == {} && blocks == map[]
         else Ring(hdr, base, list) && Agrees(hdr, base, list, blocks, live) && Coalesced(list, blocks) && freep in list
    }

    /** The bytes that are not handed out. */
    ghost function Unused(): iset<int>
      reads this
    {
      FreeBytes(arena, blocks, live)
    }

    constructor (base: int)
      requires base > 0
      ensures Valid() && this.base == base && freep == 0 && live == {} && arena == iset{}
    {
      this.base := base;
      hdr, freep, list, blocks, live, arena := map[], 0, [], map[], {}, iset{};
    }

    /** The search loop of free: the list position behind which `bp` belongs. */
    method FindPlace(bp: int) returns (p: int, ghost t: nat)
      requires Valid() && freep != 0 && base < bp && bp !in list
      ensures t < |list| && p == list[t] && p < bp && (t + 1 < |list| ==> bp < list[t + 1])
    {
      hide Tiles, Agrees, Coalesced;
      ghost var target: nat := 0;
      while target + 1 < |list| && list[target + 1] < bp
        invariant target < |list| && list[target] < bp
      {
        target := target + 1;
      }
      assert target + 1 < |list| ==> bp < list[target + 1];
      p := freep;
      t :| 0 <= t < |list| && list[t] == freep;
      while !(bp > p && bp < hdr[p].ptr)
        invariant t < |list| && p == list[t]
        decreases if t <= target then target - t else |list| - t + target
      {
        if p >= hdr[p].ptr && (bp > p || bp < hdr[p].ptr) {
          break;
        }
        p := hdr[p].ptr;
        t := if t + 1 == |list| then 0 else t + 1;
      }
    }

    /** free: the block goes back, merged with whatever free block it touches; it is now
        part of the free block at position `w`. The other live blocks and the memory
        obtained from the system stay as they are. */
    method Free(ap: int) returns (ghost w: nat)
      requires Valid() && (ap == 0 || ap - UNIT in live)
      modifies this
      ensures Valid() && arena == old(arena)
      ensures live == old(live) - (if ap == 0 then {} else {ap - UNIT})
      ensures forall a :: a in live ==> a in blocks && a in old(blocks) && blocks[a] == old(blocks)[a]
      ensures ap == 0 ==> freep == old(freep) && list == old(list) && hdr == old(hdr)
      ensures ap != 0 ==> freep != 0 && 0 < w < |list| && list[w] in blocks
                          && Contains(list[w], blocks[list[w]], ap - UNIT, old(blocks)[ap - UNIT])
      ensures ap == 0 ==> Unused() == old(Unused())
      ensures ap != 0 ==> Unused() == old(Unused()) + Region(ap - UNIT, old(blocks)[ap - UNIT])
    {
      hide Ring, Agrees, Tiles, Coalesced, FreeBytes;
      w := 0;
      if ap == 0 {
        forall a | a in live ensures a in blocks { LiveFacts(hdr, base, list, blocks, live, a); }
        return;
      }
      var bp := ap - UNIT;
      LiveFacts(hdr, base, list, blocks, live, bp);
      var p;
      ghost var t;
      p, t := FindPlace(bp);
      PlaceFacts(hdr, base, list, blocks, live, t);
      ghost var h0, l0, b0, live0 := hdr, list, blocks, live;
      var next := hdr[p].ptr;
      hdr := hdr[bp := if bp + UNIT * hdr[bp].size == next then Header(hdr[next].ptr, hdr[bp].size + hdr[next].size)
                       else Header(next, hdr[bp].size)];
      hdr := hdr[p := if p + UNIT * hdr[p].size == bp then Header(hdr[bp].ptr, hdr[p].size + hdr[bp].size)
                      else Header(bp, hdr[p].size)];
      freep := p;
      live := live - {bp};
      list, blocks, w := Returned(h0, base, l0, b0, live0, arena, t, bp, hdr);
      CarvedFree(arena, blocks, b0, live, bp);
      assert live + {bp} == live0;
    }

    /** The first call: the list consists of the static header alone. */
    method Initialize()
      requires Valid() && freep == 0
      modifies this
      ensures Valid() && freep == base && live == old(live) && arena == old(arena) && blocks == old(blocks)
      ensures list == [base]
    {
      hdr := hdr[base := Header(base, 0)];
      freep := base;
      list := [base];
    }

    /** One round of the search loop of malloc, from freep->ptr to freep: the first block of
        at least `nunits` units and its predecessor, or proof that there is none. */
    method FirstFit(nunits: nat) returns (prevp: int, p: int, found: bool, ghost q: nat)
      requires Valid() && freep != 0 && nunits > 0
      ensures found ==> 0 < q < |list| && list[q] == p && list[q - 1] == prevp && p in hdr && hdr[p].size >= nunits
      ensures !found ==> forall i :: 0 <= i < |list| ==> list[i] in hdr && hdr[list[i]].size < nunits
      ensures found <==> HasRun(Unused(), nunits)
    {
      hide Ring, Agrees, Tiles, Coalesced, TooSmall, HasRun, FreeBytes;
      FitIff(hdr, base, list, blocks, live, arena, nunits);
      ghost var f: nat :| f < |list| && list[f] == freep;
      prevp := freep;
      PlaceFacts(hdr, base, list, blocks, live, f);
      FirstPlace(hdr, base, list, f, nunits);
      p := hdr[prevp].ptr;
      q := if f + 1 < |list| then f + 1 else 0;
      while hdr[p].size < nunits
        invariant q < |list| && p == list[q] && p in hdr
        invariant if q == 0 then prevp == list[|list| - 1] else prevp == list[q - 1]
        invariant TooSmall(hdr, list, f, q, nunits)
        decreases if q > f then |list| - q + f else f - q
      {
        if p == freep {
          AllTooSmall(hdr, base, list, f, q, nunits);
          NoneFits(hdr, base, list, blocks, live, nunits);
          return prevp, p, false, q;
        }
        PlaceFacts(hdr, base, list, blocks, live, q);
        OneTooSmall(hdr, base, list, f, q, nunits);
        prevp := p;
        p := hdr[p].ptr;
        q := if q + 1 < |list| then q + 1 else 0;
      }
      PlaceFacts(hdr, base, list, blocks, live, q);
      found := true;
    }

    /** Handing out `nunits` units of the block at `p`: all of it, or its tail. */
    method Carve(prevp: int, p0: int, nunits: nat, ghost q: nat) returns (r: int)
      requires Valid() && freep != 0 && nunits > 0
      requires 0 < q < |list| && list[q] == p0 && list[q - 1] == prevp && p0 in hdr && hdr[p0].size >= nunits
      modifies this
      ensures Valid() && arena == old(arena) && freep != 0
      ensures r - UNIT !in old(live) && live == old(live) + {r - UNIT} && base < r - UNIT
      ensures r - UNIT in blocks && blocks[r - UNIT] == nunits
      ensures forall a :: a in old(live) ==> a in blocks && a in old(blocks) && blocks[a] == old(blocks)[a]
      ensures Region(r - UNIT, nunits) <= old(Unused()) && Unused() == old(Unused()) - Region(r - UNIT, nunits)
    {
      hide Ring, Agrees, Tiles, Coalesced, FreeBytes, Region;
      var p := p0;
      PlaceFacts(hdr, base, list, blocks, live, q);
      PlaceFacts(hdr, base, list, blocks, live, q - 1);
      LiveBlocks(hdr, base, list, blocks, live);
      if hdr[p].size == nunits {
        TakeWhole(hdr, base, list, blocks, live, arena, q);
        hdr := hdr[prevp := Header(hdr[p].ptr, hdr[prevp].size)];
        list := DropList(list, q);
      } else {
        ghost var b := blocks[p];
        TakeTail(hdr, base, list, blocks, live, arena, q, nunits, 0);
        hdr := hdr[p := Header(hdr[p].ptr, hdr[p].size - nunits)];
        blocks := blocks[p := b - nunits];
        p := p + UNIT * hdr[p].size;
        hdr := hdr[p := Header(0, nunits)];
        blocks := blocks[p := nunits];
      }
      CarvedFree(arena, old(blocks), blocks, live, p);
      live := live + {p};
      freep := prevp;
      r := p + UNIT;
    }

    /** A region fresh from the system becomes a free block. */
    method AddRegion(hp: int, nu: nat) returns (ghost w: nat)
      requires Valid() && freep != 0 && nu > 0 && base < hp && Region(hp, nu) !! arena
      modifies this
      ensures Valid() && freep != 0 && live == old(live) && arena == old(arena) + Region(hp, nu)
      ensures forall a :: a in live ==> a in blocks && a in old(blocks) && blocks[a] == old(blocks)[a]
      ensures 0 < w < |list| && list[w] in blocks && list[w] in hdr && hdr[list[w]].size == blocks[list[w]] >= nu
      ensures Unused() == old(Unused()) + Region(hp, nu)
    {
      hide Ring, Tiles, Coalesced, FreeBytes;
      AddTiles(blocks, arena, hp, nu);
      LooseFrame(list, blocks, hp, nu);
      NewToList(hdr, base, list, blocks, live, hp);
      RingFrame(hdr, base, list, hp, Header(0, nu));
      hdr := hdr[hp := Header(0, nu)];
      blocks := blocks[hp := nu];
      live := live + {hp};
      arena := arena + Region(hp, nu);
      w := Free(hp + UNIT);
      PlaceFacts(hdr, base, list, blocks, live, w);
      RegionIsFree(old(arena), old(blocks), blocks, live, hp, nu);
    }

    /** allocate_units; `brk` is what sbrk returns (0 if it fails). */
    method AllocateUnits(nunits: nat, brk: int) returns (r: int, ghost w: nat)
      requires Valid() && freep != 0 && nunits > 0
      requires brk == 0 || (base < brk && Region(brk, Grant(nunits)) !! arena)
      modifies this
      ensures Valid() && freep != 0 && live == old(live)
      ensures forall a :: a in live ==> a in blocks && a in old(blocks) && blocks[a] == old(blocks)[a]
      ensures if brk == 0 then r == 0 && arena == old(arena) && list == old(list) && hdr == old(hdr)
              else r == freep && arena == old(arena) + Region(brk, Grant(nunits))
                   && 0 < w < |list| && list[w] in hdr && hdr[list[w]].size >= nunits
      ensures Unused() == if brk == 0 then old(Unused()) else old(Unused()) + Region(brk, Grant(nunits))
    {
      hide FreeBytes;
      w := 0;
      if brk == 0 {
        assert forall a :: a in live ==> a in blocks;
        return 0, 0;
      }
      w := AddRegion(brk, Grant(nunits));
      r := freep;
    }

    /** malloc. It asks the system exactly if the free bytes have no run long enough, fails
        exactly if the system then refuses, and hands out bytes that were free. */
    method Malloc(nbytes: nat, brk: int) returns (r: int)
      requires Valid() && nbytes < TWO64 && NUnits(nbytes) * UNIT < TWO64
      requires brk == 0 || (base < brk && Region(brk, Grant(NUnits(nbytes))) !! arena)
      modifies this
      ensures Valid()
      ensures nbytes == 0 ==> r == 0 && unchanged(this)
      ensures nbytes > 0 ==> (r == 0 <==> !old(HasRun(Unused(), NUnits(nbytes))) && brk == 0)
      ensures arena == if nbytes == 0 || brk == 0 || old(HasRun(Unused(), NUnits(nbytes))) then old(arena)
                       else old(arena) + Region(brk, Grant(NUnits(nbytes)))
      ensures r == 0 ==> live == old(live) && Unused() == old(Unused())
      ensures r != 0 ==> r - UNIT !in old(live) && live == old(live) + {r - UNIT}
      ensures r != 0 ==> r - UNIT in blocks && blocks[r - UNIT] == NUnits(nbytes)
      ensures r != 0 ==> Region(r - UNIT, NUnits(nbytes)) <= old(Unused()) + (arena - old(arena))
      ensures r != 0 ==> Unused() == old(Unused()) + (arena - old(arena)) - Region(r - UNIT, NUnits(nbytes))
      ensures forall a :: a in old(live) ==> a in blocks && a in old(blocks) && blocks[a] == old(blocks)[a]
    {
      hide Ring, Agrees, Tiles, Coalesced, Region, HasRun, FreeBytes;
      if nbytes == 0 {
        LiveInBlocks();
        return 0;
      }
      var nunits := NUnits(nbytes);
      if freep == 0 {
        Initialize();
      }
      LiveInBlocks();
      var prevp, p, found;
      ghost var q, w;
      prevp, p, found, q := FirstFit(nunits);
      var grown := false;
      while !found
        invariant Valid() && freep != 0 && live == old(live) && (grown ==> brk != 0)
        invariant found ==> 0 < q < |list| && list[q] == p && list[q - 1] == prevp && p in hdr && hdr[p].size >= nunits
        invariant !found ==> forall i :: 0 <= i < |list| ==> list[i] in hdr && hdr[list[i]].size < nunits
        invariant grown ==> found
        invariant old(HasRun(Unused(), nunits)) <==> found && !grown
        invariant arena == if grown then old(arena) + Region(brk, Grant(nunits)) else old(arena)
        invariant Unused() == if grown then old(Unused()) + Region(brk, Grant(nunits)) else old(Unused())
        invariant forall a :: a in old(live) ==> a in blocks && a in old(blocks) && blocks[a] == old(blocks)[a]
        decreases !grown, !found
      {
        p, w := AllocateUnits(nunits, brk);
        if p == 0 {
          return 0;
        }
        grown := true;
        prevp, p, found, q := FirstFit(nunits);
      }
      r := Carve(prevp, p, nunits, q);
    }

    lemma LiveInBlocks()
      requires Valid()
      ensures forall a :: a in live ==> a in blocks
    {
    }
  }

  const MORECORE_THRESHOLD := 4096

  /** The request in units, header included, rounded up in size_t arithmetic. */
  function NUnits(nbytes: nat): (n: nat)
    ensures n > 0
  {
    (nbytes + UNIT - 1) % TWO64 / UNIT + 1
  }

  /** How much allocate_units asks for. */
  function Grant(nunits: nat): (n: nat) {
    if nunits < MORECORE_THRESHOLD then MORECORE_THRESHOLD else nunits
  }

  /** The bytes behind the header hold the request, for exactly the requests whose rounding
      does not wrap around, and no smaller block would. */
  lemma RequestFitsIff(nbytes: nat)
    requires 0 < nbytes < TWO64
    ensures UNIT * (NUnits(nbytes) - 1) >= nbytes <==> nbytes <= TWO64 - UNIT
    ensures UNIT * (NUnits(nbytes) - 2) < nbytes
  {
  }

  lemma LooseFrame(list: seq<int>, blocks: map<int, nat>, a: int, n: nat)
    requires Coalesced(list, blocks) && a !in blocks
    ensures Coalesced(list, blocks[a := n])
  {
    var b := blocks[a := n];
    forall k: nat
      ensures Loose(list, b, k)
    {
      assert Loose(list, blocks, k);
    }
  }

  lemma NewToList(hdr: map<int, Header>, base: int, list: seq<int>, blocks: map<int, nat>, live: set<int>, a: int)
    requires Ring(hdr, base, list) && Agrees(hdr, base, list, blocks, live) && a !in blocks && a != base
    ensures a !in list
  {
  }

  /** Free and live blocks partition the memory obtained from the system: every byte of it
      lies in exactly one block, which is either live or on the free list. */
  lemma Partition(hdr: map<int, Header>, base: int, list: seq<int>, blocks: map<int, nat>, live: set<int>,
                  arena: iset<int>, x: int)
    requires Sound(hdr, base, list, blocks, live, arena)
    ensures x in arena <==> exists a :: a in live + (set b | b in list) && a in blocks && Within(x, a, blocks[a])
    ensures forall a, b :: a in blocks && b in blocks && Within(x, a, blocks[a]) && Within(x, b, blocks[b]) ==> a == b
    ensures forall a :: a in blocks ==> (a in live <==> a !in list)
  {
    if x in arena {
      assert Covered(blocks, x);
      var a :| a in blocks && Within(x, a, blocks[a]);
      assert a in live + (set b | b in list);
    }
    if exists a :: a in live + (set b | b in list) && a in blocks && Within(x, a, blocks[a]) {
      assert Covered(blocks, x);
    }
  }

  lemma RingFrame(hdr: map<int, Header>, base: int, list: seq<int>, a: int, h: Header)
    requires Ring(hdr, base, list) && a !in list
    ensures Ring(hdr[a := h], base, list)
  {
    assert forall i :: 0 <= i < |list| ==> list[i] != a;
  }

  // ----- taking blocks out of the list -------------------------------------

  /** Unlinking the block at position `q`. */
  lemma TakeLoose(blocks: map<int, nat>, list: seq<int>, arena: iset<int>, q: nat)
    requires Tiles(blocks, arena) && Coalesced(list, blocks) && 0 < q < |list|
    requires (forall i :: 0 < i < |list| ==> list[i] in blocks)
             && (forall i, j :: 0 <= i < j < |list| ==> list[i] < list[j])
    ensures Coalesced(DropList(list, q), blocks)
  {
    hide DropList;
    var r := DropList(list, q);
    forall k: nat
      ensures Loose(r, blocks, k)
    {
      assert Loose(list, blocks, k) && Loose(list, blocks, k + 1);
      if 0 < k && k + 1 < |r| && k == q - 1 {
        assert Apart(list[k], blocks[list[k]], list[k + 1], blocks[list[k + 1]]);
      }
    }
  }

  /** Going round from behind place `f` to place `q`, every block was too small. */
  ghost predicate TooSmall(hdr: map<int, Header>, list: seq<int>, f: nat, q: nat, nunits: nat) {
    forall i :: 0 <= i < |list| && (if q > f then f < i < q else i > f || i < q) ==>
      list[i] in hdr && hdr[list[i]].size < nunits
  }

  lemma FirstPlace(hdr: map<int, Header>, base: int, list: seq<int>, f: nat, nunits: nat)
    requires Ring(hdr, base, list) && f < |list|
    ensures list[0] == base && TooSmall(hdr, list, f, if f + 1 < |list| then f + 1 else 0, nunits)
  {
  }

  lemma OneTooSmall(hdr: map<int, Header>, base: int, list: seq<int>, f: nat, q: nat, nunits: nat)
    requires Ring(hdr, base, list) && f < |list| && q < |list| && TooSmall(hdr, list, f, q, nunits)
    requires list[q] in hdr && hdr[list[q]].size < nunits && q != f
    ensures TooSmall(hdr, list, f, if q + 1 < |list| then q + 1 else 0, nunits)
  {
  }

  lemma AllTooSmall(hdr: map<int, Header>, base: int, list: seq<int>, f: nat, q: nat, nunits: nat)
    requires Ring(hdr, base, list) && f < |list| && q < |list| && TooSmall(hdr, list, f, q, nunits)
    requires list[q] in hdr && hdr[list[q]].size < nunits && list[q] == list[f]
    ensures forall i :: 0 <= i < |list| ==> list[i] in hdr && hdr[list[i]].size < nunits
  {
  }

  lemma NoneFits(hdr: map<int, Header>, base: int, list: seq<int>, blocks: map<int, nat>, live: set<int>, nunits: nat)
    requires Ring(hdr, base, list) && Agrees(hdr, base, list, blocks, live)
    requires forall i :: 0 <= i < |list| ==> list[i] in hdr && hdr[list[i]].size < nunits
    ensures forall i :: 0 < i < |list| && list[i] in blocks ==> blocks[list[i]] < nunits
  {
  }

  lemma TakeAgrees(hdr: map<int, Header>, base: int, list: seq<int>, blocks: map<int, nat>, live: set<int>, q: nat)
    requires Ring(hdr, base, list) && Agrees(hdr, base, list, blocks, live) && 0 < q < |list|
    ensures list[q - 1] in hdr && list[q] in hdr && list[q] in blocks && list[q - 1] in DropList(list, q)
    ensures Agrees(hdr[list[q - 1] := Header(hdr[list[q]].ptr, hdr[list[q - 1]].size)], base,
                   DropList(list, q), blocks, live + {list[q]})
  {
    hide DropList, Agrees;
    DropMembers(list, q);
    PlaceFacts(hdr, base, list, blocks, live, q);
    PlaceFacts(hdr, base, list, blocks, live, q - 1);
    assert list[q - 1] != list[q] && DropList(list, q)[q - 1] == list[q - 1];
    var h := hdr[list[q - 1] := Header(hdr[list[q]].ptr, hdr[list[q - 1]].size)];
    SameSizesAgree(hdr, h, base, list, blocks, live);
    TakeLive(h, base, list, DropList(list, q), blocks, live, list[q]);
  }

  /** Links do not matter to Agrees. */
  lemma SameSizesAgree(hdr: map<int, Header>, h: map<int, Header>, base: int, list: seq<int>, blocks: map<int, nat>,
                       live: set<int>)
    requires Agrees(hdr, base, list, blocks, live) && h.Keys == hdr.Keys
             && forall a :: a in hdr ==> h[a].size == hdr[a].size
    ensures Agrees(h, base, list, blocks, live)
  {
  }

  lemma TakeLive(h: map<int, Header>, base: int, list: seq<int>, rest: seq<int>, blocks: map<int, nat>, live: set<int>,
                 x: int)
    requires Agrees(h, base, list, blocks, live) && x in blocks && (forall a :: a in rest <==> a in list && a != x)
    requires |list| > 0 && |rest| > 0 && rest[0] == list[0] == base && base !in rest[1..]
    ensures Agrees(h, base, rest, blocks, live + {x})
  {
    forall i | 0 < i < |rest| ensures rest[i] in blocks {
      assert rest[i] in rest[1..];
      assert rest[i] in list && rest[i] != base;
      var j :| 0 <= j < |list| && list[j] == rest[i];
    }
  }

  lemma TakeWhole(hdr: map<int, Header>, base: int, list: seq<int>, blocks: map<int, nat>, live: set<int>,
                  arena: iset<int>, q: nat)
    requires Sound(hdr, base, list, blocks, live, arena) && Coalesced(list, blocks) && 0 < q < |list|
    ensures list[q - 1] in hdr && list[q] in hdr && list[q] in blocks
    ensures var h := hdr[list[q - 1] := Header(hdr[list[q]].ptr, hdr[list[q - 1]].size)];
            && Sound(h, base, DropList(list, q), blocks, live + {list[q]}, arena)
            && Coalesced(DropList(list, q), blocks) && list[q - 1] in DropList(list, q)
  {
    TakeAgrees(hdr, base, list, blocks, live, q);
    TakeRing(hdr, base, list, q);
    TakeLoose(blocks, list, arena, q);
    hide DropList, Ring, Agrees, Coalesced, Tiles;
  }

  lemma TakeRing(hdr: map<int, Header>, base: int, list: seq<int>, q: nat)
    requires Ring(hdr, base, list) && 0 < q < |list|
    ensures Ring(hdr[list[q - 1] := Header(hdr[list[q]].ptr, hdr[list[q - 1]].size)], base, DropList(list, q))
  {
    hide DropList;
    var r := DropList(list, q);
    var h := hdr[list[q - 1] := Header(hdr[list[q]].ptr, hdr[list[q - 1]].size)];
    forall k, l | 0 <= k < |r| && l == k + 1 < |r|
      ensures h[r[k]].ptr == r[l]
    {
      if k < q - 1 { assert r[k] == list[k] < list[q - 1] && hdr[list[k]].ptr == list[k + 1]; }
      else if k == q - 1 { assert hdr[list[q]].ptr == list[q + 1]; }
      else { assert r[k] == list[k + 1] > list[q - 1] && hdr[list[k + 1]].ptr == list[k + 2]; }
    }
  }

  /** Taking the last `n` units of the block at position `q`. */
  lemma TakeTail(hdr: map<int, Header>, base: int, list: seq<int>, blocks: map<int, nat>, live: set<int>,
                 arena: iset<int>, q: nat, n: nat, ptr: int)
    requires Sound(hdr, base, list, blocks, live, arena) && Coalesced(list, blocks) && 0 < q < |list|
    requires list[q] in hdr && list[q] in blocks && 0 < n < blocks[list[q]]
    ensures var a := list[q] + UNIT * (blocks[list[q]] - n);
            var h := hdr[list[q] := Header(hdr[list[q]].ptr, blocks[list[q]] - n)][a := Header(ptr, n)];
            var b := blocks[list[q] := blocks[list[q]] - n][a := n];
            && a !in blocks && a !in list && Tiles(b, arena)
            && Ring(h, base, list) && Agrees(h, base, list, b, live + {a}) && Coalesced(list, b)
  {
    hide Tiles, Ring, Agrees, Coalesced;
    var p := list[q];
    var a := p + UNIT * (blocks[p] - n);
    CutTiles(blocks, arena, p, n);
    TailLoose(hdr, base, list, blocks, live, arena, q, n);
    PlaceFacts(hdr, base, list, blocks, live, q);
    NotListed(hdr, base, list, blocks, live, a);
    SameLinksRing(hdr, hdr[p := Header(hdr[p].ptr, blocks[p] - n)][a := Header(ptr, n)], base, list);
    TailAgrees(hdr, base, list, blocks, live, p, a, blocks[p] - n, n, ptr);
  }

  /** What is neither a block nor the base is not on the list. */
  lemma NotListed(hdr: map<int, Header>, base: int, list: seq<int>, blocks: map<int, nat>, live: set<int>, a: int)
    requires Ring(hdr, base, list) && Agrees(hdr, base, list, blocks, live) && a !in blocks && a > base
    ensures a !in list && forall x :: x in list ==> x in hdr
  {
  }

  /** Sizes, and headers off the list, do not matter to Ring. */
  lemma SameLinksRing(hdr: map<int, Header>, h: map<int, Header>, base: int, list: seq<int>)
    requires Ring(hdr, base, list) && forall x :: x in list && x in hdr ==> x in h && h[x].ptr == hdr[x].ptr
    ensures Ring(h, base, list)
  {
  }

  lemma TailAgrees(hdr: map<int, Header>, base: int, list: seq<int>, blocks: map<int, nat>, live: set<int>, p: int,
                   a: int, m: nat, n: nat, ptr: int)
    requires Agrees(hdr, base, list, blocks, live) && p in blocks && p in hdr && a !in blocks && a !in list
             && base < a && p != a
    ensures Agrees(hdr[p := Header(hdr[p].ptr, m)][a := Header(ptr, n)], base, list, blocks[p := m][a := n], live + {a})
  {
  }

  lemma TailLoose(hdr: map<int, Header>, base: int, list: seq<int>, blocks: map<int, nat>, live: set<int>,
                  arena: iset<int>, q: nat, n: nat)
    requires Sound(hdr, base, list, blocks, live, arena) && Coalesced(list, blocks) && 0 < q < |list|
    requires list[q] in blocks && 0 < n < blocks[list[q]]
    ensures var a := list[q] + UNIT * (blocks[list[q]] - n);
            Coalesced(list, blocks[list[q] := blocks[list[q]] - n][a := n])
  {
    var a := list[q] + UNIT * (blocks[list[q]] - n);
    CutTiles(blocks, arena, list[q], n);
    var b := blocks[list[q] := blocks[list[q]] - n][a := n];
    forall k: nat
      ensures Loose(list, b, k)
    {
      assert Loose(list, blocks, k);
      if 0 < k && k + 1 < |list| {
        assert list[k] != a && list[k + 1] in blocks;
        assert Apart(list[k], blocks[list[k]], list[k + 1], blocks[list[k + 1]]);
      }
    }
  }

  predicate Contains(a: int, n: nat, b: int, m: nat) {
    a <= b && b + UNIT * m <= a + UNIT * n
  }

  lemma LiveFacts(hdr: map<int, Header>, base: int, list: seq<int>, blocks: map<int, nat>, live: set<int>, a: int)
    requires Agrees(hdr, base, list, blocks, live) && a in live
    ensures a in blocks && a in hdr && hdr[a].size == blocks[a] && a !in list && base < a
  {
  }

  /** The node at position `t` and the one it points to. */
  lemma PlaceFacts(hdr: map<int, Header>, base: int, list: seq<int>, blocks: map<int, nat>, live: set<int>, t: nat)
    requires Ring(hdr, base, list) && Agrees(hdr, base, list, blocks, live) && t < |list|
    ensures list[t] in hdr && hdr[list[t]].ptr in hdr
    ensures hdr[list[t]].ptr == if t + 1 < |list| then list[t + 1] else base
    ensures t == 0 ==> list[t] == base && hdr[base].size == 0
    ensures t > 0 ==> list[t] in blocks && hdr[list[t]].size == blocks[list[t]] && base < list[t]
  {
    if t + 1 < |list| { assert list[t + 1] in hdr && hdr[list[t]].ptr == list[t + 1]; }
  }

  /** Headers, list and blocks fit together; free blocks may still be adjacent. */
  ghost predicate Sound(hdr: map<int, Header>, base: int, list: seq<int>, blocks: map<int, nat>, live: set<int>,
                        arena: iset<int>) {
    Ring(hdr, base, list) && Agrees(hdr, base, list, blocks, live) && Tiles(blocks, arena)
  }

  lemma JoinStep(hdr: map<int, Header>, base: int, list: seq<int>, blocks: map<int, nat>, live: set<int>,
                 arena: iset<int>, i: nat)
    requires Sound(hdr, base, list, blocks, live, arena) && 0 < i && i + 1 < |list|
    requires list[i] in blocks && list[i] + UNIT * blocks[list[i]] == list[i + 1]
    ensures list[i + 1] in hdr && list[i + 1] in blocks && list[i] != list[i + 1]
    ensures var h := hdr[list[i] := Header(hdr[list[i + 1]].ptr, blocks[list[i]] + blocks[list[i + 1]])];
            Sound(h, base, DropList(list, i + 1), JoinBlocks(blocks, list[i], list[i + 1]), live, arena)
    ensures var r, b := DropList(list, i + 1), JoinBlocks(blocks, list[i], list[i + 1]);
            && (forall k: nat {:trigger Loose(r, b, k)} :: k < i && Loose(list, blocks, k) ==> Loose(r, b, k))
            && (forall k: nat {:trigger Loose(r, b, k)} :: k >= i && Loose(list, blocks, k + 1) ==> Loose(r, b, k))
            && (forall a :: a in live ==> a in blocks && a in b && b[a] == blocks[a])
  {
    hide DropList, JoinBlocks, Ring, Agrees, Tiles, Loose;
    PlaceFacts(hdr, base, list, blocks, live, i);
    PlaceFacts(hdr, base, list, blocks, live, i + 1);
    LiveBlocks(hdr, base, list, blocks, live);
    Rising(hdr, base, list);
    JoinRing(hdr, base, list, i, blocks[list[i]] + blocks[list[i + 1]]);
    JoinAgrees(hdr, base, list, blocks, live, i);
    JoinLoose(hdr, base, list, blocks, live, i);
    JoinTiles(blocks, arena, list[i], list[i + 1]);
    JoinBlocksIs(blocks, list[i], list[i + 1]);
  }

  lemma JoinBlocksIs(blocks: map<int, nat>, a: int, b: int)
    requires a in blocks && b in blocks && a != b
    ensures JoinBlocks(blocks, a, b) == (blocks - {b})[a := blocks[a] + blocks[b]]
  {
  }

  /** The list and the blocks after `bp` has been linked in and merged on both sides, given
      the headers `h` that free leaves. */
  lemma Returned(hdr: map<int, Header>, base: int, list: seq<int>, blocks: map<int, nat>, live: set<int>,
                 arena: iset<int>, t: nat, bp: int, h: map<int, Header>)
    returns (list': seq<int>, blocks': map<int, nat>, w: nat)
    requires Ring(hdr, base, list) && Agrees(hdr, base, list, blocks, live) && Tiles(blocks, arena)
             && Coalesced(list, blocks)
    requires bp in live && bp in hdr && t < |list| && list[t] < bp && (t + 1 < |list| ==> bp < list[t + 1])
    requires list[t] in hdr && hdr[list[t]].ptr in hdr
    requires var p, next := list[t], hdr[list[t]].ptr;
             var mid := if bp + UNIT * hdr[bp].size == next then Header(hdr[next].ptr, hdr[bp].size + hdr[next].size)
                        else Header(next, hdr[bp].size);
             h == hdr[bp := mid][p := if p + UNIT * hdr[p].size == bp then Header(mid.ptr, hdr[p].size + mid.size)
                                      else Header(bp, hdr[p].size)]
    ensures Ring(h, base, list') && Agrees(h, base, list', blocks', live - {bp}) && Tiles(blocks', arena)
    ensures Coalesced(list', blocks') && list[t] in list'
    ensures bp in blocks && 0 < w < |list'| && list'[w] in blocks'
            && Contains(list'[w], blocks'[list'[w]], bp, blocks[bp])
    ensures forall a :: a in live - {bp} ==> a in blocks' && a in blocks && blocks'[a] == blocks[a]
  {
    hide Ring, Agrees, Tiles, Coalesced, InsertList, DropList;
    LiveFacts(hdr, base, list, blocks, live, bp);
    PlaceFacts(hdr, base, list, blocks, live, t);
    var p, next, size := list[t], hdr[list[t]].ptr, hdr[bp].size;
    var h1 := hdr[bp := Header(next, size)][p := Header(bp, hdr[p].size)];
    var l1 := InsertList(list, t, bp);
    InsertRing(hdr, base, list, t, bp, size);
    InsertAgrees(hdr, base, list, blocks, live, t, bp);
    AllLoose(list, blocks);
    if t + 1 < |list| { PlaceFacts(hdr, base, list, blocks, live, t + 1); }
    var l2, b2, h2 := JoinNext(h1, base, l1, blocks, live - {bp}, arena, t);
    PlaceFacts(h2, base, l2, b2, live - {bp}, t);
    PlaceFacts(h2, base, l2, b2, live - {bp}, t + 1);
    var h3;
    list', blocks', h3, w := JoinPrev(h2, base, l2, b2, live - {bp}, arena, t);
    assert h3 == h;
  }

  /** The upward merge of free: the block at position `t + 1` takes in the next one it touches. */
  lemma JoinNext(hdr: map<int, Header>, base: int, list: seq<int>, blocks: map<int, nat>, live: set<int>,
                 arena: iset<int>, t: nat)
    returns (list': seq<int>, blocks': map<int, nat>, hdr': map<int, Header>)
    requires Sound(hdr, base, list, blocks, live, arena) && t + 1 < |list|
    requires forall k: nat :: k != t && k != t + 1 ==> Loose(list, blocks, k)
    ensures Sound(hdr', base, list', blocks', live, arena)
    ensures forall k: nat :: k != t ==> Loose(list', blocks', k)
    ensures t + 1 < |list'| && list'[t] == list[t] && list'[t + 1] == list[t + 1]
    ensures list[t + 1] in blocks && list[t + 1] in blocks' && blocks'[list[t + 1]] >= blocks[list[t + 1]]
    ensures t > 0 ==> list[t] in blocks && list[t] in blocks' && blocks'[list[t]] == blocks[list[t]]
    ensures forall a :: a in live ==> a in blocks && a in blocks' && blocks'[a] == blocks[a]
    ensures if t + 2 < |list| && list[t + 1] + UNIT * blocks[list[t + 1]] == list[t + 2]
            then list[t + 2] in hdr && list[t + 2] in blocks
                 && hdr' == hdr[list[t + 1] := Header(hdr[list[t + 2]].ptr, blocks[list[t + 1]] + blocks[list[t + 2]])]
            else hdr' == hdr
  {
    hide Ring, Agrees, Tiles, DropList;
    PlaceFacts(hdr, base, list, blocks, live, t);
    PlaceFacts(hdr, base, list, blocks, live, t + 1);
    LiveBlocks(hdr, base, list, blocks, live);
    Rising(hdr, base, list);
    list', blocks', hdr' := list, blocks, hdr;
    if t + 2 < |list| && list[t + 1] + UNIT * blocks[list[t + 1]] == list[t + 2] {
      JoinStep(hdr, base, list, blocks, live, arena, t + 1);
      list', blocks' := DropList(list, t + 2), JoinBlocks(blocks, list[t + 1], list[t + 2]);
      hdr' := hdr[list[t + 1] := Header(hdr[list[t + 2]].ptr, blocks[list[t + 1]] + blocks[list[t + 2]])];
    }
  }

  /** The downward merge of free: the block at position `t` takes in the one behind it. */
  lemma JoinPrev(hdr: map<int, Header>, base: int, list: seq<int>, blocks: map<int, nat>, live: set<int>,
                 arena: iset<int>, t: nat)
    returns (list': seq<int>, blocks': map<int, nat>, hdr': map<int, Header>, w: nat)
    requires Sound(hdr, base, list, blocks, live, arena) && t + 1 < |list|
    requires forall k: nat :: k != t ==> Loose(list, blocks, k)
    ensures Sound(hdr', base, list', blocks', live, arena) && Coalesced(list', blocks') && list[t] in list'
    ensures list[t + 1] in blocks && 0 < w < |list'| && list'[w] in blocks'
    ensures Contains(list'[w], blocks'[list'[w]], list[t + 1], blocks[list[t + 1]])
    ensures forall a :: a in live ==> a in blocks && a in blocks' && blocks'[a] == blocks[a]
    ensures if t > 0 && list[t] in blocks && list[t] + UNIT * blocks[list[t]] == list[t + 1]
            then list[t + 1] in hdr
                 && hdr' == hdr[list[t] := Header(hdr[list[t + 1]].ptr, blocks[list[t]] + blocks[list[t + 1]])]
            else hdr' == hdr
  {
    hide Ring, Agrees, Tiles, DropList;
    PlaceFacts(hdr, base, list, blocks, live, t);
    PlaceFacts(hdr, base, list, blocks, live, t + 1);
    LiveBlocks(hdr, base, list, blocks, live);
    Rising(hdr, base, list);
    list', blocks', hdr', w := list, blocks, hdr, t + 1;
    if t > 0 && list[t] + UNIT * blocks[list[t]] == list[t + 1] {
      JoinStep(hdr, base, list, blocks, live, arena, t);
      list', blocks', w := DropList(list, t + 1), JoinBlocks(blocks, list[t], list[t + 1]), t;
      hdr' := hdr[list[t] := Header(hdr[list[t + 1]].ptr, blocks[list[t]] + blocks[list[t + 1]])];
      assert list'[t] == list[t];
    }
  }

  lemma LiveBlocks(hdr: map<int, Header>, base: int, list: seq<int>, blocks: map<int, nat>, live: set<int>)
    requires Agrees(hdr, base, list, blocks, live)
    ensures forall a :: a in live ==> a in blocks && a !in list
  {
  }

  lemma Rising(hdr: map<int, Header>, base: int, list: seq<int>)
    requires Ring(hdr, base, list)
    ensures forall i, j :: 0 <= i < j < |list| ==> list[i] < list[j]
    ensures list[0] == base
  {
  }

  lemma AllLoose(list: seq<int>, blocks: map<int, nat>)
    requires Coalesced(list, blocks)
    ensures forall k: nat :: Loose(list, blocks, k)
  {
  }
}

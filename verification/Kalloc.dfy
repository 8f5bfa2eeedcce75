/** kernel/kalloc.c: physical pages, and the same allocator fed one page at a time. */
module Kalloc {
  import opened Arithmetic
  import opened Tiling
  import opened Allocator

  const PAGE_UNITS := 256     // 4096 / sizeof(Header)

  /** Free pages lie above `base`, apart from one another and from the memory in use. */
  ghost predicate PagesApart(pages: seq<int>, base: int, arena: iset<int>) {
    && (forall i :: 0 <= i < |pages| ==> base < pages[i] && Region(pages[i], PAGE_UNITS) !! arena)
    && (forall i, j :: 0 <= i < j < |pages| ==> Apart(pages[i], PAGE_UNITS, pages[j], PAGE_UNITS))
  }

  class KernelHeap {
    const heap: Heap
    /** kmem.freelist */
    var pages: seq<int>

    constructor (heap: Heap, pages: seq<int>)
      ensures this.heap == heap && this.pages == pages
    {
      this.heap, this.pages := heap, pages;
    }

    ghost predicate Valid()
      reads this, heap
    {
      heap.Valid() && PagesApart(pages, heap.base, heap.arena)
    }

    /** kpage_alloc; 0 when no page is left */
    method PageAlloc() returns (r: int)
      modifies this
      ensures if old(pages) == [] then r == 0 && pages == [] else r == old(pages)[0] && pages == old(pages)[1..]
    {
      if pages == [] {
        return 0;
      }
      r := pages[0];
      pages := pages[1..];
    }

    /** kpage_free */
    method PageFree(v: int)
      requires Valid() && heap.base < v && Region(v, PAGE_UNITS) !! heap.arena
      requires forall i :: 0 <= i < |pages| ==> Apart(v, PAGE_UNITS, pages[i], PAGE_UNITS)
      modifies this
      ensures Valid() && pages == [v] + old(pages)
    {
      pages := [v] + pages;
    }

    /** morecore: one page, whatever the request. */
    method Morecore() returns (r: int)
      requires Valid() && heap.freep != 0
      modifies this, heap
      ensures Valid() && heap.freep != 0 && heap.live == old(heap.live)
      ensures forall a :: a in heap.live ==>
                a in heap.blocks && a in old(heap.blocks) && heap.blocks[a] == old(heap.blocks)[a]
      ensures if old(pages) == []
              then r == 0 && pages == [] && heap.arena == old(heap.arena)
                   && heap.list == old(heap.list) && heap.hdr == old(heap.hdr)
              else r == heap.freep && pages == old(pages)[1..]
                   && heap.arena == old(heap.arena) + Region(old(pages)[0], PAGE_UNITS)
      ensures heap.Unused() ==
              if old(pages) == [] then old(heap.Unused()) else old(heap.Unused()) + Region(old(pages)[0], PAGE_UNITS)
    {
      var p := PageAlloc();
      if p == 0 {
        heap.LiveInBlocks();
        return 0;
      }
      ghost var a0 := heap.arena;
      var w := heap.AddRegion(p, PAGE_UNITS);
      StillApart(old(pages), heap.base, a0);
      r := heap.freep;
    }

    /** The search loop of kmalloc: rounds over the list, and a page after each that fails. */
    method Search(nunits: nat) returns (prevp: int, p: int, found: bool, ghost q: nat, ghost k: nat)
      requires Valid() && heap.freep != 0 && nunits > 0
      modifies this, heap
      ensures Valid() && heap.freep != 0 && heap.live == old(heap.live) && k <= |old(pages)| && pages == old(pages)[k..]
      ensures heap.arena == WithPages(old(heap.arena), old(pages), k)
      ensures heap.Unused() == WithPages(old(heap.Unused()), old(pages), k)
      ensures forall j: nat :: j < k ==> !HasRun(WithPages(old(heap.Unused()), old(pages), j), nunits)
      ensures found <==> HasRun(heap.Unused(), nunits)
      ensures !found ==> k == |old(pages)|
      ensures found ==> 0 < q < |heap.list| && heap.list[q] == p && heap.list[q - 1] == prevp
      ensures found ==> p in heap.hdr && heap.hdr[p].size >= nunits
      ensures forall a :: a in old(heap.live) ==>
                a in heap.blocks && a in old(heap.blocks) && heap.blocks[a] == old(heap.blocks)[a]
    {
      hide Ring, Agrees, Tiles, Coalesced, Region, HasRun, FreeBytes, PagesApart;
      heap.LiveInBlocks();
      assert old(pages)[0..] == old(pages);
      k := 0;
      prevp, p, found, q := heap.FirstFit(nunits);
      while !found
        invariant Valid() && heap.freep != 0 && heap.live == old(heap.live)
        invariant found ==> 0 < q < |heap.list| && heap.list[q] == p && heap.list[q - 1] == prevp
        invariant found ==> p in heap.hdr && heap.hdr[p].size >= nunits
        invariant found <==> HasRun(heap.Unused(), nunits)
        invariant forall a :: a in old(heap.live) ==>
                    a in heap.blocks && a in old(heap.blocks) && heap.blocks[a] == old(heap.blocks)[a]
        invariant k <= |old(pages)| && pages == old(pages)[k..]
        invariant heap.arena == WithPages(old(heap.arena), old(pages), k)
        invariant heap.Unused() == WithPages(old(heap.Unused()), old(pages), k)
        invariant forall j: nat :: j < k ==> !HasRun(WithPages(old(heap.Unused()), old(pages), j), nunits)
        decreases |pages|, !found
      {
        p := Morecore();
        if p == 0 {
          return;
        }
        k := k + 1;
        prevp, p, found, q := heap.FirstFit(nunits);
      }
    }

    /** kmalloc terminates on every request: each round of the search either ends it or uses
        up a page. It takes pages, `k` in all, exactly until the free bytes have a run that is
        long enough, and fails exactly if they have none even with every page. */
    method Kmalloc(nbytes: nat) returns (r: int, ghost k: nat)
      requires Valid() && nbytes < TWO64
      modifies this, heap
      ensures Valid() && k <= |old(pages)| && pages == old(pages)[k..]
      ensures heap.arena == WithPages(old(heap.arena), old(pages), k)
      ensures nbytes == 0 ==> r == 0 && k == 0
      ensures nbytes > 0 ==> forall j: nat :: j < k ==>
                !HasRun(WithPages(old(heap.Unused()), old(pages), j), NUnits(nbytes))
      ensures nbytes > 0 ==> (r != 0 <==> HasRun(WithPages(old(heap.Unused()), old(pages), k), NUnits(nbytes)))
      ensures nbytes > 0 ==> (r == 0 <==> forall j: nat :: j <= |old(pages)| ==>
                                !HasRun(WithPages(old(heap.Unused()), old(pages), j), NUnits(nbytes)))
      ensures r == 0 ==> heap.live == old(heap.live) && heap.Unused() == WithPages(old(heap.Unused()), old(pages), k)
      ensures r != 0 ==> r - UNIT !in old(heap.live) && heap.live == old(heap.live) + {r - UNIT}
      ensures r != 0 ==> r - UNIT in heap.blocks && heap.blocks[r - UNIT] == NUnits(nbytes)
      ensures r != 0 ==> Region(r - UNIT, NUnits(nbytes)) <= WithPages(old(heap.Unused()), old(pages), k)
      ensures r != 0 ==>
                heap.Unused() == WithPages(old(heap.Unused()), old(pages), k) - Region(r - UNIT, NUnits(nbytes))
      ensures forall a :: a in old(heap.live) ==>
                a in heap.blocks && a in old(heap.blocks) && heap.blocks[a] == old(heap.blocks)[a]
    {
      hide Ring, Agrees, Tiles, Coalesced, Region, HasRun, FreeBytes;
      heap.LiveInBlocks();
      assert old(pages)[0..] == old(pages);
      if nbytes == 0 {
        return 0, 0;
      }
      if heap.freep == 0 {
        heap.Initialize();
      }
      var prevp, p, found;
      ghost var q;
      prevp, p, found, q, k := Search(NUnits(nbytes));
      if !found {
        return 0, k;
      }
      r := heap.Carve(prevp, p, NUnits(nbytes), q);
    }
  }

  /** `f` and the first `k` pages. */
  ghost function WithPages(f: iset<int>, pages: seq<int>, k: nat): iset<int>
    requires k <= |pages|
  {
    if k == 0 then f else WithPages(f, pages, k - 1) + Region(pages[k - 1], PAGE_UNITS)
  }

  lemma StillApart(pages: seq<int>, base: int, arena: iset<int>)
    requires |pages| > 0 && PagesApart(pages, base, arena)
    ensures PagesApart(pages[1..], base, arena + Region(pages[0], PAGE_UNITS))
  {
    forall i | 0 <= i < |pages[1..]|
      ensures base < pages[1..][i] && Region(pages[1..][i], PAGE_UNITS) !! arena + Region(pages[0], PAGE_UNITS)
    {
      assert Apart(pages[0], PAGE_UNITS, pages[i + 1], PAGE_UNITS);
      assert Region(pages[i + 1], PAGE_UNITS) !! arena;
    }
  }
}

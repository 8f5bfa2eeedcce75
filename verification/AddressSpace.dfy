/** User address spaces (kernel/vm.c): mapping, growing, shrinking and copying them. */
module AddressSpace {
  import opened Arithmetic
  import opened FourLevels
  import opened PageTable
  import opened Wrappers

  /** mappages returns 0 or -1, or panics with "remap". */
  datatype MapResult = Mapped | NoMemory | Remap

  const KERNBASE: nat := 0xFFFF_FFFF_8000_0000

  // ----- frames on and off the free list -----------------------------------

  ghost predicate Unmapped(vm: Vm, f: nat)
    requires Sound(vm)
  {
    forall pd, v :: pd in vm.dirs && 0 <= v < LIMIT && Present(Lookup(vm, pd, v)) ==> Lookup(vm, pd, v).frame != f
  }

  /** Frame `f` is memory that is neither free nor a table, and nothing maps it. */
  ghost predicate Loose(vm: Vm, f: nat)
    requires Sound(vm)
  {
    UsedFrame(vm, f) && f in vm.data && Unmapped(vm, f)
  }

  /** Directory slot `i` has a table now; `n` frames were spent, and one more if it had none. */
  ghost predicate SlotFilled(a: Vm, b: Vm, pd: nat, i: nat, n: nat)
    requires pd in a.tables && pd in b.tables && i < ENTRIES
  {
    && Present(b.tables[pd][i]) && (forall j :: 0 <= j < ENTRIES && j != i ==> b.tables[pd][j] == a.tables[pd][j])
    && (if Present(a.tables[pd][i]) then b.tables[pd][i] == a.tables[pd][i] else b.tables[pd][i].frame !in a.tables)
    && b.tables.Keys == a.tables.Keys + {b.tables[pd][i].frame}
    && |b.free| == |a.free| - n - if Present(a.tables[pd][i]) then 0 else 1
  }

  /** The tables that `pd` got since `vm0` are all the tables that there are since then. */
  ghost predicate TablesAdded(vm0: Vm, vm: Vm, pd: nat)
    requires pd in vm0.tables && pd in vm.tables
  {
    && vm.tables.Keys == vm0.tables.Keys + TablesOf(vm, pd)
    && forall i :: 0 <= i < USER && Present(vm.tables[pd][i]) && !Present(vm0.tables[pd][i]) ==>
         vm.tables[pd][i].frame !in vm0.tables
  }

  lemma OneMoreTable(a: Vm, b: Vm, pd: nat, i: nat, n: nat)
    requires pd in a.tables && pd in b.tables && i < USER && SlotFilled(a, b, pd, i, n)
    ensures TablesOf(b, pd) == TablesOf(a, pd) + {b.tables[pd][i].frame}
  {
    forall t | t in TablesOf(a, pd) ensures t in TablesOf(b, pd) {
      var j :| 0 <= j < USER && Present(a.tables[pd][j]) && a.tables[pd][j].frame == t;
      assert b.tables[pd][j] == a.tables[pd][j];
    }
  }

  lemma SameTables(a: Vm, b: Vm)
    requires Sound(a) && Sound(b) && b.tables == a.tables && b.dirs == a.dirs
    ensures SameMaps(a, b)
  {
  }

  lemma PopKeeps(vm: Vm)
    requires Wf(vm) && vm.free != []
    ensures var r := vm.(free := vm.free[1..]); Wf(r) && SameMaps(vm, r) && Loose(r, vm.free[0])
    ensures FreeSet(vm.(free := vm.free[1..])) == FreeSet(vm) - {vm.free[0]}
  {
    var r := vm.(free := vm.free[1..]);
    assert forall pd: nat, i: nat :: HasTable(r, pd, i) <==> HasTable(vm, pd, i);
    assert Sound(r);
    SameTables(vm, r);
    assert vm.free == [vm.free[0]] + r.free;
  }

  lemma PushKeeps(vm: Vm, f: nat)
    requires Wf(vm) && Loose(vm, f)
    ensures var r := vm.(free := [f] + vm.free); Wf(r) && SameMaps(vm, r) && FreeSet(r) == FreeSet(vm) + {f}
  {
    var r := vm.(free := [f] + vm.free);
    assert forall pd: nat, i: nat :: HasTable(r, pd, i) <==> HasTable(vm, pd, i);
    assert Sound(r);
    SameTables(vm, r);
  }

  lemma DataKeeps(vm: Vm, f: nat, page: Page)
    requires Wf(vm) && f in vm.data
    ensures var r := vm.(data := vm.data[f := page]); Wf(r) && SameMaps(vm, r)
  {
    var r := vm.(data := vm.data[f := page]);
    assert forall pd: nat, i: nat :: HasTable(r, pd, i) <==> HasTable(vm, pd, i);
    assert Sound(r);
    SameTables(vm, r);
  }

  // ----- whole spaces ------------------------------------------------------

  /** The directory that setupkvm makes, with its two back-pointers. */
  function NewDirectory(pml4: nat, pdpt: nat): (t: Table)
    ensures forall i :: 0 <= i < USER ==> t[i] == NONE
  {
    EmptyTable()[511 := Pte(pml4, 1)][510 := Pte(pdpt, 1)]
  }

  /** setupkvm: two upper tables and a directory, from the head of the free list. */
  function NewSpace(vm: Vm): Vm
    requires |vm.free| >= 3
  {
    var pml4, pdpt, pd := vm.free[0], vm.free[1], vm.free[2];
    vm.(free := vm.free[3..], dirs := vm.dirs + {pd},
        tables := vm.tables[pml4 := EmptyTable()[0 := Pte(pdpt, PWU)][511 := Pte(vm.kpdpt, PWU)]]
                           [pdpt := EmptyTable()[0 := Pte(pd, PWU)]]
                           [pd := NewDirectory(pml4, pdpt)])
  }

  /** The spaces of `a` other than `d` translate alike in `b`. */
  ghost predicate OtherMaps(a: Vm, b: Vm, d: nat)
    requires Sound(a) && Sound(b)
  {
    forall q, w :: q in a.dirs && q != d && 0 <= w < LIMIT ==> q in b.dirs && Lookup(b, q, w) == Lookup(a, q, w)
  }

  lemma NewSpaceSound(vm: Vm)
    requires Sound(vm) && |vm.free| >= 3
    ensures vm.free[2] != vm.free[0] && vm.free[2] != vm.free[1] && vm.free[2] in FreeSet(vm)
    ensures Sound(NewSpace(vm)) && vm.free[2] !in vm.dirs
            && FreeSet(NewSpace(vm)) == FreeSet(vm) - {vm.free[0], vm.free[1], vm.free[2]}
  {
    var r := NewSpace(vm);
    assert forall q: nat, i: nat :: HasTable(r, q, i) <==> HasTable(vm, q, i);
    assert forall q: nat, i: nat :: HasTable(r, q, i) ==> TableOf(r, q, i) == TableOf(vm, q, i);
    assert vm.free == [vm.free[0], vm.free[1], vm.free[2]] + r.free;
  }

  lemma NewSpaceKeeps(vm: Vm)
    requires Wf(vm) && |vm.free| >= 3
    ensures Wf(NewSpace(vm)) && OtherMaps(vm, NewSpace(vm), vm.free[2]) && Vacant(NewSpace(vm), vm.free[2], 0, LIMIT)
  {
    var r, pd := NewSpace(vm), vm.free[2];
    NewSpaceSound(vm);
    forall w | 0 <= w < LIMIT ensures Lookup(r, pd, w) == NONE {
      assert r.tables[pd] == NewDirectory(vm.free[0], vm.free[1]);
    }
    forall q, w | q in vm.dirs && 0 <= w < LIMIT ensures Lookup(r, q, w) == Lookup(vm, q, w) {
      if Present(vm.tables[q][w / ENTRIES]) { assert HasTable(vm, q, w / ENTRIES); }
    }
    forall q, w | q in r.dirs && 0 <= w < LIMIT && Present(Lookup(r, q, w))
      ensures UsedFrame(r, Lookup(r, q, w).frame)
    {
      assert UsedFrame(vm, Lookup(vm, q, w).frame);
    }
  }

  /** The new space has all four levels, and the others keep theirs. */
  lemma NewSpaceLinked(vm: Vm)
    requires Wf(vm) && |vm.free| >= 3
    ensures Linked(NewSpace(vm), vm.free[2]) && (Rooted(vm) ==> Rooted(NewSpace(vm)))
  {
    var r, pml4, pdpt, pd := NewSpace(vm), vm.free[0], vm.free[1], vm.free[2];
    NewSpaceSound(vm);
    assert forall q: nat, i: nat :: HasTable(r, q, i) ==> HasTable(vm, q, i) && TableOf(r, q, i) == TableOf(vm, q, i);
    assert Orphan(r, pml4) && Orphan(r, pdpt);
    if Rooted(vm) {
      forall q | q in r.dirs && q != pd ensures Linked(r, q) {
        assert Linked(vm, q);
        assert Orphan(r, TopOf(vm, q)) && Orphan(r, vm.tables[TopOf(vm, q)][0].frame);
      }
    }
  }

  lemma ForgetDir(vm: Vm, d: nat)
    requires Wf(vm) && d in vm.dirs
    ensures var r := vm.(dirs := vm.dirs - {d}); Wf(r) && OtherMaps(vm, r, d) && Orphan(r, d)
    ensures forall i :: 0 <= i < USER && Present(vm.tables[d][i]) ==>
              Orphan(vm.(dirs := vm.dirs - {d}), vm.tables[d][i].frame)
  {
    var r := vm.(dirs := vm.dirs - {d});
    assert forall q: nat, i: nat :: HasTable(r, q, i) <==> HasTable(vm, q, i) && q != d;
    assert Sound(r);
    forall q, w | q in r.dirs && 0 <= w < LIMIT ensures Lookup(r, q, w) == Lookup(vm, q, w) {
    }
    forall i | 0 <= i < USER && Present(vm.tables[d][i]) ensures Orphan(r, vm.tables[d][i].frame) {
      assert HasTable(vm, d, i);
    }
  }

  function FreeTable(vm: Vm, t: nat): Vm {
    vm.(free := [t] + vm.free, tables := vm.tables - {t})
  }

  lemma FreeTableKeeps(vm: Vm, t: nat)
    requires Wf(vm) && Orphan(vm, t)
    ensures Wf(FreeTable(vm, t)) && SameMaps(vm, FreeTable(vm, t)) && FreeSet(FreeTable(vm, t)) == FreeSet(vm) + {t}
    ensures forall u :: Orphan(vm, u) && u != t ==> Orphan(FreeTable(vm, t), u)
  {
    var r := FreeTable(vm, t);
    assert forall q: nat, i: nat :: HasTable(r, q, i) <==> HasTable(vm, q, i);
    assert Sound(r);
    forall q, w | q in vm.dirs && 0 <= w < LIMIT ensures Lookup(r, q, w) == Lookup(vm, q, w) {
      if Present(vm.tables[q][w / ENTRIES]) { assert HasTable(vm, q, w / ENTRIES); }
    }
  }

  /** The tables in the first `n` slots of directory `e`. */
  ghost function TablesBelow(e: Table, n: nat): set<nat>
    requires n <= USER
  {
    set i | 0 <= i < n && Present(e[i]) :: e[i].frame
  }

  /** freevm has returned the tables in the first `i` slots of `d`, whose entries were `e`. */
  ghost predicate Freeing(vm1: Vm, vm: Vm, d: nat, e: Table, i: nat)
    requires Wf(vm1) && Wf(vm) && i <= USER
  {
    && vm.dirs == vm1.dirs - {d} && OtherMaps(vm1, vm, d) && vm.data == vm1.data && vm.kpdpt == vm1.kpdpt
    && (forall t :: t in vm.tables && t in vm1.tables ==> vm.tables[t] == vm1.tables[t])
    && vm.tables.Keys == vm1.tables.Keys - TablesBelow(e, i) && FreeSet(vm) == FreeSet(vm1) + TablesBelow(e, i)
    && Orphan(vm, d) && vm.tables[d] == e && (forall j :: i <= j < USER && Present(e[j]) ==> Orphan(vm, e[j].frame))
    && (forall j, k :: 0 <= j < k < USER && Present(e[j]) && Present(e[k]) ==> e[j].frame != e[k].frame)
    && (forall j :: 0 <= j < USER && Present(e[j]) ==> e[j].frame != d && e[j].frame in vm1.tables)
  }

  lemma FreeingStart(vm: Vm, d: nat)
    requires Wf(vm) && d in vm.dirs
    ensures var r := vm.(dirs := vm.dirs - {d}); Wf(r) && d in vm.tables && Freeing(vm, r, d, vm.tables[d], 0)
  {
    ForgetDir(vm, d);
    forall j | 0 <= j < USER && Present(vm.tables[d][j])
      ensures vm.tables[d][j].frame != d && vm.tables[d][j].frame in vm.tables
    {
      assert HasTable(vm, d, j);
    }
    forall j, k | 0 <= j < k < USER && Present(vm.tables[d][j]) && Present(vm.tables[d][k])
      ensures vm.tables[d][j].frame != vm.tables[d][k].frame
    {
      assert HasTable(vm, d, j) && HasTable(vm, d, k);
    }
  }

  lemma FreeingStep(vm1: Vm, vm: Vm, d: nat, e: Table, i: nat)
    requires Wf(vm1) && Wf(vm) && i < USER && Freeing(vm1, vm, d, e, i)
    ensures if Present(e[i]) then Wf(FreeTable(vm, e[i].frame)) && Freeing(vm1, FreeTable(vm, e[i].frame), d, e, i + 1)
            else Freeing(vm1, vm, d, e, i + 1)
  {
    if Present(e[i]) {
      var r := FreeTable(vm, e[i].frame);
      FreeTableKeeps(vm, e[i].frame);
      hide Sound, LeavesSound, Lookup;
      assert TablesBelow(e, i + 1) == TablesBelow(e, i) + {e[i].frame};
    } else {
      assert TablesBelow(e, i + 1) == TablesBelow(e, i);
    }
  }

  lemma FreeingDir(vm1: Vm, vm: Vm, d: nat, e: Table, i: nat)
    requires Wf(vm1) && Wf(vm) && i <= USER && Freeing(vm1, vm, d, e, i)
    ensures d in vm.tables && vm.tables[d] == e
  {
  }

  lemma FreeingEnd(vm1: Vm, vm: Vm, d: nat, e: Table)
    requires Wf(vm1) && Wf(vm) && Freeing(vm1, vm, d, e, USER) && d in vm1.tables && e == vm1.tables[d]
    ensures var r := FreeTable(vm, d);
      Wf(r) && r.dirs == vm1.dirs - {d} && OtherMaps(vm1, r, d) && FreeSet(r) == FreeSet(vm1) + TablesOf(vm1, d) + {d}
      && r.data == vm1.data
    ensures d in vm1.dirs && Rooted(vm1) ==> Rooted(FreeTable(vm, d))
  {
    FreeTableKeeps(vm, d);
    assert TablesBelow(e, USER) == TablesOf(vm1, d);
    if d in vm1.dirs && Rooted(vm1) { OthersRooted(vm1, FreeTable(vm, d), d); }
    hide Sound, LeavesSound, Lookup;
  }

  // ----- unmapping ---------------------------------------------------------

  /** Nothing else maps the frames that pages `lo` to `hi` of `pd` map, and they are memory. */
  ghost predicate Private(vm: Vm, pd: nat, lo: nat, hi: nat)
    requires Sound(vm) && pd in vm.dirs && hi <= LIMIT
  {
    forall v :: lo <= v < hi && Present(Lookup(vm, pd, v)) ==> Sole(vm, pd, v)
  }

  ghost predicate Sole(vm: Vm, pd: nat, v: nat)
    requires Sound(vm) && pd in vm.dirs && v < LIMIT
  {
    var f := Lookup(vm, pd, v).frame;
    f in vm.data &&
    forall q, w :: q in vm.dirs && 0 <= w < LIMIT && Present(Lookup(vm, q, w)) && Lookup(vm, q, w).frame == f ==>
      q == pd && w == v
  }

  /** deallocuvm returns the frame of page `v` and clears its entry. */
  function DropPage(vm: Vm, pd: nat, v: nat): Vm
    requires Sound(vm) && pd in vm.dirs && v < LIMIT && Present(Lookup(vm, pd, v))
  {
    assert HasTable(vm, pd, v / ENTRIES);
    SetEntry(vm, TableOf(vm, pd, v / ENTRIES), v % ENTRIES, NONE).(free := [Lookup(vm, pd, v).frame] + vm.free)
  }

  lemma DropKeeps(vm: Vm, pd: nat, v: nat)
    requires Wf(vm) && pd in vm.dirs && v < LIMIT && Present(Lookup(vm, pd, v)) && Sole(vm, pd, v)
    ensures var r := DropPage(vm, pd, v);
      && Wf(r) && OneMapped(vm, r, pd, v, NONE) && FreeSet(r) == FreeSet(vm) + {Lookup(vm, pd, v).frame}
      && r.tables.Keys == vm.tables.Keys && r.tables[pd] == vm.tables[pd]
  {
    var f := Lookup(vm, pd, v).frame;
    assert UsedFrame(vm, f);
    SetEntryKeeps(vm, pd, v, NONE);
    var s := SetEntry(vm, TableOf(vm, pd, v / ENTRIES), v % ENTRIES, NONE);
    PushKeeps(s, f);
  }

  /** deallocuvm comes to page `w` and finds it mapped. */
  ghost predicate Drops(vm: Vm, pd: nat, lo: nat, hi: nat, w: nat)
    requires Sound(vm) && pd in vm.dirs && hi <= LIMIT && w < LIMIT
  {
    Visits(vm, pd, lo, hi, w) && Present(Lookup(vm, pd, w))
  }

  ghost function Dropped(vm: Vm, pd: nat, lo: nat, hi: nat, v: nat): set<nat>
    requires Sound(vm) && pd in vm.dirs && hi <= LIMIT && v <= LIMIT
  {
    set w | lo <= w < v && Drops(vm, pd, lo, hi, w) :: Lookup(vm, pd, w).frame
  }

  /** `vm` is `vm0` after deallocuvm has gone from page `lo` to page `v`. */
  ghost predicate Shrinking(vm0: Vm, vm: Vm, pd: nat, lo: nat, hi: nat, v: nat)
    requires Wf(vm0) && Wf(vm) && pd in vm0.dirs && hi <= LIMIT
  {
    && vm.dirs == vm0.dirs && vm.data == vm0.data && vm.tables.Keys == vm0.tables.Keys
    && vm.tables[pd] == vm0.tables[pd]
    && (forall q, w :: q in vm0.dirs && 0 <= w < LIMIT ==>
          Lookup(vm, q, w) == if q == pd && w < v && Drops(vm0, pd, lo, hi, w) then NONE else Lookup(vm0, q, w))
    && FreeSet(vm) == FreeSet(vm0) + Dropped(vm0, pd, lo, hi, if v <= LIMIT then v else LIMIT)
  }

  lemma ShrinkStart(vm: Vm, pd: nat, lo: nat, hi: nat)
    requires Wf(vm) && pd in vm.dirs && hi <= LIMIT
    ensures pd in vm.tables && Shrinking(vm, vm, pd, lo, hi, lo)
  {
    forall w | 0 <= w < lo && w < LIMIT ensures !Drops(vm, pd, lo, hi, w) {
      if Visits(vm, pd, lo, hi, w) { VisitsAhead(vm, pd, lo, hi, w); }
    }
  }

  lemma DropStep(vm0: Vm, vm: Vm, pd: nat, lo: nat, hi: nat, v: nat)
    requires Wf(vm0) && Wf(vm) && pd in vm0.dirs && lo <= v < hi <= LIMIT && Private(vm0, pd, lo, hi)
    requires Shrinking(vm0, vm, pd, lo, hi, v) && Drops(vm0, pd, lo, hi, v)
    ensures Present(Lookup(vm, pd, v)) && Wf(DropPage(vm, pd, v))
            && Shrinking(vm0, DropPage(vm, pd, v), pd, lo, hi, v + 1)
  {
    var e := Lookup(vm0, pd, v);
    assert Lookup(vm, pd, v) == e;
    assert Sole(vm0, pd, v);
    assert Sole(vm, pd, v);
    DropKeeps(vm, pd, v);
    var r := DropPage(vm, pd, v);
    hide Sound, LeavesSound, DropPage;
    assert Dropped(vm0, pd, lo, hi, v + 1) == Dropped(vm0, pd, lo, hi, v) + {e.frame};
  }

  /** Going past pages that it does not drop changes nothing. */
  lemma PassStep(vm0: Vm, vm: Vm, pd: nat, lo: nat, hi: nat, v: nat, v': nat)
    requires Wf(vm0) && Wf(vm) && pd in vm0.dirs && lo <= v < v' && hi <= LIMIT
    requires Shrinking(vm0, vm, pd, lo, hi, v)
    requires forall w :: v <= w < v' && w < LIMIT ==> !Drops(vm0, pd, lo, hi, w)
    ensures Shrinking(vm0, vm, pd, lo, hi, v')
  {
    var a, b := if v <= LIMIT then v else LIMIT, if v' <= LIMIT then v' else LIMIT;
    hide Sound, LeavesSound;
    assert Dropped(vm0, pd, lo, hi, b) == Dropped(vm0, pd, lo, hi, a);
  }

  lemma SkipStep(vm0: Vm, vm: Vm, pd: nat, lo: nat, hi: nat, v: nat)
    requires Wf(vm0) && Wf(vm) && pd in vm0.dirs && lo <= v < hi <= LIMIT && Shrinking(vm0, vm, pd, lo, hi, v)
    requires !Present(vm.tables[pd][v / ENTRIES])
    requires forall w :: v <= w < LIMIT ==> (Visits(vm0, pd, lo, hi, w) <==> Visits(vm0, pd, v, hi, w))
    ensures Shrinking(vm0, vm, pd, lo, hi, v + ENTRIES)
    ensures forall w :: v + ENTRIES <= w < LIMIT ==>
              (Visits(vm0, pd, lo, hi, w) <==> Visits(vm0, pd, v + ENTRIES, hi, w))
  {
    forall w | v <= w < v + ENTRIES && w < LIMIT ensures !Drops(vm0, pd, lo, hi, w) {
      if Visits(vm0, pd, v + ENTRIES, hi, w) { VisitsAhead(vm0, pd, v + ENTRIES, hi, w); }
    }
    PassStep(vm0, vm, pd, lo, hi, v, v + ENTRIES);
  }

  function Clear(vm: Vm, pd: nat, v: nat): Vm
    requires Sound(vm) && pd in vm.dirs && v < LIMIT
  {
    if Present(Lookup(vm, pd, v)) then DropPage(vm, pd, v) else vm
  }

  lemma ClearStep(vm0: Vm, vm: Vm, pd: nat, lo: nat, hi: nat, v: nat)
    requires Wf(vm0) && Wf(vm) && pd in vm0.dirs && lo <= v < hi <= LIMIT && Shrinking(vm0, vm, pd, lo, hi, v)
    requires Private(vm0, pd, lo, hi) && Present(vm.tables[pd][v / ENTRIES])
    requires forall w :: v <= w < LIMIT ==> (Visits(vm0, pd, lo, hi, w) <==> Visits(vm0, pd, v, hi, w))
    ensures Present(Lookup(vm, pd, v)) ==> Sole(vm, pd, v)
    ensures Wf(Clear(vm, pd, v)) && Shrinking(vm0, Clear(vm, pd, v), pd, lo, hi, v + 1)
    ensures forall w :: v + 1 <= w < LIMIT ==> (Visits(vm0, pd, lo, hi, w) <==> Visits(vm0, pd, v + 1, hi, w))
  {
    assert Lookup(vm, pd, v) == Lookup(vm0, pd, v);
    assert Visits(vm0, pd, v, hi, v);
    if Present(Lookup(vm, pd, v)) {
      DropStep(vm0, vm, pd, lo, hi, v);
      assert Sole(vm0, pd, v);
    } else {
      PassStep(vm0, vm, pd, lo, hi, v, v + 1);
    }
  }

  lemma ClearConfined(vm: Vm, pd: nat, v: nat)
    requires Wf(vm) && pd in vm.dirs && v < LIMIT
    ensures Confined(vm, Clear(vm, pd, v), pd)
  {
    if Present(Lookup(vm, pd, v)) {
      SetEntryConfined(vm, pd, v / ENTRIES, v % ENTRIES, NONE);
      var r := SetEntry(vm, TableOf(vm, pd, v / ENTRIES), v % ENTRIES, NONE);
      SameTablesConfined(r, Clear(vm, pd, v), pd);
      ConfinedJoin(vm, r, Clear(vm, pd, v), pd);
    } else {
      SameTablesConfined(vm, vm, pd);
    }
  }

  /** Nothing is left to do beyond `hi`. */
  lemma ShrinkEnd(vm0: Vm, vm: Vm, pd: nat, lo: nat, hi: nat, v: nat)
    requires Wf(vm0) && Wf(vm) && pd in vm0.dirs && hi <= LIMIT && hi <= v && Shrinking(vm0, vm, pd, lo, hi, v)
    ensures Shrinking(vm0, vm, pd, lo, hi, hi)
  {
    forall w | hi <= w < LIMIT ensures !Drops(vm0, pd, lo, hi, w) {
      if Visits(vm0, pd, lo, hi, w) { VisitsAhead(vm0, pd, lo, hi, w); }
    }
    var a := if v <= LIMIT then v else LIMIT;
    assert Dropped(vm0, pd, lo, hi, a) == Dropped(vm0, pd, lo, hi, hi);
  }

  /** A space whose only page is page 512: directory 1, table 2 in its slot 1, frame 3. */
  function Lone(): Vm {
    Vm([], map[1 := EmptyTable()[1 := Pte(2, PWU)], 2 := EmptyTable()[0 := Pte(3, PWU)]], {1},
       map[1 := ZeroPage(), 2 := ZeroPage(), 3 := ZeroPage()], 4)
  }

  lemma LoneWf()
    ensures Wf(Lone()) && Lookup(Lone(), 1, ENTRIES) == Pte(3, PWU) && Private(Lone(), 1, 0, LIMIT)
  {
    var vm := Lone();
    assert vm.tables.Keys == {1, 2};
    forall i | 0 <= i < ENTRIES ensures Present(vm.tables[1][i]) <==> i == 1 { }
    forall i | 0 <= i < ENTRIES ensures Present(vm.tables[2][i]) <==> i == 0 { }
    assert Sound(vm);
    forall v | 0 <= v < LIMIT ensures Lookup(vm, 1, v) == if v == ENTRIES then Pte(3, PWU) else NONE {
      LonePage(v);
    }
    hide Sound, Lookup;
  }

  lemma LonePage(v: nat)
    requires Sound(Lone()) && v < LIMIT
    ensures Lookup(Lone(), 1, v) == if v == ENTRIES then Pte(3, PWU) else NONE
  {
    hide Sound;
    if v == ENTRIES { DivUnique(v, ENTRIES, 1, 0); }
  }

  /** deallocuvm, called to keep one page of 513, keeps page 512 as well: it starts at page 1,
      finds no table there, and skips to page 513. */
  lemma ASkippedPageStays(vm: Vm)
    requires Wf(Lone()) && Wf(vm) && Shrinking(Lone(), vm, 1, PageUp(4096), PageUp(513 * 4096), PageUp(513 * 4096))
    ensures Lookup(vm, 1, ENTRIES) == Lookup(Lone(), 1, ENTRIES) == Pte(3, PWU) && 3 !in FreeSet(vm)
  {
    LoneWf();
    assert PageUp(4096) == 1 && PageUp(513 * 4096) == 513;
    VisitsIff(Lone(), 1, 1, 513, ENTRIES);
    assert !Visits(Lone(), 1, 1, 513, ENTRIES);
  }

  // ----- mapping fresh frames ----------------------------------------------

  /** What the pages from `lo` on are to hold: flags and contents. */
  type Wanted = seq<(nat, Page)>

  /** Page `w` of `pd` is mapped as wanted, to a frame that was free in `vm0`. */
  ghost predicate Fresh(vm0: Vm, vm: Vm, pd: nat, lo: nat, want: Wanted, w: nat)
    requires Sound(vm) && pd in vm.dirs && w < LIMIT && lo <= w < lo + |want|
  {
    var e := Lookup(vm, pd, w);
    && Present(e) && e.flags == want[w - lo].0 && e.frame in FreeSet(vm0)
    && e.frame in vm.data && vm.data[e.frame] == want[w - lo].1
  }

  ghost function Taken(vm: Vm, pd: nat, lo: nat, v: nat): set<nat>
    requires Sound(vm) && pd in vm.dirs && v <= LIMIT
  {
    set w | lo <= w < v :: Lookup(vm, pd, w).frame
  }

  /** Pages `lo` to `v` of `pd` got frames of their own, and no other translation changed. */
  ghost predicate GrownMaps(vm0: Vm, vm: Vm, pd: nat, lo: nat, want: Wanted, v: nat)
    requires Sound(vm0) && Sound(vm)
  {
    && vm.dirs == vm0.dirs && pd in vm0.dirs && lo <= v <= LIMIT && v - lo <= |want|
    && (forall q, w :: q in vm0.dirs && 0 <= w < LIMIT && !(q == pd && lo <= w < v) ==>
          Lookup(vm, q, w) == Lookup(vm0, q, w))
    && (forall w :: lo <= w < v ==> Fresh(vm0, vm, pd, lo, want, w))
    && (forall w, w' :: lo <= w < w' < v ==> Lookup(vm, pd, w).frame != Lookup(vm, pd, w').frame)
  }

  /** No frame was lost, and memory in use did not change. */
  ghost predicate GrownFrames(vm0: Vm, vm: Vm, taken: set<nat>) {
    && FreeSet(vm) <= FreeSet(vm0) && Pool(vm) + taken == Pool(vm0)
    && vm.data.Keys == vm0.data.Keys && (forall f :: f in vm0.data && f !in FreeSet(vm0) ==> vm.data[f] == vm0.data[f])
  }

  ghost predicate Growing(vm0: Vm, vm: Vm, pd: nat, lo: nat, want: Wanted, v: nat)
    requires Wf(vm0) && Wf(vm)
  {
    GrownMaps(vm0, vm, pd, lo, want, v) && GrownFrames(vm0, vm, Taken(vm, pd, lo, v))
  }

  lemma GrowStart(vm: Vm, pd: nat, lo: nat, want: Wanted)
    requires Wf(vm) && pd in vm.dirs && lo <= LIMIT
    ensures pd in vm.tables && Growing(vm, vm, pd, lo, want, lo) && Spent(vm, vm, pd, lo, lo)
  {
    assert Taken(vm, pd, lo, lo) == {};
    forall t | t in TablesOf(vm, pd) ensures t in vm.tables {
      var i :| 0 <= i < USER && Present(vm.tables[pd][i]) && vm.tables[pd][i].frame == t;
      assert HasTable(vm, pd, i);
    }
    assert Pool(vm) + {} == Pool(vm);
  }

  lemma OneMore(vm: Vm, vm': Vm, pd: nat, lo: nat, v: nat, e: Pte)
    requires Sound(vm) && Sound(vm') && vm.dirs == vm'.dirs && pd in vm.dirs && lo <= v < LIMIT
    requires OneMapped(vm, vm', pd, v, e)
    ensures Taken(vm', pd, lo, v + 1) == Taken(vm, pd, lo, v) + {e.frame}
  {
    hide Sound, Lookup;
    forall x | x in Taken(vm', pd, lo, v + 1) ensures x in Taken(vm, pd, lo, v) + {e.frame} {
      var w :| lo <= w < v + 1 && Lookup(vm', pd, w).frame == x;
    }
    assert Lookup(vm', pd, v) == e;
    forall x | x in Taken(vm, pd, lo, v) ensures x in Taken(vm', pd, lo, v + 1) {
      var w :| lo <= w < v && Lookup(vm, pd, w).frame == x;
      assert Lookup(vm', pd, w).frame == x;
    }
  }

  lemma GrowFrames(vm0: Vm, vm: Vm, vm': Vm, taken: set<nat>, f: nat, page: Page)
    requires GrownFrames(vm0, vm, taken) && f in FreeSet(vm) && f in vm.data && vm'.data == vm.data[f := page]
    requires FreeSet(vm') <= FreeSet(vm) && Pool(vm') + {f} == Pool(vm)
    ensures GrownFrames(vm0, vm', taken + {f})
  {
    hide Pool;
    assert Pool(vm') + (taken + {f}) == Pool(vm) + taken;
  }

  lemma GrowMaps(vm0: Vm, vm: Vm, vm': Vm, pd: nat, lo: nat, want: Wanted, v: nat, f: nat)
    requires Sound(vm0) && Wf(vm) && Sound(vm') && GrownMaps(vm0, vm, pd, lo, want, v) && v < LIMIT && v - lo < |want|
    requires f in FreeSet(vm) && FreeSet(vm) <= FreeSet(vm0) && f in vm.data && vm'.data == vm.data[f := want[v - lo].1]
    requires vm'.dirs == vm.dirs && want[v - lo].0 % 2 == 1 && OneMapped(vm, vm', pd, v, Pte(f, want[v - lo].0))
    ensures GrownMaps(vm0, vm', pd, lo, want, v + 1)
  {
    forall w | lo <= w < v
      ensures Fresh(vm0, vm', pd, lo, want, w) && Lookup(vm', pd, w) == Lookup(vm, pd, w)
              && Lookup(vm, pd, w).frame != f
    {
      assert Fresh(vm0, vm, pd, lo, want, w);
      assert UsedFrame(vm, Lookup(vm, pd, w).frame);
    }
    assert Lookup(vm', pd, v) == Pte(f, want[v - lo].0);
    hide Sound, LeavesSound, Lookup;
  }

  /** Frame `f` leaves the free list, is filled, and becomes page `v`. */
  lemma GrowStep(vm0: Vm, vm: Vm, vm': Vm, pd: nat, lo: nat, want: Wanted, v: nat, f: nat)
    requires Wf(vm0) && Wf(vm) && Wf(vm') && Growing(vm0, vm, pd, lo, want, v) && v < LIMIT && v - lo < |want|
    requires f in FreeSet(vm) && vm'.dirs == vm.dirs && f in vm.data && vm'.data == vm.data[f := want[v - lo].1]
    requires want[v - lo].0 % 2 == 1 && OneMapped(vm, vm', pd, v, Pte(f, want[v - lo].0))
    requires FreeSet(vm') <= FreeSet(vm) && Pool(vm') + {f} == Pool(vm)
    ensures Growing(vm0, vm', pd, lo, want, v + 1)
  {
    hide Sound, LeavesSound, Lookup, Taken, Pool, OneMapped, FreeSet;
    OneMore(vm, vm', pd, lo, v, Pte(f, want[v - lo].0));
    GrowFrames(vm0, vm, vm', Taken(vm, pd, lo, v), f, want[v - lo].1);
    GrowMaps(vm0, vm, vm', pd, lo, want, v, f);
  }

  /** How many frames pages `lo` to `v` take: one each, and one for each missing table. */
  function Need(vm: Vm, pd: nat, lo: nat, v: nat): nat
    requires pd in vm.tables && v <= LIMIT
  {
    if v <= lo then 0
    else Need(vm, pd, lo, v - 1) + 1 + if NewTable(vm, pd, lo, v - 1) then 1 else 0
  }

  predicate NewTable(vm: Vm, pd: nat, lo: nat, w: nat)
    requires pd in vm.tables && w < LIMIT
  {
    !Present(vm.tables[pd][w / ENTRIES]) && (w == lo || w % ENTRIES == 0)
  }

  lemma {:induction false} NeedGrows(vm: Vm, pd: nat, lo: nat, v: nat, hi: nat)
    requires pd in vm.tables && v <= hi <= LIMIT
    ensures Need(vm, pd, lo, v) <= Need(vm, pd, lo, hi)
    decreases hi
  {
    if v < hi { NeedGrows(vm, pd, lo, v, hi - 1); }
  }

  /** The directory after pages `lo` to `v` got tables: those and no others are new. */
  ghost predicate Tabled(vm0: Vm, vm: Vm, pd: nat, lo: nat, v: nat)
    requires pd in vm0.tables && pd in vm.tables && v <= LIMIT
  {
    && TablesAdded(vm0, vm, pd)
    && forall i :: 0 <= i < USER ==>
         (Present(vm.tables[pd][i]) <==>
           Present(vm0.tables[pd][i]) || (lo < v && lo / ENTRIES <= i <= (v - 1) / ENTRIES))
  }

  /** The same, and what pages and tables cost. */
  ghost predicate Spent(vm0: Vm, vm: Vm, pd: nat, lo: nat, v: nat)
    requires pd in vm0.tables && pd in vm.tables && v <= LIMIT
  {
    |vm0.free| == |vm.free| + Need(vm0, pd, lo, v) && Tabled(vm0, vm, pd, lo, v)
  }

  /** Free is what was free before, less the frames `taken` and the new tables of `pd`. */
  ghost predicate FramesSpent(vm0: Vm, vm: Vm, pd: nat, taken: set<nat>)
    requires pd in vm0.tables && pd in vm.tables
  {
    FreeSet(vm) == FreeSet(vm0) - taken - (TablesOf(vm, pd) - TablesOf(vm0, pd))
  }

  /** No frame leaves the free list but to become a page or a table that the directory names. */
  lemma FramesAccounted(vm0: Vm, vm: Vm, pd: nat, taken: set<nat>)
    requires Wf(vm0) && Wf(vm) && pd in vm0.dirs && pd in vm.dirs && TablesAdded(vm0, vm, pd)
    requires FreeSet(vm) <= FreeSet(vm0) && Pool(vm) + taken == Pool(vm0) && taken !! FreeSet(vm)
    ensures FramesSpent(vm0, vm, pd, taken)
  {
    forall t | t in TablesOf(vm0, pd) ensures t in vm0.tables {
      var i :| 0 <= i < USER && Present(vm0.tables[pd][i]) && vm0.tables[pd][i].frame == t;
      assert HasTable(vm0, pd, i);
    }
    forall f | f in FreeSet(vm0) ensures f !in vm0.tables { }
    forall f | f in FreeSet(vm) ensures f !in vm.tables { }
    hide Sound, LeavesSound, TablesOf;
    forall f ensures f in FreeSet(vm) <==> f in FreeSet(vm0) - taken - (TablesOf(vm, pd) - TablesOf(vm0, pd)) {
      assert f in Pool(vm) + taken <==> f in Pool(vm0);
    }
  }

  lemma NoTablesYet(vm: Vm, pd: nat, lo: nat)
    requires Wf(vm) && pd in vm.dirs && lo <= LIMIT
    ensures pd in vm.tables && Tabled(vm, vm, pd, lo, lo)
  {
    forall t | t in TablesOf(vm, pd) ensures t in vm.tables {
      var i :| 0 <= i < USER && Present(vm.tables[pd][i]) && vm.tables[pd][i].frame == t;
      assert HasTable(vm, pd, i);
    }
  }

  lemma FreeFrame(vm: Vm, f: nat)
    requires Wf(vm) && f in FreeSet(vm)
    ensures f in vm.data
  {
  }

  lemma DirectoryIsTable(vm: Vm, pd: nat)
    requires Wf(vm) && pd in vm.dirs
    ensures pd in vm.tables
  {
  }

  lemma StillLinked(vm0: Vm, vm: Vm, d: nat)
    requires Wf(vm0) && Wf(vm) && d in vm0.dirs && Confined(vm0, vm, d) && Linked(vm0, d)
    ensures d in vm.dirs && Reachable(vm, d)
  {
    StaysLinked(vm0, vm, d, d);
    LinkedReachable(vm, d);
  }

  lemma StillRooted(vm0: Vm, vm: Vm, pd: nat)
    requires Wf(vm0) && Wf(vm) && pd in vm0.dirs && Confined(vm0, vm, pd) && Rooted(vm0)
    ensures Rooted(vm)
  {
    StaysRooted(vm0, vm, pd);
  }

  lemma StillUsed(vm0: Vm, vm: Vm, f: nat)
    requires UsedFrame(vm0, f) && Pool(vm) == Pool(vm0)
    ensures UsedFrame(vm, f)
  {
    assert f !in Pool(vm0);
  }

  lemma TabledFrames(vm0: Vm, vm: Vm, pd: nat, lo: nat, v: nat)
    requires Wf(vm0) && Wf(vm) && pd in vm0.dirs && pd in vm.dirs && v <= LIMIT && Tabled(vm0, vm, pd, lo, v)
    requires FreeSet(vm) <= FreeSet(vm0) && Pool(vm) == Pool(vm0)
    ensures FramesSpent(vm0, vm, pd, {})
  {
    hide Sound, LeavesSound, Pool, FreeSet, FramesSpent;
    assert Pool(vm) + {} == Pool(vm0);
    FramesAccounted(vm0, vm, pd, {});
  }

  lemma TabledStep(vm0: Vm, vm: Vm, vm': Vm, pd: nat, lo: nat, v: nat, n: nat)
    requires pd in vm0.tables && pd in vm.tables && pd in vm'.tables && lo <= v < LIMIT && Tabled(vm0, vm, pd, lo, v)
    requires SlotFilled(vm, vm', pd, v / ENTRIES, n)
    ensures Tabled(vm0, vm', pd, lo, v + 1)
  {
    if lo < v { Places(v - 1, v); Places(lo, v - 1); }
    Places(lo, v);
    OneMoreTable(vm, vm', pd, v / ENTRIES, n);
  }

  lemma EnoughSpent(vm0: Vm, vm: Vm, pd: nat, lo: nat, v: nat)
    requires pd in vm0.tables && pd in vm.tables && v <= LIMIT && Spent(vm0, vm, pd, lo, v)
    ensures |vm0.free| >= Need(vm0, pd, lo, v) && Tabled(vm0, vm, pd, lo, v)
  {
  }

  lemma SpentStep(vm0: Vm, vm: Vm, vm': Vm, pd: nat, lo: nat, v: nat)
    requires pd in vm0.tables && pd in vm.tables && pd in vm'.tables && lo <= v < LIMIT && Spent(vm0, vm, pd, lo, v)
    ensures Present(vm.tables[pd][v / ENTRIES]) <==> !NewTable(vm0, pd, lo, v)
    ensures SlotFilled(vm, vm', pd, v / ENTRIES, 1) ==> Spent(vm0, vm', pd, lo, v + 1)
  {
    if lo < v { Places(v - 1, v); Places(lo, v - 1); }
    Places(lo, v);
    if SlotFilled(vm, vm', pd, v / ENTRIES, 1) { TabledStep(vm0, vm, vm', pd, lo, v, 1); }
  }

  /** A page that got a frame of its own is mapped, so its frame is not free. */
  lemma TakenNotFree(vm0: Vm, vm: Vm, pd: nat, lo: nat, want: Wanted, v: nat)
    requires Wf(vm0) && Wf(vm) && GrownMaps(vm0, vm, pd, lo, want, v)
    ensures Taken(vm, pd, lo, v) !! FreeSet(vm)
  {
    forall w | lo <= w < v ensures UsedFrame(vm, Lookup(vm, pd, w).frame) {
      assert Fresh(vm0, vm, pd, lo, want, w);
    }
    hide Sound, LeavesSound, Lookup;
  }

  /** Pages `lo` to `v` are zeroed, in frames of their own and usable, and nothing else changed: every frame
      that left the free list is one of theirs or a table that the directory names. */
  ghost predicate Enlarged(vm0: Vm, vm: Vm, pd: nat, lo: nat, v: nat)
    requires Wf(vm0) && Wf(vm) && pd in vm0.tables && pd in vm.tables
  {
    && pd in vm.dirs && lo <= v <= LIMIT && Growing(vm0, vm, pd, lo, Zeroed(v - lo), v)
    && Spent(vm0, vm, pd, lo, v) && FramesSpent(vm0, vm, pd, Taken(vm, pd, lo, v))
    && (forall w :: lo <= w < v ==> ForWriting(Lookup(vm, pd, w)))
  }

  /** User code may read and write the page. */
  predicate ForWriting(e: Pte) {
    Present(e) && Writable(e) && ForUsers(e)
  }

  lemma ZeroedForWriting(vm0: Vm, vm: Vm, pd: nat, lo: nat, v: nat, n: nat)
    requires Wf(vm0) && Wf(vm) && Growing(vm0, vm, pd, lo, Zeroed(n), v)
    ensures forall w :: lo <= w < v ==> ForWriting(Lookup(vm, pd, w))
  {
    hide Sound, LeavesSound, Lookup, Pool, FreeSet;
    forall w | lo <= w < v ensures ForWriting(Lookup(vm, pd, w)) {
      assert Fresh(vm0, vm, pd, lo, Zeroed(n), w);
    }
  }

  /** What a growth comes to, in frames. */
  lemma GrownSpends(vm0: Vm, vm: Vm, pd: nat, lo: nat, want: Wanted, v: nat)
    requires Wf(vm0) && Wf(vm) && Growing(vm0, vm, pd, lo, want, v) && pd in vm0.tables && pd in vm.tables
             && Spent(vm0, vm, pd, lo, v)
    ensures FramesSpent(vm0, vm, pd, Taken(vm, pd, lo, v))
  {
    hide Sound, LeavesSound, Lookup, Taken;
    TakenNotFree(vm0, vm, pd, lo, want, v);
    FramesAccounted(vm0, vm, pd, Taken(vm, pd, lo, v));
  }

  // ----- undoing a growth that failed --------------------------------------

  /** The entries of pages `lo` to `hi` are empty. */
  ghost predicate Vacant(vm: Vm, pd: nat, lo: nat, hi: nat)
    requires Sound(vm) && pd in vm.dirs && hi <= LIMIT
  {
    forall w :: lo <= w < hi ==> Lookup(vm, pd, w) == NONE
  }

  /** Frames taken from the free list are mapped nowhere else. */
  lemma FreshPrivate(vm0: Vm, vm: Vm, pd: nat, lo: nat, want: Wanted, v: nat, hi: nat)
    requires Wf(vm0) && Wf(vm) && GrownMaps(vm0, vm, pd, lo, want, v) && v <= hi <= LIMIT
    requires Vacant(vm0, pd, lo, hi)
    ensures Private(vm, pd, lo, hi) && Contiguous(vm, pd, lo, v, hi)
  {
    forall w | lo <= w < v ensures Present(Lookup(vm, pd, w)) && Sole(vm, pd, w) {
      assert Fresh(vm0, vm, pd, lo, want, w);
      FreshSole(vm0, vm, pd, lo, want, v, w);
    }
    hide Sound, LeavesSound;
  }

  lemma FreshSole(vm0: Vm, vm: Vm, pd: nat, lo: nat, want: Wanted, v: nat, w: nat)
    requires Wf(vm0) && Wf(vm) && GrownMaps(vm0, vm, pd, lo, want, v) && lo <= w < v
    ensures Sole(vm, pd, w)
  {
    var f := Lookup(vm, pd, w).frame;
    assert Fresh(vm0, vm, pd, lo, want, w);
    forall q, x | q in vm.dirs && 0 <= x < LIMIT && Present(Lookup(vm, q, x)) && !(q == pd && lo <= x < v)
      ensures Lookup(vm, q, x).frame != f
    {
      assert Lookup(vm, q, x) == Lookup(vm0, q, x);
      assert UsedFrame(vm0, Lookup(vm0, q, x).frame);
    }
  }

  /** The same translations, no frame lost but `extra`, and memory in use as it was. */
  ghost predicate Restored(vm0: Vm, vm: Vm, extra: set<nat>)
    requires Wf(vm0) && Wf(vm)
  {
    && vm.dirs == vm0.dirs && SameMaps(vm0, vm) && FreeSet(vm) <= FreeSet(vm0) && Pool(vm) + extra == Pool(vm0)
    && vm.data.Keys == vm0.data.Keys && (forall f :: f in vm0.data && f !in FreeSet(vm0) ==> vm.data[f] == vm0.data[f])
  }

  lemma UndoMaps(vm0: Vm, vm: Vm, vm': Vm, pd: nat, lo: nat, want: Wanted, v: nat, hi: nat)
    requires Wf(vm0) && Wf(vm) && Wf(vm') && GrownMaps(vm0, vm, pd, lo, want, v) && v <= hi <= LIMIT
    requires Vacant(vm0, pd, lo, hi)
    requires Contiguous(vm, pd, lo, v, hi) && Shrinking(vm, vm', pd, lo, hi, hi)
    ensures SameMaps(vm0, vm') && Dropped(vm, pd, lo, hi, hi) == Taken(vm, pd, lo, v)
  {
    forall w | 0 <= w < LIMIT ensures Drops(vm, pd, lo, hi, w) <==> lo <= w < v {
      if lo <= w < v {
        ContiguousVisited(vm, pd, lo, v, hi, w);
      } else if Visits(vm, pd, lo, hi, w) {
        VisitsAhead(vm, pd, lo, hi, w);
      }
    }
    hide Sound, LeavesSound, Visits, Drops;
  }

  lemma UndoAll(vm0: Vm, vm: Vm, vm': Vm, pd: nat, lo: nat, want: Wanted, v: nat, hi: nat, extra: set<nat>)
    requires Wf(vm0) && Wf(vm) && Wf(vm') && GrownMaps(vm0, vm, pd, lo, want, v) && v <= hi <= LIMIT
    requires GrownFrames(vm0, vm, Taken(vm, pd, lo, v) + extra)
    requires Vacant(vm0, pd, lo, hi)
    requires Contiguous(vm, pd, lo, v, hi) && Shrinking(vm, vm', pd, lo, hi, hi)
    ensures Restored(vm0, vm', extra)
  {
    UndoMaps(vm0, vm, vm', pd, lo, want, v, hi);
    forall f | f in Taken(vm, pd, lo, v) ensures f in FreeSet(vm0) {
      var w :| lo <= w < v && f == Lookup(vm, pd, w).frame;
      assert Fresh(vm0, vm, pd, lo, want, w);
    }
    hide Sound, LeavesSound, Lookup, Contiguous;
    assert Pool(vm') == Pool(vm) + Taken(vm, pd, lo, v);
    assert Pool(vm') + extra == Pool(vm) + (Taken(vm, pd, lo, v) + extra);
  }

  lemma SameDirectory(vm0: Vm, vm: Vm, vm': Vm, pd: nat, lo: nat, v: nat)
    requires pd in vm0.tables && pd in vm.tables && v <= LIMIT && Tabled(vm0, vm, pd, lo, v)
    requires vm'.tables.Keys == vm.tables.Keys && vm'.tables[pd] == vm.tables[pd]
    ensures Tabled(vm0, vm', pd, lo, v)
  {
    assert TablesOf(vm', pd) == TablesOf(vm, pd);
  }

  lemma RestoredFrames(vm0: Vm, vm: Vm, pd: nat, lo: nat, v: nat)
    requires Wf(vm0) && Wf(vm) && pd in vm0.dirs && v <= LIMIT && Restored(vm0, vm, {})
    requires pd in vm0.tables && pd in vm.tables && Tabled(vm0, vm, pd, lo, v)
    ensures FramesSpent(vm0, vm, pd, {})
  {
    hide Sound, LeavesSound, SameMaps, Tabled, FramesSpent;
    assert Pool(vm) + {} == Pool(vm);
    TabledFrames(vm0, vm, pd, lo, v);
  }

  lemma StaysLoose(vm: Vm, vm': Vm, pd: nat, lo: nat, hi: nat, f: nat)
    requires Wf(vm) && Wf(vm') && pd in vm.dirs && hi <= LIMIT && Shrinking(vm, vm', pd, lo, hi, hi) && Loose(vm, f)
    ensures Loose(vm', f)
  {
    assert f !in Dropped(vm, pd, lo, hi, hi);
    assert f !in FreeSet(vm');
  }

  function Stray(b: Backing): set<nat> {
    if b.NoTable? then {b.f} else {}
  }

  /** Pages `lo` to `v` were mapped, but page `v` could not be. */
  ghost predicate Failed(vm0: Vm, vm: Vm, pd: nat, lo: nat, want: Wanted, v: nat, b: Backing)
    requires Wf(vm0) && Wf(vm)
  {
    && !b.Backed? && GrownMaps(vm0, vm, pd, lo, want, v) && GrownFrames(vm0, vm, Taken(vm, pd, lo, v) + Stray(b))
    && (b.NoTable? ==> Loose(vm, b.f) && b.f in FreeSet(vm0))
    && pd in vm0.tables && pd in vm.tables && Tabled(vm0, vm, pd, lo, v)
  }

  lemma StrayMaps(vm0: Vm, vm: Vm, vm': Vm, pd: nat, lo: nat, want: Wanted, v: nat, f: nat)
    requires Sound(vm0) && Wf(vm) && Sound(vm') && GrownMaps(vm0, vm, pd, lo, want, v)
    requires f in FreeSet(vm) && vm'.tables == vm.tables && vm'.dirs == vm.dirs
    requires f in vm.data && vm'.data.Keys == vm.data.Keys
             && (forall g :: g in vm.data && g != f ==> vm'.data[g] == vm.data[g])
    ensures GrownMaps(vm0, vm', pd, lo, want, v) && Taken(vm', pd, lo, v) == Taken(vm, pd, lo, v)
  {
    SameTables(vm, vm');
    forall w | lo <= w < v ensures Fresh(vm0, vm', pd, lo, want, w) {
      assert Fresh(vm0, vm, pd, lo, want, w);
      assert UsedFrame(vm, Lookup(vm, pd, w).frame);
    }
  }

  /** A frame that was taken but could not be mapped. */
  lemma StrayFrame(vm0: Vm, vm: Vm, vm': Vm, pd: nat, lo: nat, want: Wanted, v: nat, f: nat)
    requires Wf(vm0) && Wf(vm) && Wf(vm') && Growing(vm0, vm, pd, lo, want, v)
    requires f in FreeSet(vm) && vm'.tables == vm.tables && vm'.dirs == vm.dirs && FreeSet(vm') == FreeSet(vm) - {f}
    requires f in vm.data && vm'.data.Keys == vm.data.Keys
             && (forall g :: g in vm.data && g != f ==> vm'.data[g] == vm.data[g])
    ensures GrownMaps(vm0, vm', pd, lo, want, v) && GrownFrames(vm0, vm', Taken(vm', pd, lo, v) + {f})
  {
    hide Sound, LeavesSound, Lookup, GrownMaps, Taken;
    StrayMaps(vm0, vm, vm', pd, lo, want, v, f);
    assert Pool(vm') + {f} == Pool(vm);
    assert Pool(vm') + (Taken(vm', pd, lo, v) + {f}) == Pool(vm) + Taken(vm, pd, lo, v);
  }

  // ----- copying a space ---------------------------------------------------

  /** Pages that freevm unmaps: it stops at address 0x1da00000. */
  const FREE_TOP: nat := 0x1da00000

  /** The first `n` pages of `pd` are mapped to memory. */
  ghost predicate Resident(vm: Vm, pd: nat, n: nat)
    requires Sound(vm) && pd in vm.dirs && n <= LIMIT
  {
    forall v :: 0 <= v < n ==> Present(Lookup(vm, pd, v)) && Lookup(vm, pd, v).frame in vm.data
  }

  /** Flags and contents of the first `n` pages of `pd`. */
  ghost function Pages(vm: Vm, pd: nat, n: nat): (r: Wanted)
    requires Sound(vm) && pd in vm.dirs && n <= LIMIT && Resident(vm, pd, n)
    ensures |r| == n && forall v :: 0 <= v < n ==> r[v] == (Lookup(vm, pd, v).flags, vm.data[Lookup(vm, pd, v).frame])
  {
    seq(n, v requires 0 <= v < n => (Lookup(vm, pd, v).flags, vm.data[Lookup(vm, pd, v).frame]))
  }

  /** While a copy grows, the original is as it was. */
  lemma OriginalKept(vm: Vm, cur: Vm, pd: nat, n: nat, want: Wanted, v: nat)
    requires Wf(vm) && |vm.free| >= 3 && Wf(NewSpace(vm)) && Wf(cur) && pd in vm.dirs && v < n <= LIMIT
             && Resident(vm, pd, n)
    requires Growing(NewSpace(vm), cur, vm.free[2], 0, want, v) && want == Pages(vm, pd, n)
    ensures want[v] == (Lookup(vm, pd, v).flags, vm.data[Lookup(vm, pd, v).frame])
    ensures pd in cur.dirs && Lookup(cur, pd, v) == Lookup(vm, pd, v) && Present(Lookup(cur, pd, v))
    ensures Lookup(cur, pd, v).frame in cur.data
            && cur.data[Lookup(cur, pd, v).frame] == vm.data[Lookup(vm, pd, v).frame]
  {
    NewSpaceKeeps(vm);
    NewSpaceSound(vm);
    var e := Lookup(vm, pd, v);
    assert UsedFrame(vm, e.frame);
    assert e.frame !in FreeSet(NewSpace(vm));
  }

  /** A frame for each of `n` pages, and for each table of pages begun. */
  function NewNeed(n: nat): (k: nat) {
    n + (n + ENTRIES - 1) / ENTRIES
  }

  /** How many pages of a new space `frames` frames are enough for. */
  function CopiedPages(frames: nat): (v: nat) {
    frames - (frames + ENTRIES) / (ENTRIES + 1)
  }

  /** Memory runs out after CopiedPages pages. */
  lemma HowFar(frames: nat, v: nat)
    requires NewNeed(v) <= frames < NewNeed(v + 1)
    ensures v == CopiedPages(frames)
    ensures v <= PageUp(FREE_TOP) <==> frames < NewNeed(PageUp(FREE_TOP) + 1)
  {
    var q, r := v / ENTRIES, v % ENTRIES;
    assert v == ENTRIES * q + r;
    if r == 0 {
      DivUnique(v + ENTRIES - 1, ENTRIES, q, ENTRIES - 1);
      DivUnique(v + ENTRIES, ENTRIES, q + 1, 0);
      if frames == v + q {
        DivUnique(frames + ENTRIES, ENTRIES + 1, q, ENTRIES);
      } else {
        DivUnique(frames + ENTRIES, ENTRIES + 1, q + 1, 0);
      }
    } else {
      DivUnique(v + ENTRIES - 1, ENTRIES, q + 1, r - 1);
      DivUnique(v + ENTRIES, ENTRIES, q + 1, r);
      DivUnique(frames + ENTRIES, ENTRIES + 1, q + 1, r);
    }
    var top := PageUp(FREE_TOP);
    hide PageUp;
    if v <= top { NewNeedGrows(v + 1, top + 1); } else { NewNeedGrows(top + 1, v); }
  }

  lemma NewNeedGrows(a: nat, b: nat)
    requires a <= b
    ensures NewNeed(a) <= NewNeed(b)
  {
  }

  /** A new space needs a frame for each page and for each table of pages begun. */
  lemma {:induction false} NeedNew(vm: Vm, pd: nat, n: nat)
    requires Sound(vm) && pd in vm.dirs && n <= LIMIT && (forall i :: 0 <= i < USER ==> !Present(vm.tables[pd][i]))
    ensures Need(vm, pd, 0, n) == NewNeed(n)
  {
    if n > 0 {
      NeedNew(vm, pd, n - 1);
      assert (n - 1) / ENTRIES < USER;
    }
  }

  /** The frames of a copy of `n` pages: two upper tables, the directory, its page tables and the pages. */
  ghost predicate CopySpends(vm: Vm, cur: Vm, n: nat)
    requires Wf(vm) && |vm.free| >= 3 && Wf(cur) && n <= LIMIT
  {
    var d := vm.free[2];
    && d in cur.dirs && d in cur.tables
    && FreeSet(cur) == FreeSet(vm) - {vm.free[0], vm.free[1], d} - Taken(cur, d, 0, n) - TablesOf(cur, d)
    && cur.tables.Keys == vm.tables.Keys + {vm.free[0], vm.free[1], d} + TablesOf(cur, d)
    && (forall i :: 0 <= i < USER ==> (Present(cur.tables[d][i]) <==> 0 < n && i <= (n - 1) / ENTRIES))
    && |cur.free| == |vm.free| - 3 - NewNeed(n)
  }

  lemma CopySpent(vm: Vm, cur: Vm, want: Wanted, n: nat)
    requires Wf(vm) && |vm.free| >= 3 && Wf(NewSpace(vm)) && Wf(cur) && n <= LIMIT
             && vm.free[2] in NewSpace(vm).tables && vm.free[2] in cur.tables
    requires Growing(NewSpace(vm), cur, vm.free[2], 0, want, n) && Spent(NewSpace(vm), cur, vm.free[2], 0, n)
    ensures CopySpends(vm, cur, n)
  {
    hide Wf, Sound, LeavesSound, Lookup, Taken, Need, TablesOf, NewSpace, FreeSet;
    var vm0, d := NewSpace(vm), vm.free[2];
    NewSpaceTables(vm);
    NewNeeds(vm, n);
    GrownSpends(vm0, cur, d, 0, want, n);
  }

  lemma NewSpaceTables(vm: Vm)
    requires Wf(vm) && |vm.free| >= 3
    ensures var vm0, d := NewSpace(vm), vm.free[2];
      && d in vm0.tables && vm0.tables.Keys == vm.tables.Keys + {vm.free[0], vm.free[1], d} && TablesOf(vm0, d) == {}
      && FreeSet(vm0) == FreeSet(vm) - {vm.free[0], vm.free[1], d}
      && forall i :: 0 <= i < USER ==> !Present(vm0.tables[d][i])
  {
    NewSpaceSound(vm);
    hide Sound, LeavesSound, FreeSet;
  }

  /** A successful copy: equal flags and contents, in frames that no other space maps. */
  lemma CopyIsDisjoint(vm: Vm, cur: Vm, pd: nat, n: nat, v: nat, q: nat, w: nat)
    requires Wf(vm) && |vm.free| >= 3 && Wf(NewSpace(vm)) && Wf(cur) && pd in vm.dirs && n <= LIMIT
             && Resident(vm, pd, n)
    requires Growing(NewSpace(vm), cur, vm.free[2], 0, Pages(vm, pd, n), n)
    requires v < n && q in vm.dirs && w < LIMIT
    ensures var c, o := Lookup(cur, vm.free[2], v), Lookup(vm, pd, v);
      && Present(c) && c.flags == o.flags && c.frame in cur.data && cur.data[c.frame] == vm.data[o.frame]
      && Lookup(cur, q, w) == Lookup(vm, q, w) && (Present(Lookup(cur, q, w)) ==> Lookup(cur, q, w).frame != c.frame)
  {
    NewSpaceKeeps(vm);
    NewSpaceSound(vm);
    assert Fresh(NewSpace(vm), cur, vm.free[2], 0, Pages(vm, pd, n), v);
    assert Present(Lookup(vm, q, w)) ==> UsedFrame(vm, Lookup(vm, q, w).frame);
  }

  lemma FreshPrivateAll(vm0: Vm, vm: Vm, pd: nat, want: Wanted, v: nat, hi: nat)
    requires Wf(vm0) && Wf(vm) && GrownMaps(vm0, vm, pd, 0, want, v) && hi <= LIMIT && Vacant(vm0, pd, 0, LIMIT)
    ensures Private(vm, pd, 0, hi) && Contiguous(vm, pd, 0, Min(v, hi), hi)
  {
    forall w | 0 <= w < v ensures Present(Lookup(vm, pd, w)) && Sole(vm, pd, w) {
      assert Fresh(vm0, vm, pd, 0, want, w);
      FreshSole(vm0, vm, pd, 0, want, v, w);
    }
    hide Sound, LeavesSound;
  }

  lemma FailedFrame(vm0: Vm, vm: Vm, d: nat, want: Wanted, v: nat, b: Backing)
    requires Wf(vm0) && Wf(vm) && Failed(vm0, vm, d, 0, want, v, b)
    ensures b.NoTable? ==> Loose(vm, b.f)
    ensures vm.dirs == vm0.dirs && vm.data.Keys == vm0.data.Keys
    ensures forall f :: f in vm0.data && f !in FreeSet(vm0) ==> vm.data[f] == vm0.data[f]
  {
  }

  /** The frame that could not be mapped is free again. */
  lemma StrayBack(vm0: Vm, vm: Vm, vm': Vm, d: nat, want: Wanted, v: nat, b: Backing)
    requires Wf(vm0) && Wf(vm) && Wf(vm') && Failed(vm0, vm, d, 0, want, v, b)
    requires vm'.tables == vm.tables && vm'.dirs == vm.dirs && vm'.data == vm.data
             && FreeSet(vm') == FreeSet(vm) + Stray(b)
    ensures GrownMaps(vm0, vm', d, 0, want, v) && TablesAdded(vm0, vm', d)
    ensures FreeSet(vm') <= FreeSet(vm0) && Pool(vm') + Taken(vm', d, 0, v) == Pool(vm0)
  {
    SameTables(vm, vm');
    forall w | 0 <= w < v ensures Fresh(vm0, vm', d, 0, want, w) {
      assert Fresh(vm0, vm, d, 0, want, w);
    }
    assert Taken(vm', d, 0, v) == Taken(vm, d, 0, v);
    assert Pool(vm') == Pool(vm) + Stray(b);
    assert Pool(vm') + Taken(vm', d, 0, v) == Pool(vm) + (Taken(vm, d, 0, v) + Stray(b));
  }

  /** freevm drops the pages of the copy that stay below where it stops. */
  lemma AllDropped(vm0: Vm, vm: Vm, d: nat, want: Wanted, v: nat, hi: nat)
    requires Wf(vm0) && Wf(vm) && GrownMaps(vm0, vm, d, 0, want, v) && hi <= LIMIT && Vacant(vm0, d, 0, LIMIT)
    ensures d in vm.tables && d in vm.dirs && v <= LIMIT && Dropped(vm, d, 0, hi, hi) == Taken(vm, d, 0, Min(v, hi))
  {
    FreshPrivateAll(vm0, vm, d, want, v, hi);
    forall w | v <= w < hi ensures !Drops(vm, d, 0, hi, w) {
      assert Lookup(vm, d, w) == Lookup(vm0, d, w);
    }
    var m := Min(v, hi);
    forall w | 0 <= w < m ensures Drops(vm, d, 0, hi, w) { ContiguousVisited(vm, d, 0, m, hi, w); }
    hide Sound, LeavesSound, Visits, Drops, Contiguous, GrownMaps, Lookup;
  }

  /** The frames of the pages from `m` on: one for each page, none of them free or a table. */
  lemma TakenFrom(vm0: Vm, vm: Vm, d: nat, want: Wanted, v: nat, m: nat)
    requires Wf(vm0) && Wf(vm) && GrownMaps(vm0, vm, d, 0, want, v) && m <= v
    ensures d in vm.tables && |Taken(vm, d, m, v)| == v - m
    ensures Taken(vm, d, 0, v) == Taken(vm, d, 0, m) + Taken(vm, d, m, v) && Taken(vm, d, 0, m) !! Taken(vm, d, m, v)
    ensures Taken(vm, d, m, v) !! FreeSet(vm) && Taken(vm, d, m, v) !! TablesOf(vm, d)
  {
    forall w | 0 <= w < v ensures UsedFrame(vm, Lookup(vm, d, w).frame) {
      assert Fresh(vm0, vm, d, 0, want, w);
    }
    forall t | t in TablesOf(vm, d) ensures t in vm.tables {
      var i :| 0 <= i < USER && Present(vm.tables[d][i]) && vm.tables[d][i].frame == t;
      assert HasTable(vm, d, i);
    }
    hide Sound, LeavesSound, Lookup;
    TakenCount(vm0, vm, d, want, v, m);
  }

  lemma {:induction false} TakenCount(vm0: Vm, vm: Vm, d: nat, want: Wanted, v: nat, m: nat)
    requires Sound(vm0) && Sound(vm) && GrownMaps(vm0, vm, d, 0, want, v) && m <= v
    ensures |Taken(vm, d, m, v)| == v - m
    decreases v - m
  {
    hide Sound, Lookup;
    if m < v {
      TakenCount(vm0, vm, d, want, v, m + 1);
      assert Taken(vm, d, m, v) == Taken(vm, d, m + 1, v) + {Lookup(vm, d, m).frame};
    } else {
      assert Taken(vm, d, m, v) == {};
    }
  }

  lemma FramesCount(all: set<nat>, a: nat, b: nat, d: nat, free: set<nat>, kept: set<nat>, lost: set<nat>,
                    tables: set<nat>)
    requires free + (kept + lost) + tables == all - {a, b, d} && d in all && d != a && d != b
    requires lost !! kept && lost !! free && lost !! tables
    ensures free + kept + tables + {d} == all - {a, b} - lost && lost <= all - {a, b}
  {
    var rest := free + (kept + lost) + tables;
    forall x ensures x in free + kept + tables + {d} <==> x in all - {a, b} - lost {
      assert x in rest <==> x in all - {a, b, d};
    }
  }

  lemma DiscardFrames(vm: Vm, vm3: Vm, d: nat, want: Wanted, v: nat, hi: nat) returns (lost: set<nat>)
    requires Wf(vm) && |vm.free| >= 3 && Wf(NewSpace(vm)) && Wf(vm3) && d == vm.free[2] && hi <= LIMIT
    requires GrownMaps(NewSpace(vm), vm3, d, 0, want, v) && TablesAdded(NewSpace(vm), vm3, d)
    requires FreeSet(vm3) <= FreeSet(NewSpace(vm)) && Pool(vm3) + Taken(vm3, d, 0, v) == Pool(NewSpace(vm))
    ensures FreeSet(vm3) + Dropped(vm3, d, 0, hi, hi) + TablesOf(vm3, d) + {d} ==
              FreeSet(vm) - {vm.free[0], vm.free[1]} - lost
    ensures lost <= FreeSet(vm) - {vm.free[0], vm.free[1]} && |lost| == v - Min(v, hi)
  {
    hide Sound, LeavesSound, GrownMaps, Taken, Dropped, TablesOf, TablesAdded, Pool, FreeSet, Lookup;
    NewSpaceKeeps(vm);
    NewSpaceSound(vm);
    FramesBack(NewSpace(vm), vm3, d, want, v);
    AllDropped(NewSpace(vm), vm3, d, want, v, hi);
    var m := Min(v, hi);
    TakenFrom(NewSpace(vm), vm3, d, want, v, m);
    lost := Taken(vm3, d, m, v);
    FramesCount(FreeSet(vm), vm.free[0], vm.free[1], d, FreeSet(vm3), Taken(vm3, d, 0, m), lost, TablesOf(vm3, d));
  }

  /** The frames that are free after a copy failed and was taken apart. */
  lemma FramesBack(vm0: Vm, vm: Vm, d: nat, want: Wanted, v: nat)
    requires Wf(vm0) && Wf(vm) && d in vm0.dirs && GrownMaps(vm0, vm, d, 0, want, v) && TablesAdded(vm0, vm, d)
    requires FreeSet(vm) <= FreeSet(vm0) && Pool(vm) + Taken(vm, d, 0, v) == Pool(vm0)
    requires forall i :: 0 <= i < USER ==> !Present(vm0.tables[d][i])
    ensures FreeSet(vm) + Taken(vm, d, 0, v) + TablesOf(vm, d) == FreeSet(vm0)
  {
    forall f | f in Taken(vm, d, 0, v) ensures f in FreeSet(vm0) {
      var w :| 0 <= w < v && f == Lookup(vm, d, w).frame;
      assert Fresh(vm0, vm, d, 0, want, w);
    }
    forall f | f in FreeSet(vm0) ensures f !in vm0.tables { }
    hide Sound, LeavesSound, Lookup;
    forall t | t in TablesOf(vm, d) ensures t in FreeSet(vm0) {
      var i :| 0 <= i < USER && Present(vm.tables[d][i]) && vm.tables[d][i].frame == t;
      assert t in Pool(vm0) && t !in vm0.tables;
    }
    forall f | f in FreeSet(vm0) ensures f in FreeSet(vm) + Taken(vm, d, 0, v) + TablesOf(vm, d) {
      assert f in Pool(vm) + Taken(vm, d, 0, v);
    }
  }

  /** Nothing is left of a copy: every space is as it was, and so is memory in use. */
  ghost predicate Discarded(vm: Vm, r: Vm)
    requires Wf(vm) && Wf(r)
  {
    && r.dirs == vm.dirs && SameMaps(vm, r) && FreeSet(r) <= FreeSet(vm)
    && r.data.Keys == vm.data.Keys && (forall f :: f in vm.data && f !in FreeSet(vm) ==> r.data[f] == vm.data[f])
  }

  lemma DiscardedMaps(vm: Vm, vm3: Vm, r: Vm, d: nat, want: Wanted, v: nat)
    requires Wf(vm) && |vm.free| >= 3 && Wf(NewSpace(vm)) && Wf(vm3) && Wf(r) && d == vm.free[2]
    requires GrownMaps(NewSpace(vm), vm3, d, 0, want, v)
    requires r.dirs == vm3.dirs - {d} && OtherMaps(vm3, r, d)
    ensures r.dirs == vm.dirs && SameMaps(vm, r)
  {
    NewSpaceKeeps(vm);
    NewSpaceSound(vm);
    hide Sound, LeavesSound, Lookup;
  }

  lemma NewNeeds(vm: Vm, n: nat)
    requires Wf(vm) && |vm.free| >= 3 && n <= LIMIT
    ensures vm.free[2] in NewSpace(vm).tables && Need(NewSpace(vm), vm.free[2], 0, n) == NewNeed(n)
    ensures |NewSpace(vm).free| == |vm.free| - 3
  {
    NewSpaceSound(vm);
    NeedNew(NewSpace(vm), vm.free[2], n);
  }

  function Zeroed(n: nat): (r: Wanted)
    ensures |r| == n && forall i :: 0 <= i < n ==> r[i] == (PWU, ZeroPage())
  {
    seq(n, _ => (PWU, ZeroPage()))
  }

  lemma PageUpGrows(a: nat, b: nat)
    requires a <= b
    ensures PageUp(a) <= PageUp(b) && (PageUp(a) < PageUp(b) ==> a < b)
  {
  }

  lemma PageBelow(v: nat, bytes: nat)
    ensures v * PGSIZE < bytes <==> v < PageUp(bytes)
  {
  }

  class Memory {
    var free: seq<nat>              // kmem.freelist
    var tables: map<nat, Table>
    var data: map<nat, Page>
    ghost var dirs: set<nat>
    const kpdpt: nat

    ghost function View(): Vm
      reads this
    {
      Vm(free, tables, dirs, data, kpdpt)
    }

    /** Before the first space: all of `frames` is free. */
    constructor (frames: seq<nat>, kpdpt: nat)
      requires (forall i, j :: 0 <= i < j < |frames| ==> frames[i] != frames[j]) && 0 !in frames
      ensures Wf(View()) && Rooted(View()) && free == frames && dirs == {} && this.kpdpt == kpdpt
    {
      free, tables, dirs, this.kpdpt := frames, map[], {}, kpdpt;
      data := map f | f in frames :: ZeroPage();
    }

    /** kpage_alloc */
    method PageAlloc() returns (f: Option<nat>)
      requires Wf(View())
      modifies this`free
      ensures Wf(View()) && SameMaps(old(View()), View())
      ensures f.None? <==> old(free) == []
      ensures f.None? ==> free == old(free)
      ensures f.Some? ==> |free| == |old(free)| - 1 && f.value in FreeSet(old(View()))
                          && FreeSet(View()) == FreeSet(old(View())) - {f.value} && Loose(View(), f.value)
    {
      if free == [] { SameTables(View(), View()); return None; }
      PopKeeps(View());
      hide Sound, LeavesSound;
      f := Some(free[0]);
      free := free[1..];
    }

    /** kpage_free */
    method PageFree(f: nat)
      requires Wf(View()) && Loose(View(), f)
      modifies this`free
      ensures Wf(View()) && SameMaps(old(View()), View()) && FreeSet(View()) == FreeSet(old(View())) + {f}
    {
      PushKeeps(View(), f);
      hide Sound, LeavesSound;
      free := [f] + free;
    }

    /** walkpgdir: the table that holds the entry of page `v`, added if it is missing. */
    method Walk(pd: nat, v: nat, alloc: bool) returns (t: Option<nat>)
      requires Wf(View()) && pd in dirs && v < LIMIT
      modifies this`free, this`tables
      ensures Wf(View()) && SameMaps(old(View()), View()) && Pool(View()) == Pool(old(View()))
              && FreeSet(View()) <= FreeSet(old(View()))
      ensures t.None? ==> View() == old(View()) && !Present(tables[pd][v / ENTRIES]) && (!alloc || free == [])
      ensures t.Some? ==> HasTable(View(), pd, v / ENTRIES) && t.value == TableOf(View(), pd, v / ENTRIES)
      ensures !alloc || Present(old(tables)[pd][v / ENTRIES]) ==> View() == old(View())
      ensures t.Some? ==> SlotFilled(old(View()), View(), pd, v / ENTRIES, 0)
      ensures Confined(old(View()), View(), pd)
    {
      var i := v / ENTRIES;
      SameTables(View(), View());
      SameTablesConfined(View(), View(), pd);
      if Present(tables[pd][i]) {
        assert HasTable(View(), pd, i);
        return Some(tables[pd][i].frame);
      }
      if !alloc || free == [] { return None; }
      AddTableKeeps(View(), pd, i);
      AddTableConfined(View(), pd, i);
      hide Sound, LeavesSound, Confined;
      var frame := free[0];
      free := free[1..];
      tables := tables[frame := EmptyTable()];
      tables := tables[pd := tables[pd][i := Pte(frame, PWU)]];
      t := Some(frame);
    }

    /** mappages for one page */
    method MapPage(pd: nat, v: nat, f: nat, perm: nat) returns (r: MapResult)
      requires Wf(View()) && pd in dirs && v < LIMIT && UsedFrame(View(), f)
      modifies this`free, this`tables
      ensures Wf(View()) && Pool(View()) == Pool(old(View())) && FreeSet(View()) <= FreeSet(old(View()))
      ensures r == Mapped ==> OneMapped(old(View()), View(), pd, v, Pte(f, WithP(perm)))
      ensures r != Mapped ==> SameMaps(old(View()), View())
      ensures r == Remap <==> Present(Lookup(old(View()), pd, v))
      ensures r == Mapped ==> SlotFilled(old(View()), View(), pd, v / ENTRIES, 0)
      ensures r != Mapped ==> View() == old(View())
      ensures r == NoMemory ==> free == [] && !Present(tables[pd][v / ENTRIES])
      ensures Confined(old(View()), View(), pd)
    {
      hide Confined;
      ghost var before := View();
      var t := Walk(pd, v, true);
      if t.None? { return NoMemory; }
      assert Lookup(View(), pd, v) == Lookup(before, pd, v);
      if Present(tables[t.value][v % ENTRIES]) { return Remap; }
      assert UsedFrame(View(), f) by {
        assert f !in Pool(before);
      }
      SetEntryKeeps(View(), pd, v, Pte(f, WithP(perm)));
      SetEntryConfined(View(), pd, v / ENTRIES, v % ENTRIES, Pte(f, WithP(perm)));
      ConfinedJoin(before, View(), SetEntry(View(), t.value, v % ENTRIES, Pte(f, WithP(perm))), pd);
      hide Sound, LeavesSound;
      tables := tables[t.value := tables[t.value][v % ENTRIES := Pte(f, WithP(perm))]];
      r := Mapped;
    }

    /** mappages_perm: `n` pages from `v` on, to frames from `f` on. `m` of them are mapped when
        it returns, and nothing else changed. */
    method MapPages(pd: nat, v: nat, n: nat, f: nat, perm: nat) returns (r: MapResult, m: nat)
      requires Wf(View()) && pd in dirs && v + n <= LIMIT && n > 0
               && (forall g :: f <= g < f + n ==> UsedFrame(View(), g))
      modifies this`free, this`tables
      ensures Wf(View()) && m <= n && Pool(View()) == Pool(old(View())) && pd in old(tables) && pd in tables
      ensures Tabled(old(View()), View(), pd, v, v + m) && FramesSpent(old(View()), View(), pd, {})
      ensures forall q, w :: q in dirs && 0 <= w < LIMIT ==>
                Lookup(View(), q, w) ==
                if q == pd && v <= w < v + m then Pte(f + (w - v), WithP(perm)) else Lookup(old(View()), q, w)
      ensures r == Mapped <==> m == n
      ensures r == Remap ==> m < n && Present(Lookup(old(View()), pd, v + m))
      ensures r == NoMemory ==> m < n && free == [] && !Present(tables[pd][(v + m) / ENTRIES])
      ensures Confined(old(View()), View(), pd) && (old(Rooted(View())) ==> Rooted(View()))
    {
      hide Sound, LeavesSound, Lookup, Pool, Tabled, FramesSpent, FreeSet, UsedFrame, SlotFilled, Confined, Rooted;
      ghost var vm0 := View();
      m, r := 0, Mapped;
      NoTablesYet(vm0, pd, v);
      SameTablesConfined(vm0, vm0, pd);
      while m < n
        invariant Wf(View()) && m <= n && r == Mapped && dirs == vm0.dirs && Pool(View()) == Pool(vm0)
                  && FreeSet(View()) <= FreeSet(vm0)
        invariant pd in tables && Tabled(vm0, View(), pd, v, v + m) && Confined(vm0, View(), pd)
        invariant forall q, w :: q in dirs && 0 <= w < LIMIT ==>
                    Lookup(View(), q, w) ==
                    if q == pd && v <= w < v + m then Pte(f + (w - v), WithP(perm)) else Lookup(vm0, q, w)
      {
        StillUsed(vm0, View(), f + m);
        ghost var vm := View();
        assert Lookup(vm, pd, v + m) == Lookup(vm0, pd, v + m);
        r := MapPage(pd, v + m, f + m, perm);
        ConfinedJoin(vm0, vm, View(), pd);
        if r != Mapped { break; }
        DirectoryIsTable(View(), pd);
        TabledStep(vm0, vm, View(), pd, v, v + m, 0);
        m := m + 1;
      }
      TabledFrames(vm0, View(), pd, v, v + m);
      if Rooted(vm0) { StaysRooted(vm0, View(), pd); }
    }

    /** The entry of page `v`, in table `t`: a mapped page is returned and unmapped. */
    method ClearEntry(pd: nat, v: nat, t: nat)
      requires Wf(View()) && pd in dirs && v < LIMIT && HasTable(View(), pd, v / ENTRIES)
               && t == TableOf(View(), pd, v / ENTRIES)
      requires Present(Lookup(View(), pd, v)) ==> Sole(View(), pd, v)
      modifies this`free, this`tables
      ensures View() == Clear(old(View()), pd, v)
    {
      var e := tables[t][v % ENTRIES];
      if Present(e) {
        free := [e.frame] + free;
        tables := tables[t := tables[t][v % ENTRIES := NONE]];
      }
    }

    /** deallocuvm; page numbers stay below LIMIT. */
    method DeallocUvm(pd: nat, oldsz: nat, newsz: nat) returns (r: nat)
      requires Wf(View()) && pd in dirs && PageUp(oldsz) <= LIMIT && Private(View(), pd, PageUp(newsz), PageUp(oldsz))
      modifies this`free, this`tables
      ensures Wf(View()) && r == if newsz >= oldsz then oldsz else newsz
      ensures newsz >= oldsz ==> View() == old(View())
      ensures newsz < oldsz ==> Shrinking(old(View()), View(), pd, PageUp(newsz), PageUp(oldsz), PageUp(oldsz))
      ensures Confined(old(View()), View(), pd) && (old(Rooted(View())) ==> Rooted(View()))
    {
      hide Sound, LeavesSound, Shrinking, Private, Visits, PageUp, Lookup, HasTable, Pool, FreeSet, Confined, Rooted;
      ghost var vm0, lo, hi := View(), PageUp(newsz), PageUp(oldsz);
      DirectoryIsTable(vm0, pd);
      SameTablesConfined(vm0, vm0, pd);
      if newsz >= oldsz { return oldsz; }
      var v := PageUp(newsz);
      ShrinkStart(vm0, pd, lo, hi);
      while v * PGSIZE < oldsz
        invariant lo <= v && Wf(View()) && Shrinking(vm0, View(), pd, lo, hi, v) && Confined(vm0, View(), pd)
        invariant forall w :: v <= w < LIMIT ==> (Visits(vm0, pd, lo, hi, w) <==> Visits(vm0, pd, v, hi, w))
        decreases oldsz - v * PGSIZE
      {
        PageBelow(v, oldsz);
        var t := Walk(pd, v, false);
        if t.None? {
          SkipStep(vm0, View(), pd, lo, hi, v);
          v := v + (ENTRIES - 1);
        } else {
          ClearStep(vm0, View(), pd, lo, hi, v);
          ghost var vm := View();
          ClearEntry(pd, v, t.value);
          ClearConfined(vm, pd, v);
          ConfinedJoin(vm0, vm, View(), pd);
        }
        v := v + 1;
      }
      PageBelow(v, oldsz);
      ShrinkEnd(vm0, View(), pd, lo, hi, v);
      if Rooted(vm0) { StaysRooted(vm0, View(), pd); }
      r := newsz;
    }

    /** kpage_alloc, and the frame filled with `page` */
    method FilledFrame(page: Page) returns (f: Option<nat>)
      requires Wf(View())
      modifies this`free, this`data
      ensures Wf(View()) && SameMaps(old(View()), View())
      ensures f.None? ==> old(free) == [] && View() == old(View())
      ensures f.Some? ==> |free| == |old(free)| - 1 && Loose(View(), f.value) && f.value in FreeSet(old(View()))
                          && FreeSet(View()) == FreeSet(old(View())) - {f.value}
      ensures f.Some? ==> f.value in old(data) && data == old(data)[f.value := page]
    {
      SameTables(View(), View());
      f := PageAlloc();
      if f.None? { return; }
      DataKeeps(View(), f.value, page);
      hide Sound, LeavesSound, Lookup;
      data := data[f.value := page];
    }

    /** A page of memory with contents `page` becomes page `v` of `pd`: kpage_alloc, filling,
        mappages. */
    method Back(pd: nat, v: nat, page: Page, perm: nat) returns (r: Backing)
      requires Wf(View()) && pd in dirs && v < LIMIT && !Present(Lookup(View(), pd, v))
      modifies this`free, this`tables, this`data
      ensures Wf(View())
      ensures r == NoFrame ==> free == [] && View() == old(View())
      ensures r.NoTable? ==> |old(free)| == 1 && !Present(old(tables)[pd][v / ENTRIES]) && tables == old(tables)
      ensures r.NoTable? ==> Loose(View(), r.f) && r.f in FreeSet(old(View()))
                             && FreeSet(View()) == FreeSet(old(View())) - {r.f}
      ensures r.NoTable? ==> data == old(data)[r.f := page]
      ensures r.Backed? ==> OneMapped(old(View()), View(), pd, v, Pte(r.f, WithP(perm)))
      ensures r.Backed? ==> r.f in FreeSet(old(View())) && FreeSet(View()) <= FreeSet(old(View()))
                            && Pool(View()) + {r.f} == Pool(old(View()))
      ensures r.Backed? ==> r.f in old(data) && data == old(data)[r.f := page]
      ensures r.Backed? ==> SlotFilled(old(View()), View(), pd, v / ENTRIES, 1)
      ensures Confined(old(View()), View(), pd)
    {
      hide Confined, Sound, LeavesSound, Lookup;
      ghost var vm0 := View();
      DirectoryIsTable(vm0, pd);
      SameTablesConfined(vm0, vm0, pd);
      var mem := FilledFrame(page);
      if mem.None? { return NoFrame; }
      var f := mem.value;
      ghost var vm2 := View();
      SameTablesConfined(vm0, vm2, pd);
      var m := MapPage(pd, v, f, perm);
      ConfinedJoin(vm0, vm2, View(), pd);
      if m == NoMemory { return NoTable(f); }
      r := Backed(f);
    }

    /** One round of the loops of allocuvm and copyuvm. */
    method GrowOne(pd: nat, v: nat, page: Page, perm: nat, ghost vm0: Vm, ghost lo: nat, ghost want: Wanted)
      returns (b: Backing)
      requires Wf(vm0) && Wf(View()) && pd in dirs && v < LIMIT && Growing(vm0, View(), pd, lo, want, v)
               && Spent(vm0, View(), pd, lo, v)
      requires Lookup(vm0, pd, v) == NONE && v - lo < |want| && want[v - lo] == (perm, page) && perm % 2 == 1
      modifies this`free, this`tables, this`data
      ensures Wf(View()) && pd in tables && dirs == vm0.dirs
      ensures b.Backed? ==> Growing(vm0, View(), pd, lo, want, v + 1) && Spent(vm0, View(), pd, lo, v + 1)
      ensures !b.Backed? ==> Failed(vm0, View(), pd, lo, want, v, b)
      ensures !b.Backed? ==> |vm0.free| < Need(vm0, pd, lo, v + 1)
      ensures Confined(old(View()), View(), pd)
    {
      hide Sound, LeavesSound, Loose, Taken, Lookup, Tabled, Fresh, OneMapped, SlotFilled, NewTable, Pool, FreeSet;
      hide Confined;
      ghost var vm := View();
      assert Lookup(vm, pd, v) == Lookup(vm0, pd, v);
      DirectoryIsTable(vm0, pd);
      DirectoryIsTable(vm, pd);
      b := Back(pd, v, page, perm);
      DirectoryIsTable(View(), pd);
      SpentStep(vm0, vm, View(), pd, lo, v);
      match b
      case NoFrame =>
        assert Taken(vm, pd, lo, v) + {} == Taken(vm, pd, lo, v);
      case NoTable(f) =>
        FreeFrame(vm, f);
        StrayFrame(vm0, vm, View(), pd, lo, want, v, f);
        SameDirectory(vm0, vm, View(), pd, lo, v);
      case Backed(f) =>
        GrowStep(vm0, vm, View(), pd, lo, want, v, f);
    }

    /** allocuvm fails: what it mapped goes back, and so does a frame that it could not map. */
    method GiveUp(pd: nat, oldsz: nat, newsz: nat, b: Backing, ghost vm0: Vm, ghost want: Wanted, ghost v: nat)
      requires Wf(vm0) && Wf(View()) && pd in dirs && oldsz < newsz && v <= PageUp(newsz) <= LIMIT
      requires pd in vm0.dirs && Vacant(vm0, pd, PageUp(oldsz), PageUp(newsz))
               && Failed(vm0, View(), pd, PageUp(oldsz), want, v, b)
      modifies this`free, this`tables
      ensures Wf(View()) && Restored(vm0, View(), {})
      ensures pd in tables && Tabled(vm0, View(), pd, PageUp(oldsz), v) && FramesSpent(vm0, View(), pd, {})
      ensures Confined(old(View()), View(), pd)
    {
      hide Wf, Sound, LeavesSound, Loose, Tabled, FramesSpent, Restored, PageUp, Lookup, GrownMaps, GrownFrames, Vacant;
      hide Confined;
      UndoGrowth(pd, oldsz, newsz, vm0, want, v, Stray(b));
      ghost var vm := View();
      if b.NoTable? { FreeStray(b.f, vm0); }
      SameTablesConfined(vm, View(), pd);
      ConfinedJoin(old(View()), vm, View(), pd);
      SameDirectory(vm0, vm, View(), pd, PageUp(oldsz), v);
      RestoredFrames(vm0, View(), pd, PageUp(oldsz), v);
    }

    method FreeStray(f: nat, ghost vm0: Vm)
      requires Wf(vm0) && Wf(View()) && Restored(vm0, View(), {f}) && Loose(View(), f) && f in FreeSet(vm0)
      modifies this`free
      ensures Wf(View()) && Restored(vm0, View(), {}) && tables == old(tables)
    {
      ghost var vm := View();
      PageFree(f);
      hide Sound, LeavesSound, Loose;
      assert Pool(View()) + {} == Pool(vm) + {f};
    }

    /** The call of deallocuvm with which allocuvm undoes what it did. */
    method UndoGrowth(pd: nat, oldsz: nat, newsz: nat, ghost vm0: Vm, ghost want: Wanted, ghost v: nat,
                      ghost extra: set<nat>)
      requires Wf(vm0) && Wf(View()) && pd in dirs && oldsz < newsz && v <= PageUp(newsz) <= LIMIT
      requires pd in vm0.dirs && Vacant(vm0, pd, PageUp(oldsz), PageUp(newsz))
               && GrownMaps(vm0, View(), pd, PageUp(oldsz), want, v)
      requires GrownFrames(vm0, View(), Taken(View(), pd, PageUp(oldsz), v) + extra)
      requires pd in vm0.tables && pd in tables && Tabled(vm0, View(), pd, PageUp(oldsz), v)
      modifies this`free, this`tables
      ensures Wf(View()) && Restored(vm0, View(), extra) && pd in tables && Tabled(vm0, View(), pd, PageUp(oldsz), v)
      ensures forall f :: f in extra && old(Loose(View(), f)) ==> Loose(View(), f)
      ensures Confined(old(View()), View(), pd)
    {
      ghost var vm, lo, hi := View(), PageUp(oldsz), PageUp(newsz);
      FreshPrivate(vm0, vm, pd, lo, want, v, hi);
      hide Sound, LeavesSound, Private, Contiguous, GrownMaps, GrownFrames, Restored, Confined, Rooted;
      var _ := DeallocUvm(pd, newsz, oldsz);
      UndoAll(vm0, vm, View(), pd, lo, want, v, hi, extra);
      SameDirectory(vm0, vm, View(), pd, lo, v);
      forall f | f in extra && Loose(vm, f) ensures Loose(View(), f) { StaysLoose(vm, View(), pd, lo, hi, f); }
    }

    /** The loop of allocuvm. `stop` is the page for which no frame was left, or the end. */
    method Grow(pd: nat, oldsz: nat, newsz: nat) returns (r: nat, ghost stop: nat)
      requires Wf(View()) && pd in dirs && oldsz <= newsz && PageUp(newsz) <= LIMIT
               && Vacant(View(), pd, PageUp(oldsz), PageUp(newsz))
      modifies this`free, this`tables, this`data
      ensures Wf(View()) && pd in old(tables) && pd in tables && PageUp(oldsz) <= stop <= PageUp(newsz)
      ensures Need(old(View()), pd, PageUp(oldsz), stop) <= |old(free)|
      ensures stop < PageUp(newsz) ==> |old(free)| < Need(old(View()), pd, PageUp(oldsz), stop + 1)
      ensures Tabled(old(View()), View(), pd, PageUp(oldsz), stop)
      ensures if stop == PageUp(newsz)
              then r == newsz && Enlarged(old(View()), View(), pd, PageUp(oldsz), stop)
              else r == 0 && Restored(old(View()), View(), {}) && FramesSpent(old(View()), View(), pd, {})
      ensures Confined(old(View()), View(), pd)
    {
      hide Wf, Sound, LeavesSound, Growing, Failed, Spent, Tabled, Need, Restored, FramesSpent, PageUp, Lookup;
      hide Confined;
      ghost var vm0, lo, hi := View(), PageUp(oldsz), PageUp(newsz);
      PageUpGrows(oldsz, newsz);
      ghost var want := Zeroed(hi - lo);
      var v := PageUp(oldsz);
      GrowStart(vm0, pd, lo, want);
      SameTablesConfined(vm0, vm0, pd);
      while v * PGSIZE < newsz
        invariant lo <= v <= hi && Wf(View()) && Growing(vm0, View(), pd, lo, want, v) && Confined(vm0, View(), pd)
        invariant pd in tables && Spent(vm0, View(), pd, lo, v)
        decreases hi - v
      {
        PageBelow(v, newsz);
        ghost var vm := View();
        var b := GrowOne(pd, v, ZeroPage(), PWU, vm0, lo, want);
        ConfinedJoin(vm0, vm, View(), pd);
        if !b.Backed? {
          EnoughSpent(vm0, vm, pd, lo, v);
          vm := View();
          GiveUp(pd, oldsz, newsz, b, vm0, want, v);
          ConfinedJoin(vm0, vm, View(), pd);
          return 0, v;
        }
        v := v + 1;
      }
      PageBelow(v, newsz);
      EnoughSpent(vm0, View(), pd, lo, hi);
      GrownSpends(vm0, View(), pd, lo, want, hi);
      ZeroedForWriting(vm0, View(), pd, lo, hi, hi - lo);
      r, stop := newsz, hi;
    }

    /** allocuvm; page numbers stay below LIMIT. It succeeds exactly when the free list covers
        the pages and the tables that are missing; otherwise it puts everything back but the
        tables of the pages up to `stop`, where memory ran out. */
    method AllocUvm(pd: nat, oldsz: nat, newsz: nat) returns (r: nat, ghost stop: nat)
      requires Wf(View()) && pd in dirs
      requires newsz < KERNBASE ==> PageUp(newsz) <= LIMIT && Vacant(View(), pd, PageUp(oldsz), PageUp(newsz))
      modifies this`free, this`tables, this`data
      ensures Wf(View()) && pd in old(tables) && pd in tables
      ensures newsz >= KERNBASE ==> r == 0 && View() == old(View())
      ensures newsz < KERNBASE && newsz < oldsz ==> r == oldsz && View() == old(View())
      ensures oldsz <= newsz < KERNBASE && |old(free)| >= Need(old(View()), pd, PageUp(oldsz), PageUp(newsz)) ==>
                r == newsz && Enlarged(old(View()), View(), pd, PageUp(oldsz), PageUp(newsz))
      ensures oldsz <= newsz < KERNBASE && |old(free)| < Need(old(View()), pd, PageUp(oldsz), PageUp(newsz)) ==>
                && r == 0 && Restored(old(View()), View(), {}) && FramesSpent(old(View()), View(), pd, {})
                && PageUp(oldsz) <= stop < PageUp(newsz) && Tabled(old(View()), View(), pd, PageUp(oldsz), stop)
                && Need(old(View()), pd, PageUp(oldsz), stop) <= |old(free)|
                && |old(free)| < Need(old(View()), pd, PageUp(oldsz), stop + 1)
      ensures Confined(old(View()), View(), pd) && (old(Rooted(View())) ==> Rooted(View()))
    {
      hide Wf, Sound, LeavesSound, Enlarged, Tabled, FramesSpent, Need, Restored, PageUp, Lookup, Vacant;
      hide Confined, Rooted;
      DirectoryIsTable(View(), pd);
      SameTablesConfined(View(), View(), pd);
      stop := 0;
      if newsz >= KERNBASE { return 0, 0; }
      if newsz < oldsz { return oldsz, 0; }
      ghost var vm0, lo, hi := View(), PageUp(oldsz), PageUp(newsz);
      r, stop := Grow(pd, oldsz, newsz);
      if stop < hi { NeedGrows(vm0, pd, lo, stop + 1, hi); }
      if Rooted(vm0) { StillRooted(vm0, View(), pd); }
    }

    /** One round of the loop of freevm: the table in slot `i`, if there is one. */
    method FreeSlot(d: nat, i: nat, ghost vm1: Vm, ghost e: Table)
      requires Wf(vm1) && Wf(View()) && i < USER && Freeing(vm1, View(), d, e, i)
      modifies this`free, this`tables
      ensures Wf(View()) && Freeing(vm1, View(), d, e, i + 1)
    {
      hide Wf, Sound, LeavesSound, Lookup, Freeing;
      FreeingStep(vm1, View(), d, e, i);
      FreeingDir(vm1, View(), d, e, i);
      if Present(tables[d][i]) {
        var t := tables[d][i].frame;
        free := [t] + free;
        tables := tables - {t};
      }
    }

    /** freevm, once the pages are gone: the tables and the directory are returned. */
    method FreeTables(d: nat)
      requires Wf(View()) && d in dirs
      modifies this
      ensures Wf(View()) && dirs == old(dirs) - {d} && OtherMaps(old(View()), View(), d) && data == old(data)
      ensures d in old(tables) && FreeSet(View()) == FreeSet(old(View())) + TablesOf(old(View()), d) + {d}
      ensures old(Rooted(View())) ==> Rooted(View())
    {
      hide Wf, Sound, LeavesSound, Lookup, Freeing, OtherMaps, Rooted, TablesOf, FreeSet;
      ghost var vm1 := View();
      FreeingStart(vm1, d);
      ghost var e := tables[d];
      dirs := dirs - {d};
      for i := 0 to USER
        invariant Wf(View()) && Freeing(vm1, View(), d, e, i)
      {
        FreeSlot(d, i, vm1, e);
      }
      FreeingEnd(vm1, View(), d, e);
      free := [d] + free;
      tables := tables - {d};
    }

    /** setupkvm, which does not check that it gets its three frames. */
    method SetupKvm() returns (pd: nat)
      requires Wf(View()) && |free| >= 3
      modifies this
      ensures Wf(View()) && View() == NewSpace(old(View())) && pd == old(free)[2]
      ensures pd in dirs && Linked(View(), pd) && Reachable(View(), pd) && (old(Rooted(View())) ==> Rooted(View()))
    {
      NewSpaceKeeps(View());
      NewSpaceLinked(View());
      LinkedReachable(NewSpace(View()), View().free[2]);
      hide Sound, LeavesSound, Linked, Reachable, Rooted;
      var pml4, pdpt := free[0], free[1];
      pd := free[2];
      free := free[3..];
      tables := tables[pml4 := EmptyTable()[0 := Pte(pdpt, PWU)][511 := Pte(kpdpt, PWU)]];
      tables := tables[pdpt := EmptyTable()[0 := Pte(pd, PWU)]];
      tables := tables[pd := NewDirectory(pml4, pdpt)];
      dirs := dirs + {pd};
    }

    /** switchuvm: what it loads into cr3 gives the processor the space of `d`. */
    method SwitchUvm(d: nat) returns (cr3: nat)
      requires Wf(View()) && d in dirs && Rooted(View())
      ensures forall v :: 0 <= v < LIMIT ==> Translate(View(), 4, cr3, v) == AsEntry(Lookup(View(), d, v))
    {
      DirectoryIsTable(View(), d);
      cr3 := tables[d][511].frame;
      LinkedReachable(View(), d);
      hide Sound, LeavesSound;
    }

    /** walkpgdir without allocation, for a page that is mapped */
    method ReadEntry(pd: nat, v: nat) returns (e: Pte)
      requires Wf(View()) && pd in dirs && v < LIMIT && Present(Lookup(View(), pd, v))
      ensures e == Lookup(View(), pd, v)
    {
      assert HasTable(View(), pd, v / ENTRIES);
      e := tables[tables[pd][v / ENTRIES].frame][v % ENTRIES];
    }

    /** freevm */
    method FreeVm(d: nat)
      requires Wf(View()) && d in dirs && Private(View(), d, 0, PageUp(FREE_TOP))
      modifies this
      ensures Wf(View()) && dirs == old(dirs) - {d} && OtherMaps(old(View()), View(), d) && data == old(data)
              && d in old(tables)
      ensures FreeSet(View()) ==
              FreeSet(old(View())) + Dropped(old(View()), d, 0, PageUp(FREE_TOP), PageUp(FREE_TOP))
                + TablesOf(old(View()), d) + {d}
      ensures old(Rooted(View())) ==> Rooted(View())
    {
      hide Confined, Rooted;
      ghost var vm := View();
      assert PageUp(0) == 0;
      var _ := DeallocUvm(d, FREE_TOP, 0);
      ghost var vm1 := View();
      assert TablesOf(vm1, d) == TablesOf(vm, d);
      hide Private, PageUp, Dropped;
      FreeTables(d);
    }

    /** copyuvm fails: the copy is taken apart. Its two upper tables are not returned, nor are
        the pages from where freevm stops. */
    method Discard(d: nat, b: Backing, ghost vm: Vm, ghost want: Wanted, ghost v: nat) returns (ghost lost: set<nat>)
      requires Wf(vm) && |vm.free| >= 3 && Wf(NewSpace(vm)) && Wf(View()) && d == vm.free[2]
      requires Failed(NewSpace(vm), View(), d, 0, want, v, b)
      modifies this
      ensures Wf(View()) && Discarded(vm, View()) && FreeSet(View()) == FreeSet(vm) - {vm.free[0], vm.free[1]} - lost
      ensures lost <= FreeSet(vm) - {vm.free[0], vm.free[1]} && |lost| == v - Min(v, PageUp(FREE_TOP))
      ensures old(Rooted(View())) ==> Rooted(View())
    {
      hide Sound, LeavesSound, Lookup, Private, Contiguous, Failed, GrownMaps, TablesAdded, TablesOf, Taken, Dropped,
           Pool, PageUp, Loose, Vacant, Confined, Rooted;
      ghost var vm0, vm2 := NewSpace(vm), View();
      FailedFrame(vm0, vm2, d, want, v, b);
      DirectoryIsTable(vm2, d);
      if b.NoTable? { PageFree(b.f); }
      SameTablesConfined(vm2, View(), d);
      if Rooted(vm2) { StillRooted(vm2, View(), d); }
      ghost var vm3, hi := View(), PageUp(FREE_TOP);
      assert hi <= LIMIT by { PageBelow(LIMIT, FREE_TOP); }
      StrayBack(vm0, vm2, vm3, d, want, v, b);
      NewSpaceKeeps(vm);
      NewSpaceSound(vm);
      FreshPrivateAll(vm0, vm3, d, want, v, hi);
      lost := DiscardFrames(vm, vm3, d, want, v, hi);
      FreeVm(d);
      DiscardedMaps(vm, vm3, View(), d, want, v);
    }

    /** copyuvm. It succeeds exactly when the free list covers the upper tables, the directory,
        the pages and the page tables. A failing copy loses its two upper tables, and every page
        it copied from 0x1da00000 on: none exactly if memory ran out before the first of them. */
    method CopyUvm(pd: nat, sz: nat) returns (r: Option<nat>, ghost lost: set<nat>)
      requires Wf(View()) && pd in dirs && PageUp(sz) <= LIMIT && Resident(View(), pd, PageUp(sz)) && |free| >= 3
      modifies this
      ensures Wf(View()) && Wf(NewSpace(old(View())))
      ensures r.Some? <==> |old(free)| >= 3 + NewNeed(PageUp(sz))
      ensures r.Some? ==> r.value == old(free)[2]
      ensures r.Some? ==>
                Growing(NewSpace(old(View())), View(), old(free)[2], 0, Pages(old(View()), pd, PageUp(sz)), PageUp(sz))
      ensures r.Some? ==> CopySpends(old(View()), View(), PageUp(sz))
      ensures r.None? ==> Discarded(old(View()), View())
      ensures r.None? ==> FreeSet(View()) == FreeSet(old(View())) - {old(free)[0], old(free)[1]} - lost
      ensures r.None? ==> lost <= FreeSet(old(View())) - {old(free)[0], old(free)[1]}
      ensures r.None? ==> |lost| == CopiedPages(|old(free)| - 3) - Min(CopiedPages(|old(free)| - 3), PageUp(FREE_TOP))
      ensures r.None? ==> (lost == {} <==> |old(free)| < 3 + NewNeed(PageUp(FREE_TOP) + 1))
      ensures r.Some? ==> r.value in dirs && Reachable(View(), r.value)
      ensures old(Rooted(View())) ==> Rooted(View())
    {
      hide Sound, LeavesSound, Growing, Failed, Spent, Need, PageUp, Lookup, Pages, Resident, Discarded;
      hide Confined, Rooted, Linked, Reachable, NewSpace;
      ghost var vm, n := View(), PageUp(sz);
      ghost var want := Pages(vm, pd, n);
      NewSpaceKeeps(vm);
      NewNeeds(vm, n);
      lost := {};
      var d := SetupKvm();
      ghost var vm0 := View();
      GrowStart(vm0, d, 0, want);
      SameTablesConfined(vm0, vm0, d);
      var v := 0;
      while v * PGSIZE < sz
        invariant 0 <= v <= n && Wf(View()) && dirs == vm0.dirs && Growing(vm0, View(), d, 0, want, v)
        invariant Confined(vm0, View(), d)
        invariant d in tables && Spent(vm0, View(), d, 0, v)
        decreases n - v
      {
        PageBelow(v, sz);
        OriginalKept(vm, View(), pd, n, want, v);
        var e := ReadEntry(pd, v);
        ghost var spent := View();
        var b := GrowOne(d, v, data[e.frame], e.flags, vm0, 0, want);
        NeedGrows(vm0, d, 0, v + 1, n);
        ConfinedJoin(vm0, spent, View(), d);
        if !b.Backed? {
          if Rooted(vm0) { StillRooted(vm0, View(), d); }
          EnoughSpent(vm0, spent, d, 0, v);
          NewNeeds(vm, v);
          NewNeeds(vm, v + 1);
          HowFar(|vm0.free|, v);
          lost := Discard(d, b, vm, want, v);
          return None, lost;
        }
        v := v + 1;
      }
      PageBelow(v, sz);
      EnoughSpent(vm0, View(), d, 0, n);
      CopySpent(vm, View(), want, n);
      StillLinked(vm0, View(), d);
      if Rooted(vm0) { StillRooted(vm0, View(), d); }
      r := Some(d);
    }
  }

  /** What became of a page wanted: a frame, no frame, or a frame but no table for it. */
  datatype Backing = Backed(f: nat) | NoFrame | NoTable(f: nat)
}
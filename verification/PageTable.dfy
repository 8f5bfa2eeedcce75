/** Two-level page tables (kernel/vm.c) over frames of physical memory, as a map from page
    numbers to entries. */
module PageTable {
  import opened Arithmetic

  const ENTRIES: nat := 512       // NPDENTRIES, NPTENTRIES
  const USER: nat := 510          // directory slots 510 and 511 hold back-pointers
  const LIMIT: nat := 261120      // USER * ENTRIES: user page numbers stay below
  const PGSIZE: nat := 4096

  /** PTE_P is bit 0 of the flags. */
  datatype Pte = Pte(frame: nat, flags: nat)

  const NONE: Pte := Pte(0, 0)
  const PWU: nat := 7             // PTE_P | PTE_W | PTE_U

  predicate Present(e: Pte) {
    e.flags % 2 == 1
  }

  /** perm | PTE_P */
  function WithP(flags: nat): (r: nat)
    ensures r % 2 == 1 && r / 2 == flags / 2 && (flags % 2 == 1 ==> r == flags)
  {
    if flags % 2 == 1 then flags else flags + 1
  }

  type Table = t: seq<Pte> | |t| == ENTRIES witness seq(ENTRIES, _ => NONE)
  type Page = p: seq<int> | |p| == PGSIZE witness seq(PGSIZE, _ => 0)

  function EmptyTable(): (t: Table)
    ensures forall i :: 0 <= i < ENTRIES ==> t[i] == NONE
  {
    seq(ENTRIES, _ => NONE)
  }

  function ZeroPage(): (p: Page)
    ensures forall i :: 0 <= i < PGSIZE ==> p[i] == 0
  {
    seq(PGSIZE, _ => 0)
  }

  /** `free` is kmem.freelist, `tables` the frames that hold tables, `dirs` those of them that
      are page directories, `data` the contents of the other frames of memory, and `kpdpt` the
      kernel's own upper table. */
  datatype Vm = Vm(free: seq<nat>, tables: map<nat, Table>, dirs: set<nat>, data: map<nat, Page>, kpdpt: nat)

  /** The directory slot and the table entry of page `v`: PDX and PTX keep nine bits each. */
  function SlotOf(v: nat): (nat, nat) {
    (v / ENTRIES % ENTRIES, v % ENTRIES)
  }

  /** Two pages share an entry exactly when they are a multiple of 1 GiB apart, so pages below
      LIMIT share none, and none of theirs is in a back-pointer slot. */
  lemma SlotsIff(v: nat, w: nat)
    ensures SlotOf(v) == SlotOf(w) <==> v % (ENTRIES * ENTRIES) == w % (ENTRIES * ENTRIES)
    ensures v < LIMIT <==> v < ENTRIES * ENTRIES && SlotOf(v).0 < USER
  {
    SplitPage(v);
    SplitPage(w);
  }

  lemma SplitPage(v: nat)
    ensures v % (ENTRIES * ENTRIES) == ENTRIES * SlotOf(v).0 + SlotOf(v).1
  {
    var a := v / ENTRIES;
    DivUnique(v, ENTRIES * ENTRIES, a / ENTRIES, ENTRIES * (a % ENTRIES) + v % ENTRIES);
  }

  // ----- what the tables mean ----------------------------------------------

  ghost predicate HasTable(vm: Vm, pd: nat, i: nat) {
    pd in vm.dirs && pd in vm.tables && i < USER && Present(vm.tables[pd][i])
  }

  function TableOf(vm: Vm, pd: nat, i: nat): nat
    requires pd in vm.tables && i < ENTRIES
  {
    vm.tables[pd][i].frame
  }

  /** The entry for page `v` of space `pd`. */
  function Lookup(vm: Vm, pd: nat, v: nat): Pte
    requires Sound(vm) && pd in vm.dirs && v < LIMIT
  {
    if Present(vm.tables[pd][v / ENTRIES]) then
      assert HasTable(vm, pd, v / ENTRIES); vm.tables[TableOf(vm, pd, v / ENTRIES)][v % ENTRIES]
    else NONE
  }

  /** Every table belongs to one slot of one directory, and none of them is free. */
  ghost predicate Sound(vm: Vm) {
    && (forall i, j :: 0 <= i < j < |vm.free| ==> vm.free[i] != vm.free[j])
    && (forall i :: 0 <= i < |vm.free| ==> vm.free[i] !in vm.tables && vm.free[i] in vm.data && vm.free[i] != 0)
    && (forall t :: t in vm.tables ==> t in vm.data && t != 0)
    && vm.dirs <= vm.tables.Keys
    && (forall pd, i :: HasTable(vm, pd, i) ==> TableOf(vm, pd, i) in vm.tables && TableOf(vm, pd, i) !in vm.dirs)
    && (forall pd, i, pd', i' ::
          HasTable(vm, pd, i) && HasTable(vm, pd', i') && TableOf(vm, pd, i) == TableOf(vm, pd', i') ==>
          pd == pd' && i == i')
  }

  /** No page is mapped to a free frame or to a table. */
  ghost predicate LeavesSound(vm: Vm)
    requires Sound(vm)
  {
    forall pd, v :: pd in vm.dirs && 0 <= v < LIMIT && Present(Lookup(vm, pd, v)) ==>
      UsedFrame(vm, Lookup(vm, pd, v).frame)
  }

  ghost predicate UsedFrame(vm: Vm, f: nat) {
    f != 0 && f !in vm.free && f !in vm.tables
  }

  ghost predicate Wf(vm: Vm) {
    Sound(vm) && LeavesSound(vm)
  }

  /** A table that no directory uses. */
  ghost predicate Orphan(vm: Vm, t: nat) {
    t in vm.tables && t !in vm.dirs && forall pd, i :: HasTable(vm, pd, i) ==> TableOf(vm, pd, i) != t
  }

  /** The tables of `pd`. */
  ghost function TablesOf(vm: Vm, pd: nat): set<nat>
    requires pd in vm.tables
  {
    set i | 0 <= i < USER && Present(vm.tables[pd][i]) :: vm.tables[pd][i].frame
  }

  // ----- single writes -----------------------------------------------------

  /** walkpgdir links a new, empty table, from the head of the free list. */
  function AddTable(vm: Vm, pd: nat, i: nat): Vm
    requires pd in vm.tables && i < ENTRIES && vm.free != []
  {
    var t := vm.free[0];
    vm.(free := vm.free[1..], tables := vm.tables[t := EmptyTable()][pd := vm.tables[pd][i := Pte(t, PWU)]])
  }

  function SetEntry(vm: Vm, t: nat, k: nat, e: Pte): Vm
    requires t in vm.tables && k < ENTRIES
  {
    vm.(tables := vm.tables[t := vm.tables[t][k := e]])
  }

  lemma AddTableSound(vm: Vm, pd: nat, i: nat)
    requires Sound(vm) && pd in vm.dirs && i < USER && !Present(vm.tables[pd][i]) && vm.free != []
    ensures Sound(AddTable(vm, pd, i))
  {
    var r, t := AddTable(vm, pd, i), vm.free[0];
    assert forall q: nat, j: nat :: HasTable(r, q, j) && (q, j) != (pd, i) ==>
             HasTable(vm, q, j) && TableOf(r, q, j) == TableOf(vm, q, j);
    forall q: nat, j: nat | HasTable(r, q, j)
      ensures TableOf(r, q, j) in r.tables && TableOf(r, q, j) !in r.dirs
    {
      if (q, j) != (pd, i) { assert HasTable(vm, q, j); }
    }
  }

  /** Adding a table changes no translation. */
  lemma AddTableLookup(vm: Vm, pd: nat, i: nat, q: nat, v: nat)
    requires Sound(vm) && pd in vm.dirs && i < USER && !Present(vm.tables[pd][i]) && vm.free != []
    requires q in vm.dirs && v < LIMIT
    ensures Sound(AddTable(vm, pd, i)) && Lookup(AddTable(vm, pd, i), q, v) == Lookup(vm, q, v)
  {
    AddTableSound(vm, pd, i);
    var r, j := AddTable(vm, pd, i), v / ENTRIES;
    if (q, j) != (pd, i) && Present(vm.tables[q][j]) {
      assert HasTable(vm, q, j);
    }
  }

  lemma SetEntrySound(vm: Vm, pd: nat, v: nat, e: Pte)
    requires Sound(vm) && pd in vm.dirs && v < LIMIT && Present(vm.tables[pd][v / ENTRIES])
    ensures HasTable(vm, pd, v / ENTRIES) && Sound(SetEntry(vm, TableOf(vm, pd, v / ENTRIES), v % ENTRIES, e))
  {
    assert HasTable(vm, pd, v / ENTRIES);
    var t := TableOf(vm, pd, v / ENTRIES);
    var r := SetEntry(vm, t, v % ENTRIES, e);
    assert forall q, j :: HasTable(r, q, j) <==> HasTable(vm, q, j);
    assert forall q, j :: HasTable(r, q, j) ==> TableOf(r, q, j) == TableOf(vm, q, j);
  }

  /** Writing one entry changes the translation of one page of one space only. */
  lemma SetEntryLookup(vm: Vm, pd: nat, v: nat, e: Pte, q: nat, w: nat)
    requires Sound(vm) && pd in vm.dirs && v < LIMIT && Present(vm.tables[pd][v / ENTRIES])
    requires q in vm.dirs && w < LIMIT
    ensures HasTable(vm, pd, v / ENTRIES)
    ensures var r := SetEntry(vm, TableOf(vm, pd, v / ENTRIES), v % ENTRIES, e);
      Sound(r) && Lookup(r, q, w) == if q == pd && w == v then e else Lookup(vm, q, w)
  {
    SetEntrySound(vm, pd, v, e);
    if Present(vm.tables[q][w / ENTRIES]) {
      assert HasTable(vm, q, w / ENTRIES);
    }
  }

  // ----- deallocuvm's walk -------------------------------------------------

  /** PGROUNDUP, in pages */
  function PageUp(bytes: nat): nat {
    (bytes + PGSIZE - 1) / PGSIZE
  }

  /** deallocuvm, going up from page `v` to `hi`, comes to page `w`: where there is no table it
      skips as many pages as a table has, wherever in the table it stands. */
  predicate Visits(vm: Vm, pd: nat, v: nat, hi: nat, w: nat)
    requires pd in vm.tables && hi <= LIMIT
    decreases hi - v
  {
    v < hi &&
    if Present(vm.tables[pd][v / ENTRIES]) then w == v || Visits(vm, pd, v + 1, hi, w)
    else Visits(vm, pd, v + ENTRIES, hi, w)
  }

  lemma {:induction false} VisitsAhead(vm: Vm, pd: nat, v: nat, hi: nat, w: nat)
    requires pd in vm.tables && hi <= LIMIT && Visits(vm, pd, v, hi, w)
    ensures v <= w < hi && Present(vm.tables[pd][w / ENTRIES])
    decreases hi - v
  {
    if Present(vm.tables[pd][v / ENTRIES]) {
      if w != v { VisitsAhead(vm, pd, v + 1, hi, w); }
    } else {
      VisitsAhead(vm, pd, v + ENTRIES, hi, w);
    }
  }

  /** No directory slot from that of `v` up to that of `w` has a table. */
  ghost predicate NoTables(vm: Vm, pd: nat, v: nat, w: nat)
    requires pd in vm.tables && w < LIMIT
  {
    forall i :: v / ENTRIES <= i < w / ENTRIES ==> !Present(vm.tables[pd][i])
  }

  /** Exactly which pages the skip misses: those with no table before them in the range,
      that stand closer to the start of their table than the range does to its own. */
  lemma {:induction false} VisitsIff(vm: Vm, pd: nat, v: nat, hi: nat, w: nat)
    requires pd in vm.tables && hi <= LIMIT && v <= w < hi && Present(vm.tables[pd][w / ENTRIES])
    ensures Visits(vm, pd, v, hi, w) <==> !(NoTables(vm, pd, v, w) && w % ENTRIES < v % ENTRIES)
    decreases hi - v
  {
    Places(v, w);
    if Present(vm.tables[pd][v / ENTRIES]) {
      if w > v { VisitsIff(vm, pd, v + 1, hi, w); }
    } else if v + ENTRIES <= w {
      VisitsIff(vm, pd, v + ENTRIES, hi, w);
    } else if Visits(vm, pd, v + ENTRIES, hi, w) {
      VisitsAhead(vm, pd, v + ENTRIES, hi, w);
    }
  }

  lemma Places(v: nat, w: nat)
    requires v <= w
    ensures v / ENTRIES <= w / ENTRIES && (v / ENTRIES == w / ENTRIES ==> v % ENTRIES <= w % ENTRIES)
    ensures (v + ENTRIES) / ENTRIES == v / ENTRIES + 1 && (v + ENTRIES) % ENTRIES == v % ENTRIES
    ensures if v % ENTRIES == ENTRIES - 1 then (v + 1) / ENTRIES == v / ENTRIES + 1 && (v + 1) % ENTRIES == 0
            else (v + 1) / ENTRIES == v / ENTRIES && (v + 1) % ENTRIES == v % ENTRIES + 1
    ensures v + ENTRIES <= w <==> v / ENTRIES + 1 < w / ENTRIES
                                  || (v / ENTRIES + 1 == w / ENTRIES && v % ENTRIES <= w % ENTRIES)
  {
  }

  /** Pages of `pd` from `lo` on are mapped up to some page `m`, and none from there to `hi`. */
  ghost predicate Contiguous(vm: Vm, pd: nat, lo: nat, m: nat, hi: nat)
    requires Sound(vm) && pd in vm.dirs && hi <= LIMIT
  {
    && lo <= m <= hi && (forall v :: lo <= v < m ==> Present(Lookup(vm, pd, v)))
    && (forall v :: m <= v < hi ==> !Present(Lookup(vm, pd, v)))
  }

  /** The walk misses no page of a contiguous range. */
  lemma ContiguousVisited(vm: Vm, pd: nat, lo: nat, m: nat, hi: nat, w: nat)
    requires Sound(vm) && pd in vm.dirs && hi <= LIMIT && Contiguous(vm, pd, lo, m, hi) && lo <= w < m
    ensures Visits(vm, pd, lo, hi, w)
  {
    assert Present(Lookup(vm, pd, lo)) && Present(Lookup(vm, pd, w));
    VisitsIff(vm, pd, lo, hi, w);
    Places(lo, w);
  }

  // ----- frames ------------------------------------------------------------

  function FreeSet(vm: Vm): set<nat> {
    set f | f in vm.free
  }

  /** The frames that are free or hold tables. */
  function Pool(vm: Vm): set<nat> {
    FreeSet(vm) + vm.tables.Keys
  }

  /** Spaces translate alike before and after. */
  ghost predicate SameMaps(a: Vm, b: Vm)
    requires Sound(a) && Sound(b) && a.dirs == b.dirs
  {
    forall q, w :: q in a.dirs && 0 <= w < LIMIT ==> Lookup(b, q, w) == Lookup(a, q, w)
  }

  /** Page `v` of `pd` now has entry `e`; nothing else changed. */
  ghost predicate OneMapped(a: Vm, b: Vm, pd: nat, v: nat, e: Pte)
    requires Sound(a) && Sound(b) && a.dirs == b.dirs && pd in a.dirs && v < LIMIT
  {
    forall q, w :: q in a.dirs && 0 <= w < LIMIT ==>
      Lookup(b, q, w) == if q == pd && w == v then e else Lookup(a, q, w)
  }

  lemma AddTableKeeps(vm: Vm, pd: nat, i: nat)
    requires Wf(vm) && pd in vm.dirs && i < USER && !Present(vm.tables[pd][i]) && vm.free != []
    ensures var r := AddTable(vm, pd, i); Wf(r) && SameMaps(vm, r) && Pool(r) == Pool(vm) && FreeSet(r) <= FreeSet(vm)
  {
    var r := AddTable(vm, pd, i);
    AddTableSound(vm, pd, i);
    forall q, w | q in vm.dirs && 0 <= w < LIMIT ensures Lookup(r, q, w) == Lookup(vm, q, w) {
      AddTableLookup(vm, pd, i, q, w);
    }
    assert vm.free == [vm.free[0]] + r.free;
    assert Pool(r) == Pool(vm);
  }

  lemma SetEntryKeeps(vm: Vm, pd: nat, v: nat, e: Pte)
    requires Wf(vm) && pd in vm.dirs && v < LIMIT && Present(vm.tables[pd][v / ENTRIES])
    requires Present(e) ==> UsedFrame(vm, e.frame)
    ensures HasTable(vm, pd, v / ENTRIES)
    ensures var r := SetEntry(vm, TableOf(vm, pd, v / ENTRIES), v % ENTRIES, e);
      Wf(r) && OneMapped(vm, r, pd, v, e) && r.tables.Keys == vm.tables.Keys && r.tables[pd] == vm.tables[pd]
  {
    SetEntrySound(vm, pd, v, e);
    var r := SetEntry(vm, TableOf(vm, pd, v / ENTRIES), v % ENTRIES, e);
    forall q, w | q in vm.dirs && 0 <= w < LIMIT
      ensures Lookup(r, q, w) == if q == pd && w == v then e else Lookup(vm, q, w)
    {
      SetEntryLookup(vm, pd, v, e, q, w);
    }
  }
}

/** Address spaces as the processor sees them: four levels of tables, from the one in cr3. The
    kernel itself knows two of them; setupkvm builds the other two, and keeps the way back to
    them in the top entries of the page directory. */
module FourLevels {
  import opened Arithmetic
  import opened PageTable

  // ----- the walk of the processor -----------------------------------------

  /** A page fault, or a frame and what may be done to it. */
  datatype Translation = Fault | To(frame: nat, write: bool, user: bool)

  predicate Writable(e: Pte) {
    e.flags / 2 % 2 == 1
  }

  predicate ForUsers(e: Pte) {
    e.flags / 4 % 2 == 1
  }

  /** The index of page `v` into the table at a level, 1 to 4: nine bits for each. */
  function IndexAt(level: nat, v: nat): (i: nat)
    ensures i < ENTRIES
  {
    if level <= 1 then v % ENTRIES else IndexAt(level - 1, v / ENTRIES)
  }

  /** From table `t` at a level down to the page. Every level must have the entry present, and
      grants what every level grants. */
  function Translate(vm: Vm, level: nat, t: nat, v: nat): (r: Translation)
    decreases level
  {
    if t !in vm.tables || !Present(vm.tables[t][IndexAt(level, v)]) then Fault
    else
      var e := vm.tables[t][IndexAt(level, v)];
      if level <= 1 then To(e.frame, Writable(e), ForUsers(e))
      else
        match Translate(vm, level - 1, e.frame, v)
        case Fault => Fault
        case To(f, w, u) => To(f, w && Writable(e), u && ForUsers(e))
  }

  /** What a page table entry alone says. */
  function AsEntry(e: Pte): Translation {
    if Present(e) then To(e.frame, Writable(e), ForUsers(e)) else Fault
  }

  // ----- spaces with all four levels ---------------------------------------

  /** The table that switchuvm loads into cr3. */
  function TopOf(vm: Vm, d: nat): nat
    requires d in vm.tables
  {
    vm.tables[d][511].frame
  }

  /** Directory `d` hangs from its two upper tables, which nothing else uses; the other half of
      the topmost one is the kernel's. */
  ghost predicate Linked(vm: Vm, d: nat) {
    && d in vm.tables
    && var top := TopOf(vm, d);
    && Orphan(vm, top) && vm.tables[top][511] == Pte(vm.kpdpt, PWU)
    && vm.tables[top][0].flags == PWU
    && var upper := vm.tables[top][0].frame;
    && Orphan(vm, upper) && vm.tables[upper][0] == Pte(d, PWU)
    && forall i :: 0 <= i < USER && Present(vm.tables[d][i]) ==> vm.tables[d][i].flags == PWU
  }

  ghost predicate Rooted(vm: Vm) {
    forall d :: d in vm.dirs ==> Linked(vm, d)
  }

  /** The indices of a user page. */
  lemma UserIndices(v: nat)
    requires v < LIMIT
    ensures IndexAt(4, v) == 0 && IndexAt(3, v) == 0 && IndexAt(2, v) == v / ENTRIES && IndexAt(1, v) == v % ENTRIES
  {
    var a := v / ENTRIES;
    DivUnique(a, ENTRIES, 0, a);
    assert IndexAt(2, v) == IndexAt(1, a) == a % ENTRIES;
    assert IndexAt(3, v) == IndexAt(2, a) == IndexAt(1, a / ENTRIES);
    assert IndexAt(4, v) == IndexAt(3, a) == IndexAt(2, a / ENTRIES) == IndexAt(1, a / ENTRIES / ENTRIES);
  }

  /** The processor translates every user page as its page table entry says, permissions
      included: the upper levels take nothing away. */
  lemma ProcessorAgrees(vm: Vm, d: nat, v: nat)
    requires Sound(vm) && d in vm.dirs && Linked(vm, d) && v < LIMIT
    ensures Translate(vm, 4, TopOf(vm, d), v) == AsEntry(Lookup(vm, d, v))
  {
    UserIndices(v);
    var top := TopOf(vm, d);
    var upper := vm.tables[top][0].frame;
    if Present(vm.tables[d][v / ENTRIES]) { assert HasTable(vm, d, v / ENTRIES); }
    hide Sound, Lookup, IndexAt;
    assert Translate(vm, 2, d, v) == AsEntry(Lookup(vm, d, v)) by { TwoLevels(vm, d, v); }
    assert Translate(vm, 3, upper, v) == Translate(vm, 2, d, v);
  }

  /** The processor finds every user page of `d`, as its page table entry says. */
  ghost predicate Reachable(vm: Vm, d: nat)
    requires Sound(vm) && d in vm.dirs
  {
    forall v :: 0 <= v < LIMIT ==> Translate(vm, 4, TopOf(vm, d), v) == AsEntry(Lookup(vm, d, v))
  }

  lemma LinkedReachable(vm: Vm, d: nat)
    requires Sound(vm) && d in vm.dirs && Linked(vm, d)
    ensures Reachable(vm, d)
  {
    forall v | 0 <= v < LIMIT ensures Translate(vm, 4, TopOf(vm, d), v) == AsEntry(Lookup(vm, d, v)) {
      ProcessorAgrees(vm, d, v);
    }
  }

  /** The two levels that the kernel knows. */
  lemma TwoLevels(vm: Vm, d: nat, v: nat)
    requires Sound(vm) && d in vm.dirs && Linked(vm, d) && v < LIMIT
    ensures Translate(vm, 2, d, v) == AsEntry(Lookup(vm, d, v))
  {
    UserIndices(v);
    if Present(vm.tables[d][v / ENTRIES]) { assert HasTable(vm, d, v / ENTRIES); }
    hide IndexAt;
  }

  /** The kernel's half of memory is the same in every space. */
  lemma SharedKernel(vm: Vm, d: nat, q: nat, v: nat)
    requires Rooted(vm) && d in vm.dirs && q in vm.dirs && IndexAt(4, v) == 511
    ensures d in vm.tables && q in vm.tables && Translate(vm, 4, TopOf(vm, d), v) == Translate(vm, 4, TopOf(vm, q), v)
  {
    assert Linked(vm, d) && Linked(vm, q);
  }

  // ----- what keeps the upper levels ---------------------------------------

  /** From `a` to `b` only directory `pd` and its tables have changed: it has got tables, new
      ones, and lost none. */
  ghost predicate Confined(a: Vm, b: Vm, pd: nat) {
    && b.dirs == a.dirs && b.kpdpt == a.kpdpt && pd in a.tables && a.tables.Keys <= b.tables.Keys
    && (forall t :: t in a.tables && t != pd && t !in TablesOf(b, pd) ==> b.tables[t] == a.tables[t])
    && (forall i :: USER <= i < ENTRIES ==> b.tables[pd][i] == a.tables[pd][i])
    && (forall i :: 0 <= i < USER ==> SlotKept(a, b, pd, i))
  }

  ghost predicate SlotKept(a: Vm, b: Vm, pd: nat, i: nat)
    requires pd in a.tables && pd in b.tables && i < ENTRIES
  {
    if Present(a.tables[pd][i]) then b.tables[pd][i] == a.tables[pd][i]
    else Present(b.tables[pd][i]) ==> b.tables[pd][i].flags == PWU && b.tables[pd][i].frame !in a.tables
  }

  lemma SameTablesConfined(a: Vm, b: Vm, pd: nat)
    requires b.dirs == a.dirs && b.kpdpt == a.kpdpt && pd in a.tables && b.tables == a.tables
    ensures Confined(a, b, pd)
  {
    forall i | 0 <= i < USER ensures SlotKept(a, b, pd, i) { }
  }

  lemma ConfinedJoin(a: Vm, b: Vm, c: Vm, pd: nat)
    requires Confined(a, b, pd) && Confined(b, c, pd)
    ensures Confined(a, c, pd)
  {
    forall i | 0 <= i < USER
      ensures SlotKept(a, c, pd, i) && (Present(b.tables[pd][i]) ==> c.tables[pd][i] == b.tables[pd][i])
    {
      assert SlotKept(a, b, pd, i) && SlotKept(b, c, pd, i);
    }
    assert TablesOf(b, pd) <= TablesOf(c, pd);
  }

  /** A table that no directory uses stays as it is. */
  lemma OrphanStays(a: Vm, b: Vm, pd: nat, t: nat)
    requires Sound(a) && Sound(b) && pd in a.dirs && Confined(a, b, pd) && Orphan(a, t)
    ensures Orphan(b, t) && b.tables[t] == a.tables[t]
  {
    forall q: nat, i: nat | HasTable(b, q, i) ensures TableOf(b, q, i) != t {
      if q == pd {
        assert SlotKept(a, b, pd, i);
        if Present(a.tables[pd][i]) { assert HasTable(a, pd, i); }
      } else {
        DirectoryStays(a, b, pd, q);
        assert HasTable(a, q, i);
      }
    }
    if t in TablesOf(b, pd) {
      var i :| 0 <= i < USER && Present(b.tables[pd][i]) && b.tables[pd][i].frame == t;
      assert HasTable(b, pd, i);
    }
  }

  lemma DirectoryStays(a: Vm, b: Vm, pd: nat, q: nat)
    requires Sound(a) && Sound(b) && pd in a.dirs && Confined(a, b, pd) && q in a.dirs && q != pd
    ensures q in a.tables && q in b.tables && b.tables[q] == a.tables[q]
  {
    if q in TablesOf(b, pd) {
      var i :| 0 <= i < USER && Present(b.tables[pd][i]) && b.tables[pd][i].frame == q;
      assert HasTable(b, pd, i);
    }
  }

  lemma StaysLinked(a: Vm, b: Vm, pd: nat, d: nat)
    requires Sound(a) && Sound(b) && pd in a.dirs && Confined(a, b, pd) && d in a.dirs && Linked(a, d)
    ensures Linked(b, d)
  {
    if d != pd { DirectoryStays(a, b, pd, d); }
    OrphanStays(a, b, pd, TopOf(a, d));
    OrphanStays(a, b, pd, a.tables[TopOf(a, d)][0].frame);
    forall i | 0 <= i < USER && Present(b.tables[d][i]) ensures b.tables[d][i].flags == PWU {
      if d == pd { assert SlotKept(a, b, pd, i); }
    }
    hide Sound, Confined, Orphan;
  }

  /** Work on one space keeps the upper levels of all. */
  lemma StaysRooted(a: Vm, b: Vm, pd: nat)
    requires Sound(a) && Sound(b) && pd in a.dirs && Confined(a, b, pd) && Rooted(a)
    ensures Rooted(b)
  {
    forall d | d in b.dirs ensures Linked(b, d) {
      StaysLinked(a, b, pd, d);
    }
  }

  lemma AddTableConfined(vm: Vm, pd: nat, i: nat)
    requires Sound(vm) && pd in vm.dirs && i < USER && !Present(vm.tables[pd][i]) && vm.free != []
    ensures Confined(vm, AddTable(vm, pd, i), pd)
  {
    var r := AddTable(vm, pd, i);
    forall j | 0 <= j < USER ensures SlotKept(vm, r, pd, j) { }
  }

  lemma SetEntryConfined(vm: Vm, pd: nat, i: nat, k: nat, e: Pte)
    requires Sound(vm) && HasTable(vm, pd, i) && k < ENTRIES
    ensures TableOf(vm, pd, i) in vm.tables && Confined(vm, SetEntry(vm, TableOf(vm, pd, i), k, e), pd)
  {
    var r := SetEntry(vm, TableOf(vm, pd, i), k, e);
    assert TableOf(vm, pd, i) in TablesOf(r, pd);
    forall j | 0 <= j < USER ensures SlotKept(vm, r, pd, j) { }
  }

  /** Without space `d`, its directory and its tables, the others keep their upper levels. */
  lemma OthersRooted(a: Vm, b: Vm, d: nat)
    requires Sound(a) && Sound(b) && d in a.dirs && b.dirs == a.dirs - {d} && b.kpdpt == a.kpdpt && Rooted(a)
    requires forall t :: t in a.tables && t != d && t !in TablesOf(a, d) ==> t in b.tables && b.tables[t] == a.tables[t]
    ensures Rooted(b)
  {
    forall q | q in b.dirs ensures Linked(b, q) {
      assert Linked(a, q);
      NotOf(a, d, q);
      OrphanElsewhere(a, b, d, TopOf(a, q));
      OrphanElsewhere(a, b, d, a.tables[TopOf(a, q)][0].frame);
      hide Sound, Orphan, TablesOf;
    }
  }

  lemma NotOf(a: Vm, d: nat, q: nat)
    requires Sound(a) && d in a.dirs && q in a.dirs && q != d
    ensures q in a.tables && q !in TablesOf(a, d)
  {
    if q in TablesOf(a, d) {
      var i :| 0 <= i < USER && Present(a.tables[d][i]) && a.tables[d][i].frame == q;
      assert HasTable(a, d, i);
    }
  }

  lemma OrphanElsewhere(a: Vm, b: Vm, d: nat, t: nat)
    requires Sound(a) && Sound(b) && d in a.dirs && b.dirs == a.dirs - {d} && Orphan(a, t)
    requires forall u :: u in a.tables && u != d && u !in TablesOf(a, d) ==> u in b.tables && b.tables[u] == a.tables[u]
    ensures Orphan(b, t) && b.tables[t] == a.tables[t]
  {
    if t in TablesOf(a, d) {
      var i :| 0 <= i < USER && Present(a.tables[d][i]) && a.tables[d][i].frame == t;
      assert HasTable(a, d, i);
    }
    forall q: nat, i: nat | HasTable(b, q, i) ensures TableOf(b, q, i) != t {
      NotOf(a, d, q);
      assert HasTable(a, q, i);
    }
  }
}

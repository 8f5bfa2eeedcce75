/** The buffer cache (kernel/bio.c). Every method that takes the cache's lock, or works on a
    buffer whose sleeping lock the caller holds, is one atomic section; all of them keep
    Valid(), so every interleaving of them does. */
module BlockCache {
  import opened Blocks
  import opened LinkedList
  import opened Wrappers

  /** `locked` is the buffer's sleeping lock; `valid` and `dirty` are its two flags. */
  datatype Buf = Buf(dev: nat, blockno: nat, valid: bool, dirty: bool, locked: bool, refcnt: nat, data: Block)

  type Key = (nat, nat)

  function KeyOf(b: Buf): Key {
    (b.dev, b.blockno)
  }

  /** The buffer holds a block of a real device; slots start out as device 0. */
  predicate InUse(b: Buf) {
    b.dev != 0
  }

  predicate Eligible(b: Buf) {
    b.refcnt == 0 && !b.dirty
  }

  /** No two buffers hold the same block. */
  ghost predicate Unique(bufs: seq<Buf>) {
    forall i, j :: 0 <= i < j < |bufs| && InUse(bufs[i]) ==> KeyOf(bufs[i]) != KeyOf(bufs[j])
  }

  ghost predicate Caches(bufs: seq<Buf>, key: Key) {
    exists i :: 0 <= i < |bufs| && InUse(bufs[i]) && KeyOf(bufs[i]) == key && bufs[i].valid
  }

  /** What the cache says about one buffer: a valid one holds the current contents, which the
      disk has too unless the buffer is dirty or locked. */
  ghost predicate Sound(b: Buf, disk: map<Key, Block>, view: map<Key, Block>) {
    && (b.locked ==> b.refcnt > 0) && (b.dirty ==> b.valid)
    && (InUse(b) ==> KeyOf(b) in disk && KeyOf(b) in view)
    && (InUse(b) && b.valid ==> b.data == view[KeyOf(b)])
    && (InUse(b) && b.valid && !b.dirty && !b.locked ==> b.data == disk[KeyOf(b)])
  }

  /** `view` is what the file system sees: the valid buffer of a block, or else the disk. */
  ghost predicate Coherent(bufs: seq<Buf>, disk: map<Key, Block>, view: map<Key, Block>) {
    && view.Keys == disk.Keys
    && (forall i :: 0 <= i < |bufs| ==> Sound(bufs[i], disk, view))
    && (forall key :: key in disk && !Caches(bufs, key) ==> view[key] == disk[key])
  }

  /** Recycling a buffer that is neither referenced nor dirty loses nothing. */
  lemma RecycleCoherent(bufs: seq<Buf>, disk: map<Key, Block>, view: map<Key, Block>, i: nat, b: Buf)
    requires Coherent(bufs, disk, view) && i < |bufs| && Eligible(bufs[i])
    requires InUse(b) && KeyOf(b) in disk && !b.valid && !b.dirty && !b.locked && b.refcnt == 1
    ensures Coherent(bufs[i := b], disk, view)
  {
    var bufs' := bufs[i := b];
    assert Sound(bufs[i], disk, view);
    forall key | key in disk ensures Caches(bufs', key) || view[key] == disk[key] {
      if Caches(bufs, key) {
        var j :| 0 <= j < |bufs| && InUse(bufs[j]) && KeyOf(bufs[j]) == key && bufs[j].valid;
        if j != i { assert bufs'[j] == bufs[j]; }
      }
    }
  }

  /** Changing a buffer that stays valid, or becomes valid with what the disk holds. */
  lemma UpdateCoherent(bufs: seq<Buf>, disk: map<Key, Block>, view: map<Key, Block>, i: nat, b: Buf,
                       disk': map<Key, Block>, view': map<Key, Block>)
    requires Coherent(bufs, disk, view) && Unique(bufs) && i < |bufs| && InUse(b) && KeyOf(b) == KeyOf(bufs[i])
    requires disk'.Keys == disk.Keys && view'.Keys == view.Keys
    requires forall key :: key in disk && key != KeyOf(b) ==> disk'[key] == disk[key] && view'[key] == view[key]
    requires Sound(b, disk', view') && (b.valid || (!bufs[i].valid && disk' == disk && view' == view))
    ensures Coherent(bufs[i := b], disk', view') && Unique(bufs[i := b])
  {
    var bufs' := bufs[i := b];
    forall j | 0 <= j < |bufs'| ensures Sound(bufs'[j], disk', view') {
      assert Sound(bufs[j], disk, view);
    }
    forall key | key in disk' ensures Caches(bufs', key) || view'[key] == disk'[key] {
      if key == KeyOf(b) && b.valid {
        assert bufs'[i] == b;
      } else if Caches(bufs, key) {
        var j :| 0 <= j < |bufs| && InUse(bufs[j]) && KeyOf(bufs[j]) == key && bufs[j].valid;
        assert bufs'[j] == bufs[j];
      }
    }
  }

  /** Buffers from the most to the least recently released, `stamp` being when that was. */
  ghost predicate ByRecency(order: seq<nat>, stamp: seq<nat>, clock: nat) {
    && (forall i :: 0 <= i < |order| ==> order[i] < |stamp| && stamp[order[i]] < clock)
    && (forall i, j :: 0 <= i < j < |order| ==> stamp[order[i]] > stamp[order[j]])
  }

  ghost predicate Complete(order: seq<nat>, n: nat) {
    |order| == n && forall i: nat :: i < n ==> i in order
  }

  /** Moving a buffer to the front when it is released. */
  lemma MoveToFront(order: seq<nat>, stamp: seq<nat>, clock: nat, k: nat)
    requires ByRecency(order, stamp, clock) && Complete(order, |order|) && |stamp| == |order| && k < |order|
    ensures var moved := [order[k]] + Without(order, k);
      ByRecency(moved, stamp[order[k] := clock], clock + 1) && Complete(moved, |order|)
  {
    var b, rest := order[k], Without(order, k);
    forall i: nat | i < |order| ensures i in [b] + rest {
      assert i in order;
      var j :| 0 <= j < |order| && order[j] == i;
      if j < k { assert rest[j] == i; } else if j > k { assert rest[j - 1] == i; }
    }
    assert forall j :: 0 <= j < |rest| ==> rest[j] == order[if j < k then j else j + 1];
  }

  lemma PlaceOf(order: seq<nat>, n: nat, b: nat) returns (k: nat)
    requires Complete(order, n) && b < n
    ensures k < |order| == n && order[k] == b
  {
    assert b in order;
    k :| k < |order| && order[k] == b;
  }

  lemma SameElements(order: seq<nat>, k: nat)
    requires k < |order|
    ensures multiset([order[k]] + Without(order, k)) == multiset(order)
  {
    assert order == order[..k] + [order[k]] + order[k + 1..];
  }

  /** log_write has put block `b` of the device into the log. */
  predicate IsPinned(b: Buf, dev: nat, blockno: nat) {
    KeyOf(b) == (dev, blockno) && b.valid && b.dirty && !b.locked
  }

  ghost predicate PinnedIn(bufs: seq<Buf>, dev: nat, blockno: nat) {
    exists i :: 0 <= i < |bufs| && IsPinned(bufs[i], dev, blockno)
  }

  ghost predicate SomeEligible(bufs: seq<Buf>) {
    exists i :: 0 <= i < |bufs| && Eligible(bufs[i])
  }

  predicate LogKey(key: Key, dev: nat, start: nat, n: nat) {
    key.0 == dev && start < key.1 <= start + n
  }

  /** Nobody holds or pins a log block. */
  ghost predicate LogFree(bufs: seq<Buf>, dev: nat, start: nat, n: nat) {
    forall i :: 0 <= i < |bufs| && LogKey(KeyOf(bufs[i]), dev, start, n) ==> Eligible(bufs[i]) && !bufs[i].locked
  }

  lemma LogFreeAt(bufs: seq<Buf>, dev: nat, start: nat, n: nat, x: nat)
    requires LogFree(bufs, dev, start, n) && start < x <= start + n
    ensures forall i :: 0 <= i < |bufs| && KeyOf(bufs[i]) == (dev, x) ==> Eligible(bufs[i]) && !bufs[i].locked
    ensures LogKey((dev, x), dev, start, n)
  {
  }

  lemma HomeKey(dev: nat, start: nat, n: nat, x: nat)
    requires !(start < x <= start + n)
    ensures !LogKey((dev, x), dev, start, n)
  {
  }

  lemma StillLogFree(bufs: seq<Buf>, bufs': seq<Buf>, dev: nat, start: nat, n: nat)
    requires LogFree(bufs, dev, start, n) && |bufs'| == |bufs|
    requires forall i :: 0 <= i < |bufs| && bufs'[i] != bufs[i] ==> Eligible(bufs'[i]) && !bufs'[i].locked
    ensures LogFree(bufs', dev, start, n)
  {
  }

  lemma StillPinned(bufs: seq<Buf>, bufs': seq<Buf>, dev: nat, blk: seq<nat>)
    requires |bufs'| == |bufs| && forall i :: 0 <= i < |bufs| && bufs'[i] != bufs[i] ==> Eligible(bufs'[i])
    requires forall t :: 0 <= t < |blk| ==> PinnedIn(bufs, dev, blk[t])
    requires forall i :: 0 <= i < |bufs| && bufs[i].dirty ==> bufs'[i] == bufs[i]
    ensures forall t :: 0 <= t < |blk| ==> PinnedIn(bufs', dev, blk[t])
  {
    forall t | 0 <= t < |blk| ensures PinnedIn(bufs', dev, blk[t]) {
      assert PinnedIn(bufs, dev, blk[t]);
      var i :| 0 <= i < |bufs| && IsPinned(bufs[i], dev, blk[t]);
      assert IsPinned(bufs'[i], dev, blk[t]);
    }
  }

  predicate Held(b: Buf) {
    InUse(b) && b.locked && b.valid && b.refcnt > 0
  }

  function Released(b: Buf): Buf
    requires b.refcnt > 0
  {
    b.(locked := false, refcnt := b.refcnt - 1)
  }

  class BlockCache {
    const buf: array<Buf>
    const prev: array<nat>        // links; the last index is block_cache.head
    const next: array<nat>
    var disk: map<Key, Block>
    ghost var view: map<Key, Block>
    ghost var order: seq<nat>
    ghost var stamp: seq<nat>
    ghost var clock: nat

    ghost predicate ValidList()
      reads this, buf, prev, next
    {
      && prev != next && prev.Length == next.Length == buf.Length + 1
      && Linked(prev[..], next[..], order, buf.Length)
      && Complete(order, buf.Length) && |stamp| == buf.Length && ByRecency(order, stamp, clock)
    }

    ghost predicate Valid()
      reads this, buf, prev, next
    {
      ValidList() && Unique(buf[..]) && Coherent(buf[..], disk, view)
    }

    /** block_init */
    constructor (nbuf: nat, contents: map<Key, Block>)
      ensures Valid() && fresh(buf) && fresh(prev) && fresh(next) && buf.Length == nbuf
      ensures disk == contents && view == contents
      ensures forall i :: 0 <= i < nbuf ==> !InUse(buf[i]) && buf[i].refcnt == 0
    {
      buf := new Buf[nbuf](_ => Buf(0, 0, false, false, false, 0, ZeroBlock()));
      prev := new nat[nbuf + 1](_ => nbuf);
      next := new nat[nbuf + 1](_ => nbuf);
      disk, view, clock := contents, contents, nbuf;
      order, stamp := [], seq(nbuf, i => i);
      new;
      for b := 0 to nbuf
        invariant forall i :: 0 <= i < nbuf ==> buf[i] == Buf(0, 0, false, false, false, 0, ZeroBlock())
        invariant disk == contents && view == contents && clock == nbuf && stamp == seq(nbuf, i => i)
        invariant Linked(prev[..], next[..], order, nbuf)
        invariant |order| == b && forall i :: 0 <= i < b ==> order[i] == b - 1 - i
      {
        PushHead(b);
      }
      forall i: nat | i < nbuf ensures i in order { assert order[nbuf - 1 - i] == i; }
    }

    /** The first loop of block_get. */
    method Find(dev: nat, blockno: nat) returns (r: Option<nat>)
      requires ValidList() && dev != 0
      ensures r.Some? ==> r.value < buf.Length && KeyOf(buf[r.value]) == (dev, blockno)
      ensures r.None? ==> forall i :: 0 <= i < buf.Length ==> KeyOf(buf[i]) != (dev, blockno)
    {
      var head: nat := buf.Length;
      ghost var k := 1;
      assert Link(prev[..], next[..], Node(order, head, 0), Node(order, head, 1));
      var b := next[head];
      while b != head
        invariant 1 <= k <= |order| + 1 && b == Node(order, head, k)
        invariant forall j :: 0 <= j < k - 1 ==> KeyOf(buf[order[j]]) != (dev, blockno)
        decreases |order| + 1 - k
      {
        if buf[b].dev == dev && buf[b].blockno == blockno {
          return Some(b);
        }
        assert Link(prev[..], next[..], Node(order, head, k), Node(order, head, k + 1));
        b := next[b];
        k := k + 1;
      }
      r := None;
      forall i | 0 <= i < buf.Length ensures KeyOf(buf[i]) != (dev, blockno) {
        assert i in order;
      }
    }

    /** The second loop of block_get: the victim is the least recently released buffer that
        is neither referenced nor dirty. */
    method FindVictim() returns (r: Option<nat>)
      requires ValidList()
      ensures r.Some? ==> r.value < buf.Length && Eligible(buf[r.value])
      ensures r.Some? ==> forall i :: 0 <= i < buf.Length && Eligible(buf[i]) ==> stamp[r.value] <= stamp[i]
      ensures r.None? ==> forall i :: 0 <= i < buf.Length ==> !Eligible(buf[i])
    {
      var head: nat := buf.Length;
      ghost var k := |order|;
      assert Link(prev[..], next[..], Node(order, head, k), Node(order, head, k + 1));
      var b := prev[head];
      while b != head
        invariant 0 <= k <= |order| && b == Node(order, head, k)
        invariant forall j :: k <= j < |order| ==> !Eligible(buf[order[j]])
        decreases k
      {
        if buf[b].refcnt == 0 && !buf[b].dirty {
          forall i | 0 <= i < buf.Length && Eligible(buf[i]) ensures stamp[b] <= stamp[i] {
            assert i in order;
          }
          return Some(b);
        }
        assert Link(prev[..], next[..], Node(order, head, k - 1), Node(order, head, k));
        b := prev[b];
        k := k - 1;
      }
      r := None;
      forall i | 0 <= i < buf.Length ensures !Eligible(buf[i]) {
        assert i in order;
      }
    }

    /** block_get, up to taking the buffer's lock. None is the panic for lack of buffers. */
    method Get(dev: nat, blockno: nat) returns (r: Option<nat>)
      requires Valid() && dev != 0 && (dev, blockno) in disk
      modifies buf, this`view
      ensures Valid() && view == old(view)
      ensures r.Some? ==> r.value < buf.Length && KeyOf(buf[r.value]) == (dev, blockno) && buf[r.value].refcnt > 0
      // a cached block is found where it is, with one more reference
      ensures forall i :: 0 <= i < buf.Length && old(KeyOf(buf[i])) == (dev, blockno) ==>
                r == Some(i) && buf[i] == old(buf[i]).(refcnt := old(buf[i]).refcnt + 1)
      // otherwise the least recently released buffer that nobody needs is recycled
      ensures (forall i :: 0 <= i < buf.Length ==> old(KeyOf(buf[i])) != (dev, blockno)) ==>
                if r.None? then forall i :: 0 <= i < buf.Length ==> !Eligible(old(buf[i]))
                else Eligible(old(buf[r.value])) && !buf[r.value].valid && !buf[r.value].dirty && !buf[r.value].locked
                     && buf[r.value].refcnt == 1
                     && forall i :: 0 <= i < buf.Length && Eligible(old(buf[i])) ==> stamp[r.value] <= stamp[i]
      ensures forall i :: 0 <= i < buf.Length && r != Some(i) ==> buf[i] == old(buf[i])
    {
      hide Linked, Complete, ByRecency;
      r := Find(dev, blockno);
      if r.Some? {
        assert Sound(buf[..][r.value], disk, view);
        Set(r.value, buf[r.value].(refcnt := buf[r.value].refcnt + 1), view);
        return;
      }
      r := FindVictim();
      if r.Some? {
        Recycle(r.value, dev, blockno);
      }
    }

    method Recycle(i: nat, dev: nat, blockno: nat)
      requires Valid() && i < buf.Length && Eligible(buf[i]) && dev != 0 && (dev, blockno) in disk
      requires forall j :: 0 <= j < buf.Length ==> KeyOf(buf[j]) != (dev, blockno)
      modifies buf
      ensures Valid() && buf[..] == old(buf[..])[i := Buf(dev, blockno, false, false, false, 1, old(buf[i]).data)]
    {
      hide Linked, Complete, ByRecency;
      ghost var bufs := buf[..];
      assert Sound(bufs[i], disk, view);
      var b := Buf(dev, blockno, false, false, buf[i].locked, 1, buf[i].data);
      RecycleCoherent(bufs, disk, view, i, b);
      buf[i] := b;
      assert buf[..] == bufs[i := b];
    }

    /** Replaces buffer `i` by one for the same block. */
    method Set(i: nat, b: Buf, ghost view': map<Key, Block>)
      requires Valid() && i < buf.Length && InUse(b) && KeyOf(b) == KeyOf(buf[i])
      requires view'.Keys == view.Keys && (forall key :: key in view && key != KeyOf(b) ==> view'[key] == view[key])
      requires Sound(b, disk, view') && (b.valid || (!buf[i].valid && view' == view))
      modifies buf, this`view
      ensures Valid() && buf[..] == old(buf[..])[i := b] && view == view'
    {
      hide Linked, Complete, ByRecency, Sound;
      ghost var bufs := buf[..];
      UpdateCoherent(bufs, disk, view, i, b, disk, view');
      buf[i] := b;
      view := view';
      assert buf[..] == bufs[i := b];
    }

    /** acquiresleep on the buffer's lock, granted */
    method Lock(i: nat)
      requires Valid() && i < buf.Length && InUse(buf[i]) && buf[i].refcnt > 0 && !buf[i].locked
      modifies buf, this`view
      ensures Valid() && view == old(view) && buf[..] == old(buf[..])[i := old(buf[i]).(locked := true)]
    {
      assert Sound(buf[..][i], disk, view);
      Set(i, buf[i].(locked := true), view);
    }

    /** The rest of block_read: a buffer that is not valid is read from the disk. */
    method Fill(i: nat)
      requires Valid() && i < buf.Length && InUse(buf[i]) && buf[i].locked
      modifies buf, this`view
      ensures Valid() && view == old(view) && KeyOf(old(buf[i])) in view
      ensures buf[..] == old(buf[..])[i := old(buf[i]).(valid := true, data := view[KeyOf(old(buf[i]))])]
    {
      assert Sound(buf[..][i], disk, view);
      if !buf[i].valid {
        NotCached(buf[..], disk, view, i);
        Set(i, buf[i].(valid := true, data := disk[KeyOf(buf[i])]), view);
      }
    }

    /** The holder of the buffer changes its contents. */
    method Store(i: nat, data: Block)
      requires Valid() && i < buf.Length && InUse(buf[i]) && buf[i].locked && buf[i].valid
      modifies buf, this`view
      ensures Valid() && view == old(view)[KeyOf(buf[i]) := data]
      ensures buf[..] == old(buf[..])[i := old(buf[i]).(data := data)]
    {
      assert Sound(buf[..][i], disk, view);
      Set(i, buf[i].(data := data), view[KeyOf(buf[i]) := data]);
    }

    /** log_write pins the buffer in the cache. */
    method Pin(i: nat)
      requires Valid() && i < buf.Length && InUse(buf[i]) && buf[i].locked && buf[i].valid
      modifies buf, this`view
      ensures Valid() && view == old(view) && buf[..] == old(buf[..])[i := old(buf[i]).(dirty := true)]
    {
      assert Sound(buf[..][i], disk, view);
      Set(i, buf[i].(dirty := true), view);
    }

    /** block_write */
    method Write(i: nat)
      requires Valid() && i < buf.Length && InUse(buf[i]) && buf[i].locked && buf[i].valid
      modifies this`disk, buf
      ensures Valid() && KeyOf(old(buf[i])) in view && disk == old(disk)[KeyOf(old(buf[i])) := view[KeyOf(old(buf[i]))]]
      ensures buf[..] == old(buf[..])[i := old(buf[i]).(dirty := false)]
    {
      hide Linked, Complete, ByRecency;
      ghost var bufs := buf[..];
      assert Sound(bufs[i], disk, view);
      var b := buf[i].(dirty := false);
      UpdateCoherent(bufs, disk, view, i, b, disk[KeyOf(b) := b.data], view);
      disk := disk[KeyOf(b) := b.data];
      buf[i] := b;
      assert buf[..] == bufs[i := b];
    }

    /** releasesleep in block_release. Callers owe that a buffer they changed is pinned or
        written back. */
    method Unlock(i: nat)
      requires Valid() && i < buf.Length && InUse(buf[i]) && buf[i].locked
      requires buf[i].valid && (buf[i].dirty || buf[i].data == disk[KeyOf(buf[i])])
      modifies buf, this`view
      ensures Valid() && view == old(view) && buf[..] == old(buf[..])[i := old(buf[i]).(locked := false)]
    {
      assert Sound(buf[..][i], disk, view);
      Set(i, buf[i].(locked := false), view);
    }

    /** The rest of block_release: the last reference moves the buffer to the front. */
    method Put(i: nat)
      requires Valid() && i < buf.Length && InUse(buf[i])
      requires buf[i].refcnt > if buf[i].locked then 1 else 0
      modifies buf, prev, next, this`view, this`order, this`stamp, this`clock
      ensures Valid() && view == old(view)
              && buf[..] == old(buf[..])[i := old(buf[i]).(refcnt := old(buf[i]).refcnt - 1)]
      ensures buf[i].refcnt > 0 ==> order == old(order) && stamp == old(stamp)
      ensures buf[i].refcnt == 0 ==>
                i in old(order) && stamp == old(stamp)[i := old(clock)] && order[0] == i
                && multiset(order) == multiset(old(order))
    {
      assert Sound(buf[..][i], disk, view);
      Set(i, buf[i].(refcnt := buf[i].refcnt - 1), view);
      if buf[i].refcnt == 0 {
        Relink(i);
      }
    }

    /** block_read, when nobody else holds the block: the caller gets what the block contains,
        whether it was cached or not, and nothing else changes what any block contains. */
    method BlockRead(dev: nat, blockno: nat) returns (r: Option<nat>)
      requires Valid() && dev != 0 && (dev, blockno) in disk
      requires forall i :: 0 <= i < buf.Length && KeyOf(buf[i]) == (dev, blockno) ==> !buf[i].locked
      modifies buf, this`view
      ensures Valid() && view == old(view) && (dev, blockno) in view
      ensures r.Some? ==> r.value < buf.Length && KeyOf(buf[r.value]) == (dev, blockno)
      ensures r.Some? ==> buf[r.value].locked && buf[r.value].valid && buf[r.value].data == view[(dev, blockno)]
      ensures forall i :: 0 <= i < buf.Length && r != Some(i) ==> buf[i] == old(buf[i])
      ensures forall i :: 0 <= i < buf.Length && KeyOf(old(buf[i])) == (dev, blockno) ==> r == Some(i)
      ensures r.None? <==> forall i :: 0 <= i < buf.Length ==>
                !Eligible(old(buf[i])) && KeyOf(old(buf[i])) != (dev, blockno)
      ensures r.Some? ==>
                if KeyOf(old(buf[r.value])) == (dev, blockno)
                then buf[r.value] == old(buf[r.value]).(refcnt := old(buf[r.value]).refcnt + 1, locked := true,
                                                        valid := true, data := view[(dev, blockno)])
                else Eligible(old(buf[r.value]))
                     && buf[r.value] == Buf(dev, blockno, true, false, true, 1, view[(dev, blockno)])
    {
      hide Linked, Complete, ByRecency, Unique, Sound, Coherent;
      assert (dev, blockno) in view by { assert Coherent(buf[..], disk, view); KeysAgree(buf[..], disk, view); }
      r := Get(dev, blockno);
      if r.Some? {
        Lock(r.value);
        Fill(r.value);
      }
    }

    /** block_release */
    method BlockRelease(i: nat)
      requires Valid() && i < buf.Length && InUse(buf[i]) && buf[i].locked && buf[i].refcnt > 0
      requires buf[i].valid && KeyOf(buf[i]) in disk && (buf[i].dirty || buf[i].data == disk[KeyOf(buf[i])])
      modifies buf, prev, next, this`view, this`order, this`stamp, this`clock
      ensures Valid() && view == old(view)
      ensures buf[..] == old(buf[..])[i := old(buf[i]).(locked := false, refcnt := old(buf[i]).refcnt - 1)]
      ensures old(buf[i]).refcnt == 1 && !old(buf[i]).dirty ==> SomeEligible(buf[..])
    {
      hide Linked, Complete, ByRecency, Unique, Sound, Coherent;
      Unlock(i);
      Put(i);
    }

    /** The second half of a round of write_log: the contents go over, to the disk, and both
        buffers are released. */
    method MoveOver(to: nat, from: nat)
      requires Valid() && to < buf.Length && from < buf.Length && to != from && Held(buf[to]) && Held(buf[from])
               && buf[from].dirty
      requires KeyOf(buf[to]) in view && KeyOf(buf[from]) in view
      modifies buf, prev, next, this
      ensures Valid() && disk == old(disk)[KeyOf(old(buf[to])) := old(buf[from]).data]
      ensures view == old(view)[KeyOf(old(buf[to])) := old(buf[from]).data]
      ensures buf[..] == old(buf[..])[from := Released(old(buf[from]))]
                                     [to := Released(old(buf[to])).(data := old(buf[from]).data, dirty := false)]
    {
      hide Linked, Complete, ByRecency, Unique, Sound, Coherent;
      Store(to, buf[from].data);
      Write(to);
      KeysAgree(buf[..], disk, view);
      BlockRelease(from);
      BlockRelease(to);
    }

    /** block_read of a pinned block: it is in the cache. */
    method ReadPinned(dev: nat, home: nat) returns (from: nat)
      requires Valid() && dev != 0 && (dev, home) in disk && PinnedIn(buf[..], dev, home)
      modifies buf, this`view
      ensures Valid() && view == old(view) && from < buf.Length && KeyOf(buf[from]) == (dev, home)
              && (dev, home) in view
      ensures Held(buf[from]) && buf[from].dirty && buf[from].data == view[(dev, home)]
              && Released(buf[from]) == old(buf[from])
      ensures forall i :: 0 <= i < buf.Length && i != from ==> buf[i] == old(buf[i])
    {
      hide Linked, Complete, ByRecency, Unique, Sound, Coherent;
      ghost var p :| 0 <= p < |buf[..]| && IsPinned(buf[..][p], dev, home);
      OnlyOne(buf[..], disk, view, p);
      var r := BlockRead(dev, home);
      assert r == Some(p);
      from := r.value;
    }

    /** One round of write_log: a pinned block goes to a log block. `ok` is false where the
        source panics because every buffer is pinned or referenced. */
    method CopyToLog(dev: nat, home: nat, log: nat) returns (ok: bool)
      requires Valid() && dev != 0 && home != log && (dev, home) in disk && (dev, log) in disk
      requires PinnedIn(buf[..], dev, home)
      requires forall i :: 0 <= i < buf.Length && KeyOf(buf[i]) == (dev, log) ==> Eligible(buf[i]) && !buf[i].locked
      modifies buf, prev, next, this
      ensures ok <==> SomeEligible(old(buf[..]))
      ensures ok ==> Valid() && (dev, home) in old(view) && disk == old(disk)[(dev, log) := old(view)[(dev, home)]]
      ensures ok ==> view == old(view)[(dev, log) := old(view)[(dev, home)]]
      ensures ok ==> SomeEligible(buf[..])
      ensures ok ==> forall i :: 0 <= i < buf.Length && buf[i] != old(buf[i]) ==> Eligible(buf[i]) && !buf[i].locked
      ensures ok ==> forall i :: 0 <= i < buf.Length && old(buf[i]).dirty ==> buf[i] == old(buf[i])
    {
      hide Linked, Complete, ByRecency, Unique, Sound, Coherent;
      KeysAgree(buf[..], disk, view);
      var to := BlockRead(dev, log);
      if to.None? {
        return false;
      }
      ghost var before := buf[..];
      assert PinnedIn(before, dev, home) by {
        var p :| 0 <= p < |old(buf[..])| && IsPinned(old(buf[..])[p], dev, home);
        assert before[p] == old(buf[..])[p];
      }
      var from := ReadPinned(dev, home);
      MoveOver(to.value, from);
      ok := true;
      assert Eligible(buf[..][to.value]);
    }

    /** write_log, as the cache sees it: it gets its buffers exactly if some buffer is neither
        pinned nor referenced, however many blocks it copies. */
    method WriteLog(dev: nat, start: nat, blk: seq<nat>) returns (ok: bool)
      requires Valid() && dev != 0
      requires forall t :: 0 <= t < |blk| ==>
                 (dev, blk[t]) in disk && !(start < blk[t] <= start + |blk|) && PinnedIn(buf[..], dev, blk[t])
      requires forall x: nat :: start < x <= start + |blk| ==> (dev, x) in disk
      requires LogFree(buf[..], dev, start, |blk|)
      modifies buf, prev, next, this
      ensures ok <==> blk == [] || SomeEligible(old(buf[..]))
      ensures ok && blk != [] ==> SomeEligible(buf[..])
      ensures ok ==> Valid() && disk.Keys == old(disk).Keys && view.Keys == old(view).Keys
      ensures ok ==> forall t :: 0 <= t < |blk| ==> (dev, blk[t]) in old(view) && (dev, start + 1 + t) in disk
      ensures ok ==> forall t :: 0 <= t < |blk| ==> disk[(dev, start + 1 + t)] == old(view)[(dev, blk[t])]
      ensures ok ==> forall key :: key in disk && key in view && !LogKey(key, dev, start, |blk|) ==>
                       disk[key] == old(disk)[key] && key in old(view) && view[key] == old(view)[key]
    {
      hide Linked, Complete, ByRecency, Unique, Sound, Coherent, PinnedIn, SomeEligible, LogFree, LogKey, Eligible;
      KeysAgree(buf[..], disk, view);
      for tail := 0 to |blk|
        invariant Valid() && disk.Keys == view.Keys == old(disk).Keys == old(view).Keys
        invariant forall t :: 0 <= t < |blk| ==> PinnedIn(buf[..], dev, blk[t])
        invariant LogFree(buf[..], dev, start, |blk|)
        invariant if tail == 0 then buf[..] == old(buf[..]) else SomeEligible(old(buf[..])) && SomeEligible(buf[..])
        invariant forall t :: 0 <= t < tail ==> disk[(dev, start + 1 + t)] == old(view)[(dev, blk[t])]
        invariant forall key :: key in disk && !LogKey(key, dev, start, |blk|) ==>
                    disk[key] == old(disk)[key] && view[key] == old(view)[key]
      {
        ghost var before := buf[..];
        LogFreeAt(before, dev, start, |blk|, start + 1 + tail);
        HomeKey(dev, start, |blk|, blk[tail]);
        ok := CopyToLog(dev, blk[tail], start + 1 + tail);
        if !ok {
          return;
        }
        StillPinned(before, buf[..], dev, blk);
        StillLogFree(before, buf[..], dev, start, |blk|);
      }
      ok := true;
    }

    method Relink(b: nat)
      requires ValidList() && b < buf.Length
      modifies prev, next, this`order, this`stamp, this`clock
      ensures ValidList() && b in old(order) && stamp == old(stamp)[b := old(clock)]
      ensures order[0] == b && multiset(order) == multiset(old(order))
    {
      hide Linked, ByRecency, Complete, Without;
      ghost var all := order;
      ghost var k := PlaceOf(all, buf.Length, b);
      MoveToFront(all, stamp, clock, k);
      SameElements(all, k);
      Detach(b, k);
      PushHead(b);
      stamp, clock := stamp[b := clock], clock + 1;
    }

    method Detach(b: nat, ghost k: nat)
      requires prev != next && prev.Length == next.Length == buf.Length + 1
      requires Linked(prev[..], next[..], order, buf.Length) && k < |order| && order[k] == b
      modifies prev, next, this`order
      ensures Linked(prev[..], next[..], order, buf.Length) && order == Without(old(order), k) && b !in order
    {
      ghost var p: seq<nat>, n: seq<nat> := prev[..], next[..];
      Unlink(p, n, order, buf.Length, k);
      assert n[b] == next[b] && p[b] == prev[b];
      assert b !in Without(order, k);
      hide Linked;
      var before, after := prev[b], next[b];
      prev[after] := before;
      next[before] := after;
      order := Without(order, k);
      assert prev[..] == p[after := before] && next[..] == n[before := after];
    }

    method PushHead(b: nat)
      requires prev != next && prev.Length == next.Length == buf.Length + 1
      requires Linked(prev[..], next[..], order, buf.Length) && b < buf.Length && b !in order
      modifies prev, next, this`order
      ensures Linked(prev[..], next[..], order, buf.Length) && order == [b] + old(order)
    {
      var head: nat := buf.Length;
      ghost var p: seq<nat>, n: seq<nat> := prev[..], next[..];
      PushFront(p, n, order, head, b);
      hide Linked;
      next[b] := next[head];
      prev[b] := head;
      prev[next[head]] := b;
      next[head] := b;
      order := [b] + order;
      assert prev[..] == p[b := head][n[head] := b] && next[..] == n[b := n[head]][head := b];
    }
  }

  /** A valid buffer is the only one of its block, and holds its contents. */
  lemma OnlyOne(bufs: seq<Buf>, disk: map<Key, Block>, view: map<Key, Block>, p: nat)
    requires Unique(bufs) && Coherent(bufs, disk, view) && p < |bufs| && InUse(bufs[p]) && bufs[p].valid
    ensures forall i :: 0 <= i < |bufs| && KeyOf(bufs[i]) == KeyOf(bufs[p]) ==> i == p
    ensures KeyOf(bufs[p]) in view && bufs[p].data == view[KeyOf(bufs[p])]
  {
    assert Sound(bufs[p], disk, view);
  }

  lemma KeysAgree(bufs: seq<Buf>, disk: map<Key, Block>, view: map<Key, Block>)
    requires Coherent(bufs, disk, view)
    ensures view.Keys == disk.Keys
  {
  }

  /** Nothing else caches the block of an invalid buffer, so the disk has its contents. */
  lemma NotCached(bufs: seq<Buf>, disk: map<Key, Block>, view: map<Key, Block>, i: nat)
    requires Coherent(bufs, disk, view) && Unique(bufs) && i < |bufs| && InUse(bufs[i]) && !bufs[i].valid
    ensures KeyOf(bufs[i]) in disk && view[KeyOf(bufs[i])] == disk[KeyOf(bufs[i])]
  {
    assert Sound(bufs[i], disk, view);
    assert !Caches(bufs, KeyOf(bufs[i]));
  }

  // ----- how many pinned blocks leave room ---------------------------------

  ghost function Numbers(n: nat): (u: set<nat>)
    ensures |u| == n && forall i :: i in u <==> 0 <= i < n
  {
    if n == 0 then {} else Numbers(n - 1) + {n - 1}
  }

  /** The buffer is pinned for a block of `blk`. */
  ghost predicate PinnedFor(b: Buf, dev: nat, blk: seq<nat>) {
    exists t :: 0 <= t < |blk| && IsPinned(b, dev, blk[t])
  }

  lemma PinnedForOneMore(b: Buf, dev: nat, blk: seq<nat>)
    requires |blk| > 0
    ensures var n := |blk| - 1; PinnedFor(b, dev, blk) <==> PinnedFor(b, dev, blk[..n]) || IsPinned(b, dev, blk[n])
  {
    hide IsPinned;
    var n := |blk| - 1;
    if t :| 0 <= t < n && IsPinned(b, dev, blk[t]) {
      assert blk[..n][t] == blk[t];
    }
    if t :| 0 <= t < n && IsPinned(b, dev, blk[..n][t]) {
      assert blk[..n][t] == blk[t];
    }
  }

  lemma PinnedOnce(bufs: seq<Buf>, dev: nat, x: nat, i: nat, p: nat)
    requires Unique(bufs) && dev != 0 && i < |bufs| && p < |bufs| && IsPinned(bufs[i], dev, x)
             && IsPinned(bufs[p], dev, x)
    ensures i == p
  {
  }

  lemma PinnedForAnother(b: Buf, dev: nat, blk: seq<nat>, x: nat)
    requires IsPinned(b, dev, x) && x !in blk
    ensures !PinnedFor(b, dev, blk)
  {
  }

  /** Different blocks are in different buffers, so pinned blocks take as many buffers. */
  lemma {:induction false} PinnedCount(bufs: seq<Buf>, dev: nat, blk: seq<nat>) returns (u: set<nat>)
    requires Unique(bufs) && dev != 0 && (forall s, t :: 0 <= s < t < |blk| ==> blk[s] != blk[t])
    requires forall t :: 0 <= t < |blk| ==> PinnedIn(bufs, dev, blk[t])
    ensures |u| == |blk| && forall i: nat :: i in u <==> i < |bufs| && PinnedFor(bufs[i], dev, blk)
  {
    hide Unique, PinnedFor, PinnedIn, IsPinned;
    if blk == [] {
      u := {};
      forall i: nat | i < |bufs| ensures !PinnedFor(bufs[i], dev, blk) { PinnedForNone(bufs[i], dev); }
    } else {
      var n := |blk| - 1;
      var init, x := blk[..n], blk[n];
      assert forall t :: 0 <= t < n ==> init[t] == blk[t];
      var rest := PinnedCount(bufs, dev, init);
      var p := WherePinned(bufs, dev, x);
      PinnedForAnother(bufs[p], dev, init, x);
      u := rest + {p};
      forall i: nat | i < |bufs| ensures i in u <==> PinnedFor(bufs[i], dev, blk) {
        PinnedForOneMore(bufs[i], dev, blk);
        if IsPinned(bufs[i], dev, x) { PinnedOnce(bufs, dev, x, i, p); }
      }
    }
  }

  lemma PinnedForNone(b: Buf, dev: nat)
    ensures !PinnedFor(b, dev, [])
  {
  }

  lemma WherePinned(bufs: seq<Buf>, dev: nat, x: nat) returns (p: nat)
    requires PinnedIn(bufs, dev, x)
    ensures p < |bufs| && IsPinned(bufs[p], dev, x)
  {
    p :| p < |bufs| && IsPinned(bufs[p], dev, x);
  }

  /** A commit, with no other buffer pinned or referenced, finds a buffer for its log blocks
      exactly if the transaction has fewer blocks than the cache has buffers. */
  lemma CommitHasRoomIff(bufs: seq<Buf>, dev: nat, blk: seq<nat>)
    requires Unique(bufs) && dev != 0 && (forall s, t :: 0 <= s < t < |blk| ==> blk[s] != blk[t])
    requires forall t :: 0 <= t < |blk| ==> PinnedIn(bufs, dev, blk[t])
    requires forall i :: 0 <= i < |bufs| && !Eligible(bufs[i]) ==> PinnedFor(bufs[i], dev, blk)
    ensures SomeEligible(bufs) <==> |blk| < |bufs|
  {
    hide Unique, PinnedIn;
    var u := PinnedCount(bufs, dev, blk);
    var all := Numbers(|bufs|);
    assert u <= all;
    if SomeEligible(bufs) {
      var i: nat :| i < |bufs| && Eligible(bufs[i]);
      assert !PinnedFor(bufs[i], dev, blk);
      SmallerSet(u, all - {i});
    } else {
      assert all == u;
    }
  }

  lemma {:induction false} SmallerSet(a: set<nat>, b: set<nat>)
    requires a <= b
    ensures |a| <= |b|
  {
    if x :| x in a { SmallerSet(a - {x}, b - {x}); }
  }
}

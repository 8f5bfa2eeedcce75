/** lib/qsort.c: Bentley and McIlroy's quicksort, in place, for any total preorder. */
module Qsort {
  import opened Arithmetic

  /** What section 7.22.5.2 of ISO C11 asks of the comparison function. */
  ghost predicate Preorder<T(!new)>(cmp: (T, T) -> int) {
    && (forall x, y :: cmp(x, y) < 0 <==> cmp(y, x) > 0)
    && (forall x, y, z :: cmp(x, y) <= 0 && cmp(y, z) <= 0 ==> cmp(x, z) <= 0)
  }

  ghost predicate Sorted<T>(cmp: (T, T) -> int, s: seq<T>, lo: int, hi: int)
    requires 0 <= lo <= hi <= |s|
  {
    forall i, j :: lo <= i < j < hi ==> cmp(s[i], s[j]) <= 0
  }

  /** `t` is `s` with the elements at lo..hi-1 rearranged. */
  ghost predicate Rearranged<T>(s: seq<T>, t: seq<T>, lo: int, hi: int) {
    && |s| == |t| && multiset(s) == multiset(t)
    && forall k :: 0 <= k < |s| && !(lo <= k < hi) ==> t[k] == s[k]
  }

  lemma Flip<T(!new)>(cmp: (T, T) -> int, x: T, y: T)
    requires Preorder(cmp)
    ensures cmp(x, y) < 0 <==> cmp(y, x) > 0
    ensures cmp(x, y) == 0 <==> cmp(y, x) == 0
  {
  }

  lemma Chain<T(!new)>(cmp: (T, T) -> int, x: T, y: T, z: T)
    requires Preorder(cmp) && cmp(x, y) <= 0 && cmp(y, z) <= 0
    ensures cmp(x, z) <= 0
  {
  }

  lemma RearrangedTrans<T>(r: seq<T>, s: seq<T>, t: seq<T>, lo: int, hi: int)
    requires Rearranged(r, s, lo, hi) && Rearranged(s, t, lo, hi)
    ensures Rearranged(r, t, lo, hi)
  {
  }

  lemma RearrangedWiden<T>(s: seq<T>, t: seq<T>, lo: int, hi: int, lo': int, hi': int)
    requires Rearranged(s, t, lo, hi) && lo' <= lo && hi <= hi'
    ensures Rearranged(s, t, lo', hi')
  {
  }

  lemma SplitMultiset<T>(s: seq<T>, lo: int, hi: int)
    requires 0 <= lo <= hi <= |s|
    ensures multiset(s) == multiset(s[..lo]) + multiset(s[hi..]) + multiset(s[lo..hi])
  {
    assert s == s[..lo] + s[lo..hi] + s[hi..];
  }

  lemma CancelMultiset<T>(a: multiset<T>, b: multiset<T>, c: multiset<T>)
    requires a + b == a + c
    ensures b == c
  {
    assert b == (a + b) - a;
    assert c == (a + c) - a;
  }

  /** The rearranged range holds the same elements. */
  lemma RearrangedRange<T>(s: seq<T>, t: seq<T>, lo: int, hi: int)
    requires 0 <= lo <= hi <= |s| && Rearranged(s, t, lo, hi)
    ensures multiset(s[lo..hi]) == multiset(t[lo..hi])
  {
    assert s[..lo] == t[..lo] && s[hi..] == t[hi..];
    SplitMultiset(s, lo, hi);
    SplitMultiset(t, lo, hi);
    CancelMultiset(multiset(s[..lo]) + multiset(s[hi..]), multiset(s[lo..hi]), multiset(t[lo..hi]));
  }

  lemma FromRange<T>(s: seq<T>, t: seq<T>, lo: int, hi: int, k: int)
    requires 0 <= lo <= k < hi <= |s| && Rearranged(s, t, lo, hi)
    ensures exists l :: lo <= l < hi && s[l] == t[k]
  {
    RearrangedRange(s, t, lo, hi);
    assert t[lo..hi][k - lo] in multiset(t[lo..hi]);
    assert t[k] in multiset(s[lo..hi]);
    var l :| 0 <= l < |s[lo..hi]| && s[lo..hi][l] == t[k];
    assert s[lo + l] == t[k];
  }

  /** med3: the index of a median of three elements. */
  function Med3<T>(s: seq<T>, a: nat, b: nat, c: nat, cmp: (T, T) -> int): (m: nat)
    requires a < |s| && b < |s| && c < |s|
    ensures m == a || m == b || m == c
  {
    if cmp(s[a], s[b]) < 0 then
      if cmp(s[b], s[c]) < 0 then b else if cmp(s[a], s[c]) < 0 then c else a
    else
      if cmp(s[b], s[c]) > 0 then b else if cmp(s[a], s[c]) < 0 then a else c
  }

  /** One of the other two is not above it, the other not below. */
  lemma Med3IsMedian<T(!new)>(s: seq<T>, a: nat, b: nat, c: nat, cmp: (T, T) -> int)
    requires a < |s| && b < |s| && c < |s| && Preorder(cmp)
    ensures var m := Med3(s, a, b, c, cmp);
            var (p, q) := if m == a then (b, c) else if m == b then (a, c) else (a, b);
            (cmp(s[p], s[m]) <= 0 <= cmp(s[q], s[m])) || (cmp(s[q], s[m]) <= 0 <= cmp(s[p], s[m]))
  {
    hide Preorder;
    Flip(cmp, s[a], s[b]);
    Flip(cmp, s[b], s[c]);
    Flip(cmp, s[a], s[c]);
    Flip(cmp, s[a], s[a]);
    Flip(cmp, s[b], s[b]);
    Flip(cmp, s[c], s[c]);
  }

  method Swap<T>(a: array<T>, i: nat, j: nat, ghost lo: int, ghost hi: int)
    requires i < a.Length && j < a.Length && lo <= i < hi && lo <= j < hi
    modifies a
    ensures a[..] == old(a[..])[i := old(a[j])][j := old(a[i])]
    ensures Rearranged(old(a[..]), a[..], lo, hi)
  {
    a[i], a[j] := a[j], a[i];
  }

  ghost predicate Exchanged<T>(s: seq<T>, t: seq<T>, i: nat, j: nat, n: nat) {
    && |s| == |t| && i + n <= j && j + n <= |s|
    && (forall k :: i <= k < i + n ==> t[k] == s[k - i + j])
    && (forall k :: j <= k < j + n ==> t[k] == s[k - j + i])
    && (forall k :: 0 <= k < |s| && !(i <= k < i + n) && !(j <= k < j + n) ==> t[k] == s[k])
  }

  lemma ExchangeStep<T>(s: seq<T>, t: seq<T>, i: nat, j: nat, n: nat)
    requires Exchanged(s, t, i, j, n) && i + n + 1 <= j && j + n + 1 <= |s|
    ensures Exchanged(s, t[i + n := t[j + n]][j + n := t[i + n]], i, j, n + 1)
  {
  }

  /** vecswap: exchanges two disjoint ranges of n elements. */
  method VecSwap<T>(a: array<T>, i: nat, j: nat, n: nat, ghost lo: int, ghost hi: int)
    requires i + n <= j && j + n <= a.Length && lo <= i && j + n <= hi
    modifies a
    ensures Rearranged(old(a[..]), a[..], lo, hi)
    ensures Exchanged(old(a[..]), a[..], i, j, n)
  {
    ghost var s0 := a[..];
    var k := 0;
    while k < n
      invariant 0 <= k <= n && Rearranged(s0, a[..], lo, hi) && Exchanged(s0, a[..], i, j, k)
    {
      hide Rearranged, Exchanged;
      ghost var s := a[..];
      ExchangeStep(s0, s, i, j, k);
      Swap(a, i + k, j + k, lo, hi);
      RearrangedTrans(s0, s, a[..], lo, hi);
      k := k + 1;
    }
  }

  // ----- insertion sort ----------------------------------------------------

  /** lo..pm is sorted, except that the element at pl may be too large for its place. */
  ghost predicate Sinking<T>(cmp: (T, T) -> int, s: seq<T>, lo: int, pm: int, pl: int)
    requires 0 <= lo <= pl <= pm < |s|
  {
    forall i, j :: lo <= i < j <= pm && j != pl ==> cmp(s[i], s[j]) <= 0
  }

  lemma SinkStart<T>(cmp: (T, T) -> int, s: seq<T>, lo: int, pm: int)
    requires 0 <= lo <= pm < |s| && Sorted(cmp, s, lo, pm)
    ensures Sinking(cmp, s, lo, pm, pm)
  {
  }

  lemma SinkStep<T(!new)>(cmp: (T, T) -> int, s: seq<T>, lo: int, pm: int, pl: int)
    requires 0 <= lo < pl <= pm < |s| && Sinking(cmp, s, lo, pm, pl) && cmp(s[pl - 1], s[pl]) > 0 && Preorder(cmp)
    ensures Sinking(cmp, s[pl := s[pl - 1]][pl - 1 := s[pl]], lo, pm, pl - 1)
  {
    hide Preorder;
    Flip(cmp, s[pl - 1], s[pl]);
    Flip(cmp, s[pl], s[pl - 1]);
  }

  lemma SinkDone<T(!new)>(cmp: (T, T) -> int, s: seq<T>, lo: int, pm: int, pl: int)
    requires 0 <= lo <= pl <= pm < |s| && Sinking(cmp, s, lo, pm, pl) && Preorder(cmp)
    requires pl > lo ==> cmp(s[pl - 1], s[pl]) <= 0
    ensures Sorted(cmp, s, lo, pm + 1)
  {
    hide Preorder;
    forall i | lo <= i < pl
      ensures cmp(s[i], s[pl]) <= 0
    {
      if i < pl - 1 { Chain(cmp, s[i], s[pl - 1], s[pl]); }
    }
  }

  /** The insertion sort used on short ranges and on ranges that needed no swap. */
  method InsertionSort<T(!new)>(a: array<T>, lo: nat, n: nat, cmp: (T, T) -> int)
    requires lo + n <= a.Length && Preorder(cmp)
    modifies a
    ensures Sorted(cmp, a[..], lo, lo + n)
    ensures Rearranged(old(a[..]), a[..], lo, lo + n)
  {
    hide Preorder;
    if n == 0 {
      return;
    }
    ghost var s0 := a[..];
    var pm := lo + 1;
    while pm < lo + n
      invariant lo + 1 <= pm <= lo + n
      invariant Rearranged(s0, a[..], lo, lo + n) && Sorted(cmp, a[..], lo, pm)
    {
      pm := SinkIn(s0, a, lo, n, cmp, pm);
    }
  }

  /** One round of it: the element at `pl` changes places with the one before. */
  method SinkOne<T(!new)>(ghost s0: seq<T>, a: array<T>, ghost lo: nat, ghost n: nat, ghost cmp: (T, T) -> int,
                          ghost pm: nat, pl: nat)
    requires lo + n <= a.Length && Preorder(cmp) && lo < pl <= pm < lo + n && cmp(a[pl - 1], a[pl]) > 0
    requires Rearranged(s0, a[..], lo, lo + n) && Sinking(cmp, a[..], lo, pm, pl)
    modifies a
    ensures Rearranged(s0, a[..], lo, lo + n) && Sinking(cmp, a[..], lo, pm, pl - 1)
  {
    hide Preorder, Rearranged, Sinking;
    ghost var s := a[..];
    SinkStep(cmp, s, lo, pm, pl);
    Swap(a, pl, pl - 1, lo, lo + n);
    RearrangedTrans(s0, s, a[..], lo, lo + n);
  }

  /** The inner loop of the insertion sort. */
  method SinkIn<T(!new)>(ghost s0: seq<T>, a: array<T>, lo: nat, n: nat, cmp: (T, T) -> int, pm: nat)
    returns (next: nat)
    requires lo + n <= a.Length && Preorder(cmp) && lo < pm < lo + n
    requires Rearranged(s0, a[..], lo, lo + n) && Sorted(cmp, a[..], lo, pm)
    modifies a
    ensures next == pm + 1 && Rearranged(s0, a[..], lo, lo + n) && Sorted(cmp, a[..], lo, pm + 1)
  {
    hide Preorder, Rearranged, Sinking, Sorted;
    var pl := pm;
    SinkStart(cmp, a[..], lo, pm);
    while pl > lo && cmp(a[pl - 1], a[pl]) > 0
      invariant lo <= pl <= pm
      invariant Rearranged(s0, a[..], lo, lo + n) && Sinking(cmp, a[..], lo, pm, pl)
    {
      SinkOne(s0, a, lo, n, cmp, pm, pl);
      pl := pl - 1;
    }
    SinkDone(cmp, a[..], lo, pm, pl);
    next := pm + 1;
  }

  // ----- partitioning ------------------------------------------------------

  /** lo..pa-1 and pd+1..hi-1 equal the pivot v, pa..pb-1 are below it, pc+1..pd above. */
  ghost predicate Parted<T>(cmp: (T, T) -> int, s: seq<T>, v: T, lo: int, hi: int, pa: int, pb: int, pc: int, pd: int) {
    && 0 <= lo < pa <= pb <= pc + 1 && pc <= pd < hi <= |s|
    && (forall k :: lo <= k < pa ==> cmp(s[k], v) == 0)
    && (forall k :: pa <= k < pb ==> cmp(s[k], v) < 0)
    && (forall k :: pc < k <= pd ==> cmp(s[k], v) > 0)
    && (forall k :: pd < k < hi ==> cmp(s[k], v) == 0)
  }

  lemma UpStep<T>(cmp: (T, T) -> int, s: seq<T>, v: T, lo: int, hi: int, pa: int, pb: int, pc: int, pd: int)
    requires Parted(cmp, s, v, lo, hi, pa, pb, pc, pd) && pb <= pc && cmp(s[pb], v) <= 0
    ensures cmp(s[pb], v) < 0 ==> Parted(cmp, s, v, lo, hi, pa, pb + 1, pc, pd)
    ensures cmp(s[pb], v) == 0 ==> Parted(cmp, s[pa := s[pb]][pb := s[pa]], v, lo, hi, pa + 1, pb + 1, pc, pd)
  {
  }

  lemma DownStep<T>(cmp: (T, T) -> int, s: seq<T>, v: T, lo: int, hi: int, pa: int, pb: int, pc: int, pd: int)
    requires Parted(cmp, s, v, lo, hi, pa, pb, pc, pd) && pb <= pc && cmp(s[pc], v) >= 0
    ensures cmp(s[pc], v) > 0 ==> Parted(cmp, s, v, lo, hi, pa, pb, pc - 1, pd)
    ensures cmp(s[pc], v) == 0 ==> Parted(cmp, s[pc := s[pd]][pd := s[pc]], v, lo, hi, pa, pb, pc - 1, pd - 1)
  {
  }

  lemma CrossStep<T>(cmp: (T, T) -> int, s: seq<T>, v: T, lo: int, hi: int, pa: int, pb: int, pc: int, pd: int)
    requires Parted(cmp, s, v, lo, hi, pa, pb, pc, pd) && pb < pc && cmp(s[pb], v) > 0 && cmp(s[pc], v) < 0
    ensures Parted(cmp, s[pb := s[pc]][pc := s[pb]], v, lo, hi, pa, pb + 1, pc - 1, pd)
  {
  }

  /** The first inner loop of the partition. */
  method ScanUp<T(!new)>(ghost s0: seq<T>, a: array<T>, lo: nat, ghost hi: nat, cmp: (T, T) -> int, ghost v: T,
                         pa0: nat, pb0: nat, pc: int, ghost pd: int)
    returns (pa: nat, pb: nat, swapped: bool)
    requires hi <= a.Length && Rearranged(s0, a[..], lo, hi)
    requires Parted(cmp, a[..], v, lo, hi, pa0, pb0, pc, pd) && a[lo] == v
    modifies a
    ensures Rearranged(s0, a[..], lo, hi) && Parted(cmp, a[..], v, lo, hi, pa, pb, pc, pd) && a[lo] == v
    ensures pb > pc || cmp(a[pb], v) > 0
    ensures pb >= pb0
  {
    hide Rearranged;
    pa, pb, swapped := pa0, pb0, false;
    while pb <= pc && cmp(a[pb], a[lo]) <= 0
      invariant pb0 <= pb && Rearranged(s0, a[..], lo, hi) && Parted(cmp, a[..], v, lo, hi, pa, pb, pc, pd)
                && a[lo] == v
      decreases pc - pb
    {
      ghost var s := a[..];
      UpStep(cmp, s, v, lo, hi, pa, pb, pc, pd);
      if cmp(a[pb], a[lo]) == 0 {
        swapped := true;
        Swap(a, pa, pb, lo, hi);
        RearrangedTrans(s0, s, a[..], lo, hi);
        pa := pa + 1;
      }
      pb := pb + 1;
    }
  }

  /** The second inner loop of the partition. */
  method ScanDown<T(!new)>(ghost s0: seq<T>, a: array<T>, lo: nat, ghost hi: nat, cmp: (T, T) -> int, ghost v: T,
                           ghost pa: nat, pb: nat, pc0: int, pd0: int)
    returns (pc: int, pd: int, swapped: bool)
    requires hi <= a.Length && Rearranged(s0, a[..], lo, hi)
    requires Parted(cmp, a[..], v, lo, hi, pa, pb, pc0, pd0) && a[lo] == v
    requires pb > pc0 || cmp(a[pb], v) > 0
    modifies a
    ensures Rearranged(s0, a[..], lo, hi) && Parted(cmp, a[..], v, lo, hi, pa, pb, pc, pd) && a[lo] == v
    ensures pb > pc || (cmp(a[pb], v) > 0 && cmp(a[pc], v) < 0)
    ensures pc <= pc0
  {
    hide Rearranged;
    pc, pd, swapped := pc0, pd0, false;
    while pb <= pc && cmp(a[pc], a[lo]) >= 0
      invariant pc <= pc0 && Rearranged(s0, a[..], lo, hi) && Parted(cmp, a[..], v, lo, hi, pa, pb, pc, pd)
                && a[lo] == v
      invariant pb > pc || cmp(a[pb], v) > 0
      decreases pc - pb
    {
      ghost var s := a[..];
      DownStep(cmp, s, v, lo, hi, pa, pb, pc, pd);
      if cmp(a[pc], a[lo]) == 0 {
        swapped := true;
        Swap(a, pc, pd, lo, hi);
        RearrangedTrans(s0, s, a[..], lo, hi);
        pd := pd - 1;
      }
      pc := pc - 1;
    }
  }

  /** The pivot's index: the middle, the median of three, or the median of three medians. */
  function Pivot<T>(s: seq<T>, lo: nat, n: nat, cmp: (T, T) -> int): (m: nat)
    requires 7 <= n && lo + n <= |s|
    ensures lo <= m < lo + n
  {
    var mid := lo + n / 2;
    if n == 7 then mid
    else if n <= 40 then Med3(s, lo, mid, lo + n - 1, cmp)
    else
      var d := n / 8;
      Med3(s, Med3(s, lo, lo + d, lo + 2 * d, cmp), Med3(s, mid - d, mid, mid + d, cmp),
           Med3(s, lo + n - 1 - 2 * d, lo + n - 1 - d, lo + n - 1, cmp), cmp)
  }

  /** A larger element on the left and a smaller one on the right change places. */
  method Cross<T(!new)>(ghost s0: seq<T>, a: array<T>, ghost lo: nat, ghost hi: nat, ghost cmp: (T, T) -> int,
                        ghost v: T, ghost pa: nat, pb: nat, pc: int, ghost pd: int)
    requires hi <= a.Length && Rearranged(s0, a[..], lo, hi) && lo < pb < pc < hi
    requires Parted(cmp, a[..], v, lo, hi, pa, pb, pc, pd) && a[lo] == v && cmp(a[pb], v) > 0 && cmp(a[pc], v) < 0
    modifies a
    ensures Rearranged(s0, a[..], lo, hi) && Parted(cmp, a[..], v, lo, hi, pa, pb + 1, pc - 1, pd) && a[lo] == v
  {
    hide Rearranged, Parted;
    ghost var s := a[..];
    CrossStep(cmp, s, v, lo, hi, pa, pb, pc, pd);
    Swap(a, pb, pc, lo, hi);
    RearrangedTrans(s0, s, a[..], lo, hi);
  }

  /** Pivot and the two scanning loops, up to the point where they meet. */
  method Split<T(!new)>(a: array<T>, lo: nat, n: nat, cmp: (T, T) -> int)
    returns (pa: nat, pb: nat, pc: int, pd: int, swapped: bool, ghost v: T)
    requires 7 <= n && lo + n <= a.Length && Preorder(cmp)
    modifies a
    ensures Rearranged(old(a[..]), a[..], lo, lo + n)
    ensures Parted(cmp, a[..], v, lo, lo + n, pa, pb, pc, pd) && pb == pc + 1
  {
    hide Rearranged, Pivot, Preorder, Parted;
    ghost var s0 := a[..];
    var pm := Pivot(a[..], lo, n, cmp);
    Swap(a, lo, pm, lo, lo + n);
    v := a[lo];
    pa, pb, pc, pd, swapped := lo + 1, lo + 1, lo + n - 1, lo + n - 1, false;
    PartedStart(cmp, a[..], lo, n);
    while true
      invariant Rearranged(s0, a[..], lo, lo + n)
      invariant Parted(cmp, a[..], v, lo, lo + n, pa, pb, pc, pd) && a[lo] == v
      decreases pc - pb
    {
      ghost var gap := pc - pb;
      PartedBounds(cmp, a[..], v, lo, lo + n, pa, pb, pc, pd);
      var sw;
      pa, pb, sw := ScanUp(s0, a, lo, lo + n, cmp, v, pa, pb, pc, pd);
      swapped := swapped || sw;
      pc, pd, sw := ScanDown(s0, a, lo, lo + n, cmp, v, pa, pb, pc, pd);
      swapped := swapped || sw;
      PartedBounds(cmp, a[..], v, lo, lo + n, pa, pb, pc, pd);
      if pb > pc {
        break;
      }
      Cross(s0, a, lo, lo + n, cmp, v, pa, pb, pc, pd);
      swapped := true;
      pb, pc := pb + 1, pc - 1;
    }
  }

  lemma PartedStart<T(!new)>(cmp: (T, T) -> int, s: seq<T>, lo: nat, n: nat)
    requires 1 < n && lo + n <= |s| && Preorder(cmp)
    ensures Parted(cmp, s, s[lo], lo, lo + n, lo + 1, lo + 1, lo + n - 1, lo + n - 1)
  {
    hide Preorder;
    Flip(cmp, s[lo], s[lo]);
  }

  lemma PartedBounds<T>(cmp: (T, T) -> int, s: seq<T>, v: T, lo: int, hi: int, pa: int, pb: int, pc: int, pd: int)
    requires Parted(cmp, s, v, lo, hi, pa, pb, pc, pd)
    ensures 0 <= lo < pa <= pb <= pc + 1 && pc <= pd < hi <= |s|
    ensures pb <= pc && cmp(s[pb], v) > 0 && cmp(s[pc], v) < 0 ==> pb < pc
  {
  }

  /** d1 elements below the pivot, then those equal to it, then d2 elements above it. */
  ghost predicate Gathered<T>(cmp: (T, T) -> int, s: seq<T>, v: T, lo: int, hi: int, d1: int, d2: int) {
    && 0 <= d1 && 0 <= d2 && 0 <= lo && lo + d1 <= hi - d2 && hi <= |s|
    && (forall k :: lo <= k < lo + d1 ==> cmp(s[k], v) < 0)
    && (forall k :: lo + d1 <= k < hi - d2 ==> cmp(s[k], v) == 0)
    && (forall k :: hi - d2 <= k < hi ==> cmp(s[k], v) > 0)
  }

  lemma GatherLeft<T>(cmp: (T, T) -> int, s: seq<T>, t: seq<T>, v: T, lo: int, hi: int, pa: int, pb: int, pc: int,
                      pd: int)
    requires Parted(cmp, s, v, lo, hi, pa, pb, pc, pd) && pb == pc + 1
    requires var d := Min(pa - lo, pb - pa); Exchanged(s, t, lo, pb - d, d)
    ensures forall k :: lo <= k < lo + (pb - pa) ==> cmp(t[k], v) < 0
    ensures forall k :: lo + (pb - pa) <= k < pb ==> cmp(t[k], v) == 0
    ensures forall k :: pb <= k < hi ==> t[k] == s[k]
  {
  }

  lemma GatherRight<T>(cmp: (T, T) -> int, s: seq<T>, t: seq<T>, u: seq<T>, v: T, lo: int, hi: int, pa: int, pb: int,
                       pc: int, pd: int)
    requires Parted(cmp, s, v, lo, hi, pa, pb, pc, pd) && pb == pc + 1 && |t| == |s|
    requires forall k :: lo <= k < lo + (pb - pa) ==> cmp(t[k], v) < 0
    requires forall k :: lo + (pb - pa) <= k < pb ==> cmp(t[k], v) == 0
    requires forall k :: pb <= k < hi ==> t[k] == s[k]
    requires var d := Min(pd - pc, hi - pd - 1); Exchanged(t, u, pb, hi - d, d)
    ensures Gathered(cmp, u, v, lo, hi, pb - pa, pd - pc)
  {
  }

  /** The two vecswaps: the elements equal to the pivot move from both ends to the middle. */
  method Gather<T(!new)>(a: array<T>, lo: nat, n: nat, pa: int, pb: int, pc: int, pd: int, ghost cmp: (T, T) -> int,
                         ghost v: T)
    requires lo + n <= a.Length && Parted(cmp, a[..], v, lo, lo + n, pa, pb, pc, pd) && pb == pc + 1
    modifies a
    ensures Rearranged(old(a[..]), a[..], lo, lo + n)
    ensures 0 <= pb - pa && 0 <= pd - pc && Gathered(cmp, a[..], v, lo, lo + n, pb - pa, pd - pc)
  {
    hide Rearranged, Parted, Exchanged, Gathered;
    ghost var s := a[..];
    PartedBounds(cmp, s, v, lo, lo + n, pa, pb, pc, pd);
    var d := Min(pa - lo, pb - pa);
    VecSwap(a, lo, pb - d, d, lo, lo + n);
    ghost var t := a[..];
    GatherLeft(cmp, s, t, v, lo, lo + n, pa, pb, pc, pd);
    d := Min(pd - pc, lo + n - pd - 1);
    VecSwap(a, pb, lo + n - d, d, lo, lo + n);
    GatherRight(cmp, s, t, a[..], v, lo, lo + n, pa, pb, pc, pd);
    RearrangedTrans(s, t, a[..], lo, lo + n);
  }

  /** The partition step as a whole. Without a swap nothing is promised but that elements
      were at most rearranged: the caller then falls back on insertion sort. */
  method Partition<T(!new)>(a: array<T>, lo: nat, n: nat, cmp: (T, T) -> int)
    returns (d1: nat, d2: nat, swapped: bool, ghost v: T)
    requires 7 <= n && lo + n <= a.Length && Preorder(cmp)
    modifies a
    ensures Rearranged(old(a[..]), a[..], lo, lo + n)
    ensures swapped ==> Gathered(cmp, a[..], v, lo, lo + n, d1, d2) && d1 + d2 < n
  {
    hide Rearranged, Preorder, Parted, Gathered;
    var pa, pb, pc, pd;
    pa, pb, pc, pd, swapped, v := Split(a, lo, n, cmp);
    d1, d2 := 0, 0;
    if !swapped {
      return;
    }
    ghost var s := a[..];
    PartedBounds(cmp, s, v, lo, lo + n, pa, pb, pc, pd);
    Gather(a, lo, n, pa, pb, pc, pd, cmp, v);
    RearrangedTrans(old(a[..]), s, a[..], lo, lo + n);
    d1, d2 := pb - pa, pd - pc;
  }

  // ----- the sort ----------------------------------------------------------

  /** All pairs in LO..HI-1 are in order, except pairs inside lo..hi-1. */
  ghost predicate SortedExcept<T>(cmp: (T, T) -> int, s: seq<T>, LO: int, HI: int, lo: int, hi: int) {
    && 0 <= LO <= lo <= hi <= HI <= |s|
    && forall i, j :: LO <= i < j < HI && !(lo <= i && j < hi) ==> cmp(s[i], s[j]) <= 0
  }

  lemma KeepOutside<T>(cmp: (T, T) -> int, s: seq<T>, t: seq<T>, LO: int, HI: int, lo: int, hi: int)
    requires SortedExcept(cmp, s, LO, HI, lo, hi) && Rearranged(s, t, lo, hi)
    ensures SortedExcept(cmp, t, LO, HI, lo, hi)
  {
    forall i, j | LO <= i < j < HI && !(lo <= i && j < hi)
      ensures cmp(t[i], t[j]) <= 0
    {
      if lo <= i < hi {
        FromRange(s, t, lo, hi, i);
        var l :| lo <= l < hi && s[l] == t[i];
        assert t[j] == s[j];
      } else if lo <= j < hi {
        FromRange(s, t, lo, hi, j);
        var l :| lo <= l < hi && s[l] == t[j];
        assert t[i] == s[i];
      }
    }
  }

  lemma Narrow<T>(cmp: (T, T) -> int, s: seq<T>, LO: int, HI: int, lo: int, hi: int, lo': int, hi': int)
    requires SortedExcept(cmp, s, LO, HI, lo, hi) && SortedExcept(cmp, s, lo, hi, lo', hi')
    ensures SortedExcept(cmp, s, LO, HI, lo', hi')
  {
  }

  lemma Finished<T>(cmp: (T, T) -> int, s: seq<T>, LO: int, HI: int, lo: int, hi: int)
    requires SortedExcept(cmp, s, LO, HI, lo, hi) && Sorted(cmp, s, lo, hi)
    ensures Sorted(cmp, s, LO, HI)
  {
  }

  /** A partition whose two outer parts are left is in order outside of them. */
  lemma PartsInOrder<T(!new)>(cmp: (T, T) -> int, s: seq<T>, v: T, lo: int, hi: int, d1: int, d2: int)
    requires Gathered(cmp, s, v, lo, hi, d1, d2) && Preorder(cmp)
    ensures forall i, j :: lo <= i < j < hi && !(j < lo + d1) && !(hi - d2 <= i) ==> cmp(s[i], s[j]) <= 0
  {
    hide Preorder;
    forall i, j | lo <= i < j < hi && !(j < lo + d1) && !(hi - d2 <= i)
      ensures cmp(s[i], s[j]) <= 0
    {
      Flip(cmp, v, s[j]);
      Flip(cmp, s[j], v);
      Chain(cmp, s[i], v, s[j]);
    }
  }

  lemma StillGathered<T>(cmp: (T, T) -> int, s: seq<T>, t: seq<T>, v: T, lo: int, hi: int, d1: int, d2: int, left: bool)
    requires Gathered(cmp, s, v, lo, hi, d1, d2)
    requires if left then Rearranged(s, t, lo, lo + d1) else Rearranged(s, t, hi - d2, hi)
    ensures Gathered(cmp, t, v, lo, hi, d1, d2)
  {
    forall k | lo <= k < hi
      ensures cmp(t[k], v) < 0 <==> k < lo + d1
      ensures cmp(t[k], v) > 0 <==> k >= hi - d2
    {
      if left && k < lo + d1 {
        FromRange(s, t, lo, lo + d1, k);
      } else if !left && k >= hi - d2 {
        FromRange(s, t, hi - d2, hi, k);
      }
    }
  }

  lemma LeftDone<T(!new)>(cmp: (T, T) -> int, s: seq<T>, v: T, lo: int, hi: int, d1: int, d2: int)
    requires Gathered(cmp, s, v, lo, hi, d1, d2) && Preorder(cmp) && Sorted(cmp, s, lo, lo + d1)
    ensures SortedExcept(cmp, s, lo, hi, hi - d2, hi)
  {
    PartsInOrder(cmp, s, v, lo, hi, d1, d2);
  }

  lemma RightDone<T(!new)>(cmp: (T, T) -> int, s: seq<T>, v: T, lo: int, hi: int, d1: int, d2: int)
    requires Gathered(cmp, s, v, lo, hi, d1, d2) && Preorder(cmp) && Sorted(cmp, s, hi - d2, hi)
    ensures SortedExcept(cmp, s, lo, hi, lo, lo + d1)
  {
    PartsInOrder(cmp, s, v, lo, hi, d1, d2);
  }

  /** local_qsort: a sorted permutation of the range. Only the smaller part is sorted by
      recursion: a call within a call has one level less left, and `depth` levels are enough
      for any range of fewer than 2^depth elements. */
  method LocalQsort<T(!new)>(ghost depth: nat, a: array<T>, lo0: nat, n0: nat, cmp: (T, T) -> int)
    requires lo0 + n0 <= a.Length && Preorder(cmp) && n0 < Pow2(depth)
    modifies a
    ensures Sorted(cmp, a[..], lo0, lo0 + n0)
    ensures Rearranged(old(a[..]), a[..], lo0, lo0 + n0)
    decreases depth, 3
  {
    if n0 < 2 {
      return;
    }
    hide Preorder, Rearranged, Sorted, SortedExcept, Gathered;
    ghost var s0, hi0 := a[..], lo0 + n0;
    var lo, n := lo0, n0;
    AllOpen(cmp, s0, lo, n);
    var more := true;
    while more
      invariant lo0 <= lo && lo + n <= hi0 && Rearranged(s0, a[..], lo0, hi0)
      invariant more ==> 2 <= n && SortedExcept(cmp, a[..], lo0, hi0, lo, lo + n)
      invariant !more ==> Sorted(cmp, a[..], lo0, hi0)
      decreases more, n
    {
      lo, n, more := Round(depth, s0, a, lo0, n0, lo, n, cmp);
    }
  }

  lemma AllOpen<T>(cmp: (T, T) -> int, s: seq<T>, lo: nat, n: nat)
    requires lo + n <= |s|
    ensures SortedExcept(cmp, s, lo, lo + n, lo, lo + n) && Rearranged(s, s, lo, lo + n)
  {
  }

  /** One pass of the loop of local_qsort: either the range is sorted afterwards, or one
      smaller range remains. */
  method Round<T(!new)>(ghost depth: nat, ghost s0: seq<T>, a: array<T>, ghost lo0: nat, ghost n0: nat, lo: nat, n: nat,
                        cmp: (T, T) -> int)
    returns (lo': nat, n': nat, more: bool)
    requires lo0 + n0 <= a.Length && Preorder(cmp) && n0 < Pow2(depth) && lo0 <= lo && lo + n <= lo0 + n0 && 2 <= n
    requires Rearranged(s0, a[..], lo0, lo0 + n0) && SortedExcept(cmp, a[..], lo0, lo0 + n0, lo, lo + n)
    modifies a
    ensures Rearranged(s0, a[..], lo0, lo0 + n0)
    ensures lo0 <= lo' && lo' + n' <= lo0 + n0
    ensures more ==> 2 <= n' < n && SortedExcept(cmp, a[..], lo0, lo0 + n0, lo', lo' + n')
    ensures !more ==> Sorted(cmp, a[..], lo0, lo0 + n0)
    decreases depth, 2
  {
    hide Preorder, Rearranged, Sorted, SortedExcept, Gathered;
    lo', n', more := lo, n, false;
    ghost var s := a[..];
    if n < 7 {
      InsertionSort(a, lo, n, cmp);
      InPlace(cmp, s0, s, a[..], lo0, n0, lo, n);
      Finished(cmp, a[..], lo0, lo0 + n0, lo, lo + n);
      return;
    }
    var d1, d2, swapped;
    ghost var v;
    d1, d2, swapped, v := Partition(a, lo, n, cmp);
    ghost var t := a[..];
    InPlace(cmp, s0, s, t, lo0, n0, lo, n);
    if !swapped {
      InsertionSort(a, lo, n, cmp);
      InPlace(cmp, s0, t, a[..], lo0, n0, lo, n);
      Finished(cmp, a[..], lo0, lo0 + n0, lo, lo + n);
      return;
    }
    GatheredBounds(cmp, t, v, lo, lo + n, d1, d2);
    lo', n' := SortSmaller(depth, a, lo, n, d1, d2, cmp, v);
    InPlace(cmp, s0, t, a[..], lo0, n0, lo, n);
    Narrow(cmp, a[..], lo0, lo0 + n0, lo, lo + n, lo', lo' + n');
    more := n' > 1;
    if !more {
      Short(cmp, a[..], lo', n');
      Finished(cmp, a[..], lo0, lo0 + n0, lo', lo' + n');
    }
  }

  /** The smaller part of a partition has less than half of the elements. */
  lemma OneDeeper(depth: nat, m: nat, n: nat)
    requires 1 < m && 2 * m < n < Pow2(depth)
    ensures depth >= 1 && m < Pow2(depth - 1)
  {
  }

  /** Recursion on the smaller part of a partition; the larger part remains open. */
  method SortSmaller<T(!new)>(ghost depth: nat, a: array<T>, lo: nat, n: nat, d1: nat, d2: nat, cmp: (T, T) -> int,
                              ghost v: T)
    returns (lo': nat, n': nat)
    requires lo + n <= a.Length && Preorder(cmp) && n < Pow2(depth)
    requires Gathered(cmp, a[..], v, lo, lo + n, d1, d2) && d1 + d2 < n
    modifies a
    ensures lo <= lo' && lo' + n' <= lo + n && n' < n
    ensures Rearranged(old(a[..]), a[..], lo, lo + n) && SortedExcept(cmp, a[..], lo, lo + n, lo', lo' + n')
    decreases depth, 1
  {
    hide Preorder, Rearranged, SortedExcept, Gathered;
    if d1 <= d2 {
      SortLeft(depth, a, lo, n, d1, d2, cmp, v);
      lo', n' := lo + n - d2, d2;
    } else {
      SortRight(depth, a, lo, n, d1, d2, cmp, v);
      lo', n' := lo, d1;
    }
  }

  method SortLeft<T(!new)>(ghost depth: nat, a: array<T>, lo: nat, n: nat, d1: nat, ghost d2: nat, cmp: (T, T) -> int,
                           ghost v: T)
    requires lo + n <= a.Length && Preorder(cmp) && n < Pow2(depth)
    requires Gathered(cmp, a[..], v, lo, lo + n, d1, d2) && d1 <= d2 && d1 + d2 < n
    modifies a
    ensures Rearranged(old(a[..]), a[..], lo, lo + n) && SortedExcept(cmp, a[..], lo, lo + n, lo + n - d2, lo + n)
    decreases depth, 0
  {
    hide Preorder, Rearranged, Sorted, SortedExcept, Gathered, Pow2;
    ghost var t := a[..];
    Short(cmp, t, lo, d1);
    if d1 > 1 {
      OneDeeper(depth, d1, n);
      LocalQsort(depth - 1, a, lo, d1, cmp);
    }
    StillGathered(cmp, t, a[..], v, lo, lo + n, d1, d2, true);
    LeftDone(cmp, a[..], v, lo, lo + n, d1, d2);
    RearrangedWiden(t, a[..], lo, lo + d1, lo, lo + n);
  }

  method SortRight<T(!new)>(ghost depth: nat, a: array<T>, lo: nat, n: nat, ghost d1: nat, d2: nat, cmp: (T, T) -> int,
                            ghost v: T)
    requires lo + n <= a.Length && Preorder(cmp) && n < Pow2(depth)
    requires Gathered(cmp, a[..], v, lo, lo + n, d1, d2) && d2 < d1 && d1 + d2 < n
    modifies a
    ensures Rearranged(old(a[..]), a[..], lo, lo + n) && SortedExcept(cmp, a[..], lo, lo + n, lo, lo + d1)
    decreases depth, 0
  {
    hide Preorder, Rearranged, Sorted, SortedExcept, Gathered, Pow2;
    ghost var t := a[..];
    Short(cmp, t, lo + n - d2, d2);
    if d2 > 1 {
      OneDeeper(depth, d2, n);
      LocalQsort(depth - 1, a, lo + n - d2, d2, cmp);
    }
    StillGathered(cmp, t, a[..], v, lo, lo + n, d1, d2, false);
    RightDone(cmp, a[..], v, lo, lo + n, d1, d2);
    RearrangedWiden(t, a[..], lo + n - d2, lo + n, lo, lo + n);
  }

  /** Rearranging inside the open range keeps everything around it. */
  lemma InPlace<T>(cmp: (T, T) -> int, s0: seq<T>, s: seq<T>, t: seq<T>, lo0: nat, n0: nat, lo: nat, n: nat)
    requires lo0 <= lo && lo + n <= lo0 + n0 <= |s|
    requires Rearranged(s0, s, lo0, lo0 + n0) && SortedExcept(cmp, s, lo0, lo0 + n0, lo, lo + n)
             && Rearranged(s, t, lo, lo + n)
    ensures Rearranged(s0, t, lo0, lo0 + n0) && SortedExcept(cmp, t, lo0, lo0 + n0, lo, lo + n)
  {
    hide Rearranged, SortedExcept;
    KeepOutside(cmp, s, t, lo0, lo0 + n0, lo, lo + n);
    RearrangedWiden(s, t, lo, lo + n, lo0, lo0 + n0);
    RearrangedTrans(s0, s, t, lo0, lo0 + n0);
  }

  lemma GatheredBounds<T>(cmp: (T, T) -> int, s: seq<T>, v: T, lo: int, hi: int, d1: int, d2: int)
    requires Gathered(cmp, s, v, lo, hi, d1, d2)
    ensures 0 <= d1 && 0 <= d2 && 0 <= lo && lo + d1 <= hi - d2 && hi <= |s|
  {
  }

  /** At most one element is sorted. */
  lemma Short<T>(cmp: (T, T) -> int, s: seq<T>, lo: nat, n: nat)
    requires lo + n <= |s|
    ensures n <= 1 ==> Sorted(cmp, s, lo, lo + n)
    ensures Rearranged(s, s, lo, lo + n)
  {
  }

  /** Levels of calls that `n` elements can need: 1 + floor(log2(n)). */
  ghost function Levels(n: nat): (r: nat)
    ensures n < Pow2(r) && (n > 0 ==> r > 0 && Pow2(r - 1) <= n)
  {
    if n == 0 then 0 else 1 + Levels(n / 2)
  }

  /** qsort */
  method Sort<T(!new)>(a: array<T>, cmp: (T, T) -> int)
    requires Preorder(cmp)
    modifies a
    ensures Sorted(cmp, a[..], 0, a.Length)
    ensures multiset(a[..]) == multiset(old(a[..]))
  {
    hide Preorder;
    LocalQsort(Levels(a.Length), a, 0, a.Length, cmp);
  }
}

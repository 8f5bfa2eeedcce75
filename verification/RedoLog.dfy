/** The on-disk redo log (kernel/log.c): images of the disk as a commit or a recovery
    writes it block by block, and what recovery makes of each image. */
module RedoLog {
  import opened Arithmetic
  import opened Blocks

  const MAXOPBLOCKS := 10
  const LOGSIZE := 30

  type Image = seq<Block>

  /** Where the superblock puts the log: header at `start`, log blocks behind it. */
  datatype Geometry = Geometry(start: nat, size: nat, nblocks: nat) {
    ghost predicate Valid() {
      1 <= size && start + size <= nblocks <= TWO64
    }

    /** `b` is a block of the file system proper, not of the log. */
    predicate Home(b: nat) {
      b < nblocks && !(start <= b < start + size)
    }
  }

  ghost predicate Distinct(s: seq<nat>) {
    forall i, j :: 0 <= i < j < |s| ==> s[i] != s[j]
  }

  /** `blk` can be the list of logged block numbers of one transaction. */
  ghost predicate Targets(g: Geometry, blk: seq<nat>) {
    && |blk| <= LOGSIZE
    && |blk| <= g.size - 1
    && Distinct(blk)
    && forall i :: 0 <= i < |blk| ==> g.Home(blk[i])
  }

  /** The header block after its first `k` entries and its count have been stored. */
  function PutHead(h: Block, blk: seq<nat>, k: nat): (r: Block)
    requires k <= |blk| <= LOGSIZE
  {
    if k == 0 then SetWord(h, 0, |blk|) else SetWord(PutHead(h, blk, k - 1), k, blk[k - 1])
  }

  /** The block numbers recorded in the header of an image. */
  function HeaderOf(g: Geometry, img: Image): (blk: seq<nat>)
    requires g.start < |img| && Word(img[g.start], 0) <= LOGSIZE
  {
    var h := img[g.start];
    seq(Word(h, 0), i requires 0 <= i < Word(h, 0) => Word(h, i + 1))
  }

  /** An image recovery can be started on. */
  ghost predicate Recoverable(g: Geometry, img: Image) {
    && g.Valid()
    && |img| == g.nblocks
    && Word(img[g.start], 0) <= LOGSIZE
    && Targets(g, HeaderOf(g, img))
  }

  /** The image after the first `k` iterations of `install_trans`. */
  function Install(g: Geometry, img: Image, blk: seq<nat>, k: nat): (r: Image)
    requires k <= |blk| < g.size && g.start + g.size <= |img|
    requires forall i :: 0 <= i < |blk| ==> blk[i] < |img|
    ensures |r| == |img|
    decreases k
  {
    if k == 0 then img
    else
      var r := Install(g, img, blk, k - 1);
      r[blk[k - 1] := r[g.start + k]]
  }

  /** The home blocks a completed recovery leaves, starting from `img`. */
  ghost function Recovered(g: Geometry, img: Image): (r: Image)
    requires Recoverable(g, img)
    ensures |r| == |img|
  {
    Install(g, img, HeaderOf(g, img), |HeaderOf(g, img)|)
  }

  /** The image after the first `k` iterations of `write_log`; `view` is what the
      buffer cache holds. */
  function Append(g: Geometry, img: Image, view: Image, blk: seq<nat>, k: nat): (r: Image)
    requires k <= |blk| < g.size && g.start + g.size <= |img| == |view|
    requires forall i :: 0 <= i < |blk| ==> blk[i] < |img|
    ensures |r| == |img|
    decreases k
  {
    if k == 0 then img
    else Append(g, img, view, blk, k - 1)[g.start + k := view[blk[k - 1]]]
  }

  /** The image after `write_head`. */
  function Seal(g: Geometry, img: Image, blk: seq<nat>): (r: Image)
    requires g.start < |img| && |blk| <= LOGSIZE
  {
    img[g.start := PutHead(img[g.start], blk, |blk|)]
  }

  /** The images that the first `k` log writes leave. */
  ghost function AppendImages(g: Geometry, img: Image, view: Image, blk: seq<nat>, k: nat): (r: seq<Image>)
    requires k <= |blk| < g.size && g.start + g.size <= |img| == |view|
    requires forall i :: 0 <= i < |blk| ==> blk[i] < |img|
    ensures |r| == k && forall i :: 0 <= i < k ==> r[i] == Append(g, img, view, blk, i + 1)
  {
    if k == 0 then [] else AppendImages(g, img, view, blk, k - 1) + [Append(g, img, view, blk, k)]
  }

  /** The images that the first `k` home writes leave. */
  ghost function InstallImages(g: Geometry, img: Image, blk: seq<nat>, k: nat): (r: seq<Image>)
    requires k <= |blk| < g.size && g.start + g.size <= |img|
    requires forall i :: 0 <= i < |blk| ==> blk[i] < |img|
    ensures |r| == k && forall i :: 0 <= i < k ==> r[i] == Install(g, img, blk, i + 1)
  {
    if k == 0 then [] else InstallImages(g, img, blk, k - 1) + [Install(g, img, blk, k)]
  }

  /** The images that a commit of `view` leaves, one for each of its writes. */
  ghost function CommitImages(g: Geometry, img: Image, view: Image, blk: seq<nat>): (r: seq<Image>)
    requires |blk| <= LOGSIZE && |blk| < g.size && g.start + g.size <= |img| == |view|
    requires forall i :: 0 <= i < |blk| ==> blk[i] < |img|
    ensures |r| == if blk == [] then 0 else 2 * |blk| + 2
  {
    if blk == [] then []
    else
      var sealed := Seal(g, Append(g, img, view, blk, |blk|), blk);
      AppendImages(g, img, view, blk, |blk|) + [sealed] + InstallImages(g, sealed, blk, |blk|)
        + [Seal(g, Install(g, sealed, blk, |blk|), [])]
  }

  ghost predicate SameHome(g: Geometry, a: Image, b: Image) {
    && |a| == |b| == g.nblocks
    && forall x: nat :: g.Home(x) ==> a[x] == b[x]
  }

  /** A machine that finds `img` on disk and recovers ends up with the home blocks of `target`. */
  ghost predicate RecoversTo(g: Geometry, img: Image, target: Image) {
    Recoverable(g, img) && SameHome(g, Recovered(g, img), target)
  }

  /** The same of every image in a list: a crash at any of these points. */
  ghost predicate AllRecoverTo(g: Geometry, imgs: seq<Image>, target: Image) {
    forall i :: 0 <= i < |imgs| ==> RecoversTo(g, imgs[i], target)
  }

  lemma {:induction false} PutHeadWords(h: Block, blk: seq<nat>, k: nat)
    requires k <= |blk| <= LOGSIZE
    requires forall i :: 0 <= i < |blk| ==> blk[i] < TWO64
    ensures Word(PutHead(h, blk, k), 0) == |blk|
    ensures forall i :: 0 <= i < k ==> Word(PutHead(h, blk, k), i + 1) == blk[i]
    decreases k
  {
    if k == 0 {
      SetWordReads(h, 0, |blk|);
    } else {
      PutHeadWords(h, blk, k - 1);
      SetWordReads(PutHead(h, blk, k - 1), k, blk[k - 1]);
    }
  }

  /** The header written by `write_head` is the header `read_head` reads back, for every list
      of numbers that fits it. */
  lemma HeaderRoundTrip(g: Geometry, img: Image, blk: seq<nat>)
    requires g.Valid() && |img| == g.nblocks && |blk| <= LOGSIZE && forall i :: 0 <= i < |blk| ==> blk[i] < TWO64
    ensures Word(Seal(g, img, blk)[g.start], 0) <= LOGSIZE
    ensures HeaderOf(g, Seal(g, img, blk)) == blk
    ensures Recoverable(g, Seal(g, img, blk)) <==> Targets(g, blk)
  {
    hide Word;
    PutHeadWords(img[g.start], blk, |blk|);
    assert HeaderOf(g, Seal(g, img, blk)) == blk;
  }

  lemma {:induction false} InstallEffect(g: Geometry, img: Image, blk: seq<nat>, k: nat)
    requires g.Valid() && |img| == g.nblocks && Targets(g, blk) && k <= |blk|
    ensures forall b: nat :: b < |img| && (forall i :: 0 <= i < k ==> blk[i] != b)
                             ==> Install(g, img, blk, k)[b] == img[b]
    ensures forall i :: 0 <= i < k ==> Install(g, img, blk, k)[blk[i]] == img[g.start + 1 + i]
    decreases k
  {
    hide Word;
    if k > 0 {
      InstallEffect(g, img, blk, k - 1);
      var r := Install(g, img, blk, k - 1);
      assert r[g.start + k] == img[g.start + k];
    }
  }

  lemma {:induction false} AppendEffect(g: Geometry, img: Image, view: Image, blk: seq<nat>, k: nat)
    requires g.Valid() && |img| == |view| == g.nblocks && Targets(g, blk) && k <= |blk|
    ensures forall b: nat :: b < |img| && !(g.start < b <= g.start + k)
                             ==> Append(g, img, view, blk, k)[b] == img[b]
    ensures forall i :: 0 <= i < k ==> Append(g, img, view, blk, k)[g.start + 1 + i] == view[blk[i]]
    decreases k
  {
    hide Word;
    if k > 0 {
      AppendEffect(g, img, view, blk, k - 1);
    }
  }

  /** What recovery makes of one home block. */
  lemma RecoveredAt(g: Geometry, img: Image, x: nat)
    requires Recoverable(g, img) && g.Home(x)
    ensures x !in HeaderOf(g, img) ==> Recovered(g, img)[x] == img[x]
    ensures forall i :: 0 <= i < |HeaderOf(g, img)| && HeaderOf(g, img)[i] == x
                        ==> Recovered(g, img)[x] == img[g.start + 1 + i]
  {
    hide Word;
    InstallEffect(g, img, HeaderOf(g, img), |HeaderOf(g, img)|);
  }

  /** An empty header: recovery changes nothing. */
  lemma RecoverEmpty(g: Geometry, img: Image)
    requires g.Valid() && |img| == g.nblocks && Word(img[g.start], 0) == 0
    ensures Recoverable(g, img) && Recovered(g, img) == img
  {
    hide Word;
    assert HeaderOf(g, img) == [];
  }

  /** Before the header write: however many log blocks are out, recovery restores the old disk. */
  lemma RecoverWhileAppending(g: Geometry, img: Image, view: Image, blk: seq<nat>, k: nat)
    requires g.Valid() && |img| == |view| == g.nblocks && Targets(g, blk) && k <= |blk|
    requires Word(img[g.start], 0) == 0
    ensures RecoversTo(g, Append(g, img, view, blk, k), img)
  {
    hide Word;
    AppendEffect(g, img, view, blk, k);
    RecoverEmpty(g, Append(g, img, view, blk, k));
  }

  /** `view` differs from the disk at most on the logged blocks. */
  ghost predicate Covered(g: Geometry, img: Image, view: Image, blk: seq<nat>) {
    && |img| == |view| == g.nblocks
    && forall b: nat :: g.Home(b) && b !in blk ==> view[b] == img[b]
  }

  /** The header write is the commit point: from here recovery yields the new contents. */
  lemma RecoverSealed(g: Geometry, img: Image, view: Image, blk: seq<nat>)
    requires g.Valid() && Targets(g, blk) && Covered(g, img, view, blk)
    ensures var full := Seal(g, Append(g, img, view, blk, |blk|), blk);
            RecoversTo(g, full, view) && HeaderOf(g, full) == blk
  {
    hide Word;
    var app := Append(g, img, view, blk, |blk|);
    var full := Seal(g, app, blk);
    AppendEffect(g, img, view, blk, |blk|);
    HeaderRoundTrip(g, app, blk);
    forall x: nat | g.Home(x)
      ensures Recovered(g, full)[x] == view[x]
    {
      hide Install, Recovered;
      RecoveredAt(g, full, x);
      if x in blk {
        var i :| 0 <= i < |blk| && blk[i] == x;
        assert full[g.start + 1 + i] == app[g.start + 1 + i];
      }
    }
  }

  /** While installing, recovery of the partly installed image gives the same result:
      replay is idempotent, so a crash inside recovery loses nothing. */
  lemma RecoverWhileInstalling(g: Geometry, img: Image, k: nat)
    requires Recoverable(g, img) && k <= |HeaderOf(g, img)|
    ensures var part := Install(g, img, HeaderOf(g, img), k);
            RecoversTo(g, part, Recovered(g, img)) && HeaderOf(g, part) == HeaderOf(g, img)
  {
    hide Word;
    var blk := HeaderOf(g, img);
    var part := Install(g, img, blk, k);
    InstallEffect(g, img, blk, k);
    assert part[g.start] == img[g.start];
    assert HeaderOf(g, part) == blk;
    forall x: nat | g.Home(x)
      ensures Recovered(g, part)[x] == Recovered(g, img)[x]
    {
      hide Install, Recovered;
      RecoveredAt(g, part, x);
      RecoveredAt(g, img, x);
      if x in blk {
        var i :| 0 <= i < |blk| && blk[i] == x;
        assert part[g.start + 1 + i] == img[g.start + 1 + i];
      }
    }
  }

  /** Erasing the header after a full install keeps the recovered contents. */
  lemma RecoverErased(g: Geometry, img: Image)
    requires Recoverable(g, img)
    ensures var done := Seal(g, Recovered(g, img), []);
            && RecoversTo(g, done, Recovered(g, img)) && SameHome(g, done, Recovered(g, img))
            && Word(done[g.start], 0) == 0
  {
    hide Word;
    var full := Recovered(g, img);
    HeaderRoundTrip(g, full, []);
    assert |HeaderOf(g, Seal(g, full, []))| == Word(Seal(g, full, [])[g.start], 0);
    RecoverEmpty(g, Seal(g, full, []));
  }

  /** `next` is what a crash at some moment of the recovery of `img` leaves: after `k` home
      blocks were installed, or after the header was erased. */
  ghost predicate LeftByCrash(g: Geometry, img: Image, next: Image) {
    Recoverable(g, img) ==>
      || next == Seal(g, Recovered(g, img), [])
      || exists k :: 0 <= k <= |HeaderOf(g, img)| && next == Install(g, img, HeaderOf(g, img), k)
  }

  /** Any number of crashes inside recovery, one after the other, cannot change the outcome. */
  lemma {:induction false} RepeatedCrashes(g: Geometry, imgs: seq<Image>, target: Image)
    requires |imgs| > 0 && RecoversTo(g, imgs[0], target)
    requires forall i, j :: 0 <= i < |imgs| && j == i + 1 < |imgs| ==> LeftByCrash(g, imgs[i], imgs[j])
    ensures RecoversTo(g, imgs[|imgs| - 1], target)
    decreases |imgs|
  {
    hide Word, Install;
    if |imgs| > 1 {
      var prev, last := imgs[|imgs| - 2], imgs[|imgs| - 1];
      RepeatedCrashes(g, imgs[..|imgs| - 1], target);
      assert imgs[..|imgs| - 1][|imgs| - 2] == prev;
      assert LeftByCrash(g, prev, last);
      if last == Seal(g, Recovered(g, prev), []) {
        RecoverErased(g, prev);
      } else {
        var k :| 0 <= k <= |HeaderOf(g, prev)| && last == Install(g, prev, HeaderOf(g, prev), k);
        RecoverWhileInstalling(g, prev, k);
      }
      assert RecoversTo(g, last, Recovered(g, prev));
    }
  }
}

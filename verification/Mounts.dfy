/** A mount table as a stack, with the meaning the install steps give to mount(8) and
    umount(8) (internal/disk/mount.go). Paths are lists of names. */
module Mounts {
  type Path = seq<string>

  /** What a mount shows: a block device, the opened LUKS mapper or neither. */
  datatype Dev = Block(path: string) | Mapper | Pseudo

  datatype Mount = Mount(dev: Dev, target: Path)

  predicate Under(dir: Path, path: Path) {
    dir <= path
  }

  predicate StrictlyUnder(dir: Path, path: Path) {
    dir <= path && dir != path
  }

  /** The topmost mount at exactly `path`, or -1. */
  function TopAt(ms: seq<Mount>, path: Path): (k: int)
    ensures -1 <= k < |ms|
    ensures k >= 0 ==> ms[k].target == path && forall j | k < j < |ms| :: ms[j].target != path
    ensures k < 0 ==> forall j | 0 <= j < |ms| :: ms[j].target != path
  {
    if ms == [] then -1
    else if ms[|ms| - 1].target == path then |ms| - 1
    else TopAt(ms[..|ms| - 1], path)
  }

  function Outside(ms: seq<Mount>, dir: Path): (r: seq<Mount>)
    ensures forall m :: m in r <==> m in ms && !Under(dir, m.target)
    ensures (forall m <- ms :: Under(dir, m.target)) ==> r == []
    ensures |r| <= |ms|
  {
    if ms == [] then []
    else
      var last := ms[|ms| - 1];
      assert ms == ms[..|ms| - 1] + [last];
      if Under(dir, last.target) then Outside(ms[..|ms| - 1], dir) else Outside(ms[..|ms| - 1], dir) + [last]
  }

  /** What `umount -R dir` leaves: the topmost mount at `dir` goes, and with it every later
      mount below it. */
  function WithoutTree(ms: seq<Mount>, dir: Path): seq<Mount>
    requires TopAt(ms, dir) >= 0
  {
    var k := TopAt(ms, dir);
    ms[..k] + Outside(ms[k + 1..], dir)
  }

  /** What a plain `umount path` leaves. */
  function WithoutTop(ms: seq<Mount>, path: Path): seq<Mount>
    requires TopAt(ms, path) >= 0
  {
    var k := TopAt(ms, path);
    ms[..k] + ms[k + 1..]
  }

  /** The device whose filesystem holds `path`: the last mount above it. */
  function DevAt(ms: seq<Mount>, path: Path): Dev {
    if ms == [] then Pseudo
    else if Under(ms[|ms| - 1].target, path) then ms[|ms| - 1].dev
    else DevAt(ms[..|ms| - 1], path)
  }

  predicate NoneFrom(ms: seq<Mount>, dev: Dev) {
    forall m <- ms :: m.dev != dev
  }

  /** Unmounting adds no mount. */
  lemma UnmountKeepsNone(ms: seq<Mount>, path: Path, dev: Dev)
    requires TopAt(ms, path) >= 0 && NoneFrom(ms, dev)
    ensures NoneFrom(WithoutTop(ms, path), dev) && NoneFrom(WithoutTree(ms, path), dev)
  {
    hide TopAt, Outside;
    var k := TopAt(ms, path);
    assert forall m <- ms[..k] :: m in ms;
    assert forall m <- ms[k + 1..] :: m in ms;
  }

  lemma DevAtIsMounted(ms: seq<Mount>, path: Path)
    ensures DevAt(ms, path) == Pseudo || !NoneFrom(ms, DevAt(ms, path))
  {}

  /** The device is that of the last mount on the way to the path. */
  lemma {:induction false} DevAtIs(ms: seq<Mount>, k: nat, path: Path)
    requires k < |ms| && ms[k].target <= path && forall j | k < j < |ms| :: !(ms[j].target <= path)
    ensures DevAt(ms, path) == ms[k].dev
  {
    if k < |ms| - 1 {
      DevAtIs(ms[..|ms| - 1], k, path);
    }
  }

  lemma TopAtIs(below: seq<Mount>, m: Mount, above: seq<Mount>)
    requires forall x <- above :: x.target != m.target
    ensures TopAt(below + [m] + above, m.target) == |below|
  {
    var ms := below + [m] + above;
    assert ms[|below|] == m;
    forall j | |below| < j < |ms| ensures ms[j].target != m.target {
      assert ms[j] == above[j - |below| - 1];
    }
  }

  /** A tree on top of the stack goes as a whole, and nothing below it. */
  lemma TreeOnTop(below: seq<Mount>, m: Mount, above: seq<Mount>)
    requires forall x <- above :: StrictlyUnder(m.target, x.target)
    ensures var ms := below + [m] + above;
      TopAt(ms, m.target) == |below| && WithoutTree(ms, m.target) == below
  {
    TopAtIs(below, m, above);
    var ms := below + [m] + above;
    assert ms[..|below|] == below && ms[|below| + 1..] == above;
  }

  lemma TopGone(below: seq<Mount>, m: Mount)
    ensures TopAt(below + [m], m.target) == |below| && WithoutTop(below + [m], m.target) == below
  {
    TopAtIs(below, m, []);
    assert below + [m] == below + [m] + [];
  }

  /** A recursive unmount that succeeds takes at least one mount away. */
  lemma TreeIsLost(ms: seq<Mount>, dir: Path)
    requires TopAt(ms, dir) >= 0
    ensures |WithoutTree(ms, dir)| < |ms|
  {
    hide TopAt, Outside;
  }

  // ---------- a recursive unmount that fails half-way ----------

  /** `ms` without those mounts strictly below `dir` that `gone` picks. */
  function Thin(ms: seq<Mount>, dir: Path, gone: nat -> bool): seq<Mount> {
    if ms == [] then []
    else
      var n := |ms| - 1;
      if StrictlyUnder(dir, ms[n].target) && gone(n) then Thin(ms[..n], dir, gone)
      else Thin(ms[..n], dir, gone) + [ms[n]]
  }

  /** Nothing new, and what is not below `dir` is all there, in order. */
  ghost predicate Thinner(after: seq<Mount>, before: seq<Mount>, dir: Path) {
    Outside(after, dir) == Outside(before, dir) && forall m | m in after :: m in before
  }

  lemma {:induction false} ThinIsThinner(ms: seq<Mount>, dir: Path, gone: nat -> bool)
    ensures Thinner(Thin(ms, dir, gone), ms, dir)
  {
    if ms != [] {
      var n := |ms| - 1;
      ThinIsThinner(ms[..n], dir, gone);
      var rest := Thin(ms[..n], dir, gone);
      assert ms == ms[..n] + [ms[n]];
      assert (rest + [ms[n]])[..|rest|] == rest;
    }
  }

  /** It may take anything from nothing to all that is below. */
  lemma {:induction false} ThinRange(ms: seq<Mount>, dir: Path)
    ensures Thin(ms, dir, _ => false) == ms
    ensures forall m <- Thin(ms, dir, _ => true) :: !(dir <= m.target && dir != m.target)
  {
    if ms != [] {
      ThinRange(ms[..|ms| - 1], dir);
      assert ms == ms[..|ms| - 1] + [ms[|ms| - 1]];
    }
  }

  /** What an `umount -R dir` that failed leaves: the topmost mount at `dir`, and any of the
      later ones below it. */
  ghost predicate Thinned(after: seq<Mount>, before: seq<Mount>, dir: Path)
    requires TopAt(before, dir) >= 0
  {
    ThinnedFrom(TopAt(before, dir), after, before, dir)
  }

  ghost predicate ThinnedFrom(k: nat, after: seq<Mount>, before: seq<Mount>, dir: Path)
    requires k < |before|
  {
    |after| > k && after[..k + 1] == before[..k + 1] && Thinner(after[k + 1..], before[k + 1..], dir)
  }

  lemma ThinIsThinned(ms: seq<Mount>, dir: Path, gone: nat -> bool)
    requires TopAt(ms, dir) >= 0
    ensures var k := TopAt(ms, dir); Thinned(ms[..k + 1] + Thin(ms[k + 1..], dir, gone), ms, dir)
  {
    hide TopAt, Outside, Thin, Thinner;
    var k := TopAt(ms, dir);
    ThinIsThinner(ms[k + 1..], dir, gone);
    var after := ms[..k + 1] + Thin(ms[k + 1..], dir, gone);
    assert after[..k + 1] == ms[..k + 1] && after[k + 1..] == Thin(ms[k + 1..], dir, gone);
  }

  /** Trying again removes what the first try would have removed. */
  lemma ThinnedSame(after: seq<Mount>, before: seq<Mount>, dir: Path)
    requires TopAt(before, dir) >= 0 && Thinned(after, before, dir)
    ensures TopAt(after, dir) == TopAt(before, dir) && WithoutTree(after, dir) == WithoutTree(before, dir)
  {
    var k := TopAt(before, dir);
    ThinnedTop(after, before, dir);
    hide TopAt, Outside;
    assert after[..k] == after[..k + 1][..k] == before[..k + 1][..k] == before[..k];
  }

  lemma ThinnedTop(after: seq<Mount>, before: seq<Mount>, dir: Path)
    requires TopAt(before, dir) >= 0 && Thinned(after, before, dir)
    ensures TopAt(after, dir) == TopAt(before, dir)
  {
    hide *;
    NoneAbove(before, dir);
    ThinnedUpper(after, before, dir);
    TopAtSplit(after, TopAt(before, dir), dir);
  }

  lemma ThinnedUpper(after: seq<Mount>, before: seq<Mount>, dir: Path)
    requires TopAt(before, dir) >= 0 && Thinned(after, before, dir)
    ensures var k := TopAt(before, dir);
      |after| > k && after[k] == before[k]
      && var upper, was := after[k + 1..], before[k + 1..];
        forall m | m in upper :: m in was
  {
    hide TopAt, Outside;
    var k := TopAt(before, dir);
    assert after[..k + 1][k] == before[..k + 1][k];
  }

  lemma TopAtSplit(ms: seq<Mount>, k: nat, dir: Path)
    requires k < |ms| && ms[k].target == dir && forall m | m in ms[k + 1..] :: m.target != dir
    ensures TopAt(ms, dir) == k
  {
    assert ms == ms[..k] + [ms[k]] + ms[k + 1..];
    TopAtIs(ms[..k], ms[k], ms[k + 1..]);
  }

  lemma NoneAbove(ms: seq<Mount>, dir: Path)
    requires TopAt(ms, dir) >= 0
    ensures ms[TopAt(ms, dir)].target == dir && forall m | m in ms[TopAt(ms, dir) + 1..] :: m.target != dir
  {
    var k := TopAt(ms, dir);
    forall m | m in ms[k + 1..] ensures m.target != dir {
      var j :| 0 <= j < |ms[k + 1..]| && ms[k + 1..][j] == m;
      assert ms[k + 1 + j] == m;
    }
  }

  lemma ThinnedTwice(last: seq<Mount>, after: seq<Mount>, before: seq<Mount>, dir: Path)
    requires TopAt(before, dir) >= 0 && Thinned(after, before, dir)
    requires TopAt(after, dir) >= 0 && Thinned(last, after, dir)
    ensures Thinned(last, before, dir)
  {
    hide TopAt, Thinner;
    ThinnedTop(after, before, dir);
    ThinnerTwice(TopAt(before, dir), last, after, before, dir);
  }

  lemma ThinnerTwice(k: nat, last: seq<Mount>, after: seq<Mount>, before: seq<Mount>, dir: Path)
    requires k < |before| && k < |after| && ThinnedFrom(k, after, before, dir) && ThinnedFrom(k, last, after, dir)
    ensures ThinnedFrom(k, last, before, dir)
  {
    hide Outside;
    var (x, y, z) := (last[k + 1..], after[k + 1..], before[k + 1..]);
    forall m | m in x ensures m in z {
      assert m in y;
    }
  }

  /** `umount -R` takes nothing from outside the tree, whether or not it succeeds, and brings
      nothing new. */
  lemma ThinnedKeepsNone(after: seq<Mount>, before: seq<Mount>, dir: Path, dev: Dev)
    requires TopAt(before, dir) >= 0 && Thinned(after, before, dir) && NoneFrom(before, dev)
    ensures NoneFrom(after, dev)
  {
    hide TopAt, Outside;
    var k := TopAt(before, dir);
    assert after == after[..k + 1] + after[k + 1..];
    assert forall m <- before[..k + 1] :: m in before;
    assert forall m <- before[k + 1..] :: m in before;
  }

  // ---------- the target tree ----------

  /** The target's own mounts stand on top of `entry`: the root first, the rest below it. */
  ghost predicate TargetTree(ms: seq<Mount>, entry: seq<Mount>, dir: Path) {
    && |ms| > |entry| && ms[..|entry|] == entry && ms[|entry|].target == dir
    && forall k | |entry| < k < |ms| :: StrictlyUnder(dir, ms[k].target)
  }

  lemma TreeRaised(ms: seq<Mount>, entry: seq<Mount>, root: Mount)
    requires entry + [root] <= ms && forall k | |entry| < k < |ms| :: StrictlyUnder(root.target, ms[k].target)
    ensures TargetTree(ms, entry, root.target)
  {
    assert ms[|entry|] == (entry + [root])[|entry|] && ms[..|entry|] == (entry + [root])[..|entry|];
  }

  lemma TargetTreeGone(ms: seq<Mount>, entry: seq<Mount>, dir: Path)
    requires TargetTree(ms, entry, dir)
    ensures TopAt(ms, dir) == |entry| && WithoutTree(ms, dir) == entry
  {
    var n := |entry|;
    assert ms == ms[..n] + [ms[n]] + ms[n + 1..];
    TreeOnTop(entry, ms[n], ms[n + 1..]);
  }

  /** A failed recursive unmount of the target leaves its tree, if fewer mounts of it. */
  lemma ThinnedTree(after: seq<Mount>, before: seq<Mount>, entry: seq<Mount>, dir: Path)
    requires TargetTree(before, entry, dir) && TopAt(before, dir) >= 0 && Thinned(after, before, dir)
    ensures TargetTree(after, entry, dir)
  {
    TargetTreeGone(before, entry, dir);
    hide TopAt, Outside, Thinner, StrictlyUnder;
    var n := |entry|;
    assert after[..n] == after[..n + 1][..n] == before[..n + 1][..n] == before[..n];
    assert after[n] == after[..n + 1][n] == before[..n + 1][n] == before[n];
    StillBelow(after[n + 1..], before[n + 1..], dir);
    forall k | n < k < |after| ensures StrictlyUnder(dir, after[k].target) {
      assert after[k] == after[n + 1..][k - n - 1];
    }
  }

  lemma StillBelow(after: seq<Mount>, before: seq<Mount>, dir: Path)
    requires Thinner(after, before, dir) && forall k | 0 <= k < |before| :: StrictlyUnder(dir, before[k].target)
    ensures forall k | 0 <= k < |after| :: StrictlyUnder(dir, after[k].target)
  {
    hide Outside, StrictlyUnder;
    forall k | 0 <= k < |after| ensures StrictlyUnder(dir, after[k].target) {
      assert after[k] in after;
    }
  }
}

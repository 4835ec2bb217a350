/** The binds of a storage redirect, piled up and taken down again last first
    (redirectBootcStorageToDisk in internal/steps/bootc.go), and what a table looks like when
    some of them would not come off. */
module Binds {
  import opened Mounts
  import opened H = Host

  /** `pile` holds the binds at these paths, on top of `below`. */
  ghost predicate Piled(ms: seq<Mount>, below: seq<Mount>, pile: seq<Mount>, mounted: seq<Path>) {
    && ms == below + pile && |pile| == |mounted|
    && forall k | 0 <= k < |pile| :: pile[k].target == mounted[k]
  }

  lemma PileGrows(ms: seq<Mount>, below: seq<Mount>, pile: seq<Mount>, mounted: seq<Path>, m: Mount)
    requires |ms| > 0 && Piled(ms[..|ms| - 1], below, pile, mounted) && ms[|ms| - 1] == m
    ensures Piled(ms, below, pile + [m], mounted + [m.target])
  {
    assert ms == ms[..|ms| - 1] + [m];
  }

  function Reversed(paths: seq<Path>): seq<Path> {
    if paths == [] then [] else [paths[|paths| - 1]] + Reversed(paths[..|paths| - 1])
  }

  lemma NoneReversed()
    ensures Reversed([]) == []
  {}

  /** Nothing but binds was denied. */
  predicate OnlyBinds(log: seq<Denial>) {
    forall k | 0 <= k < |log| :: log[k].what.BindDetach?
  }

  lemma ReversedSnoc(paths: seq<Path>, i: nat)
    requires i < |paths|
    ensures Reversed(paths[..i + 1]) == [paths[i]] + Reversed(paths[..i])
  {
    assert paths[..i + 1][..i] == paths[..i];
  }

  // ---------- what may still be there on the way ----------

  ghost predicate BelowStuck(m: Mount, stuck: seq<Denial>) {
    exists j :: 0 <= j < |stuck| && stuck[j].what.BindDetach? && Under(stuck[j].what.path, m.target)
  }

  ghost predicate BelowWaiting(m: Mount, waiting: seq<Path>) {
    exists j :: 0 <= j < |waiting| && StrictlyUnder(waiting[j], m.target)
  }

  /** Each of these mounts lies at or below a path that would not come off, or strictly below
      one that is still to be unmounted. */
  ghost predicate Excused(ms: seq<Mount>, stuck: seq<Denial>, waiting: seq<Path>) {
    forall m | m in ms :: BelowStuck(m, stuck) || BelowWaiting(m, waiting)
  }

  /** Only what would not come off is left above `below`. */
  ghost predicate OnlyStuck(ms: seq<Mount>, below: seq<Mount>, stuck: seq<Denial>) {
    |ms| >= |below| && ms[..|below|] == below && Excused(ms[|below|..], stuck, [])
  }

  lemma NothingExcuses(m: Mount)
    ensures !BelowStuck(m, []) && !BelowWaiting(m, [])
  {}

  lemma NothingStuck(ms: seq<Mount>, below: seq<Mount>)
    requires OnlyStuck(ms, below, [])
    ensures ms == below
  {
    if |ms| > |below| {
      assert ms[|below|..][0] in ms[|below|..];
      NothingExcuses(ms[|below|]);
      assert false;
    }
  }

  lemma StuckMore(m: Mount, stuck: seq<Denial>, more: seq<Denial>)
    ensures BelowStuck(m, stuck) || BelowStuck(m, more) ==> BelowStuck(m, stuck + more)
  {
    if BelowStuck(m, stuck) {
      var j :| 0 <= j < |stuck| && stuck[j].what.BindDetach? && Under(stuck[j].what.path, m.target);
      assert (stuck + more)[j] == stuck[j];
    } else if BelowStuck(m, more) {
      var j :| 0 <= j < |more| && more[j].what.BindDetach? && Under(more[j].what.path, m.target);
      assert (stuck + more)[|stuck| + j] == more[j];
    }
  }

  lemma StuckAtHand(m: Mount, stuck: seq<Denial>, d: Denial)
    requires d.what.BindDetach?
    ensures BelowStuck(m, stuck) || Under(d.what.path, m.target) ==> BelowStuck(m, stuck + [d])
  {
    assert [d][0] == d;
    StuckMore(m, stuck, [d]);
  }

  /** A mount waiting for the first i + 1 paths waits for the first i, or for the i-th. */
  lemma WaitsFor(m: Mount, paths: seq<Path>, i: nat)
    requires i < |paths| && BelowWaiting(m, paths[..i + 1])
    ensures StrictlyUnder(paths[i], m.target) || BelowWaiting(m, paths[..i])
  {
    var j :| 0 <= j < i + 1 && StrictlyUnder(paths[..i + 1][j], m.target);
    if j < i {
      assert paths[..i][j] == paths[j];
    }
  }

  /** What lies below an excused path is excused. */
  lemma ExcusedBelow(r: Mount, m: Mount, stuck: seq<Denial>, waiting: seq<Path>)
    requires Under(r.target, m.target)
    ensures BelowStuck(r, stuck) ==> BelowStuck(m, stuck)
    ensures BelowWaiting(r, waiting) ==> BelowWaiting(m, waiting)
  {
    if BelowStuck(r, stuck) {
      var j :| 0 <= j < |stuck| && stuck[j].what.BindDetach? && Under(stuck[j].what.path, r.target);
      assert Under(stuck[j].what.path, m.target);
    }
    if BelowWaiting(r, waiting) {
      var j :| 0 <= j < |waiting| && StrictlyUnder(waiting[j], r.target);
      assert StrictlyUnder(waiting[j], m.target);
    }
  }

  /** The mount at the i-th path may stay only where the path itself is excused otherwise. */
  lemma ExcusedElsewhere(r: Mount, stuck: seq<Denial>, paths: seq<Path>, i: nat)
    requires i < |paths| && r.target == paths[i]
    requires BelowStuck(r, stuck) || BelowWaiting(r, paths[..i + 1])
    ensures BelowStuck(r, stuck) || BelowWaiting(r, paths[..i])
  {
    if BelowWaiting(r, paths[..i + 1]) {
      WaitsFor(r, paths, i);
    }
  }

  /** The topmost mount at a piled bind's path stands no lower than the bind. */
  lemma BindInPlace(before: seq<Mount>, n: nat)
    requires n < |before|
    ensures TopAt(before, before[n].target) >= n
  {}

  /** Unmounting the last of a pile of binds leaves the rest of the pile as it is, and above it
      only what is excused. */
  lemma PeelBind(below: seq<Mount>, bind: Mount, rest: seq<Mount>, paths: seq<Path>, i: nat, stuck: seq<Denial>)
    requires i < |paths| && bind.target == paths[i] && Excused(rest, stuck, paths[..i + 1])
    ensures var before := below + [bind] + rest;
      && TopAt(before, paths[i]) >= |below|
      && var after := WithoutTree(before, paths[i]);
        |after| >= |below| && after[..|below|] == below && Excused(after[|below|..], stuck, paths[..i])
  {
    hide TopAt, BelowStuck, BelowWaiting, Outside;
    var before, n, p := below + [bind] + rest, |below|, paths[i];
    assert before[n] == bind;
    BindInPlace(before, n);
    var t := TopAt(before, p);
    var after := WithoutTree(before, p);
    assert after[..n] == before[..n] == below;
    assert after[n..] == before[n..t] + Outside(before[t + 1..], p);
    forall m | m in after[n..] ensures BelowStuck(m, stuck) || BelowWaiting(m, paths[..i]) {
      if m in Outside(before[t + 1..], p) {
        OutsideStays(m, before, n, t, rest, stuck, paths, i);
      } else {
        KeptBelowTop(m, before, n, t, rest, stuck, paths, i);
      }
    }
  }

  lemma OutsideStays(m: Mount, before: seq<Mount>, n: nat, t: nat, rest: seq<Mount>, stuck: seq<Denial>,
                     paths: seq<Path>, i: nat)
    requires i < |paths| && n <= t < |before| && before[n + 1..] == rest && Excused(rest, stuck, paths[..i + 1])
    requires m in Outside(before[t + 1..], paths[i])
    ensures BelowStuck(m, stuck) || BelowWaiting(m, paths[..i])
  {
    hide BelowStuck, BelowWaiting;
    var j :| 0 <= j < |before[t + 1..]| && before[t + 1..][j] == m;
    assert rest[t + j - n] == m;
    if BelowWaiting(m, paths[..i + 1]) {
      WaitsFor(m, paths, i);
    }
  }

  lemma KeptBelowTop(m: Mount, before: seq<Mount>, n: nat, t: nat, rest: seq<Mount>, stuck: seq<Denial>,
                     paths: seq<Path>, i: nat)
    requires i < |paths| && n <= t < |before| && before[n + 1..] == rest && Excused(rest, stuck, paths[..i + 1])
    requires before[n].target == before[t].target == paths[i] && m in before[n..t]
    ensures BelowStuck(m, stuck) || BelowWaiting(m, paths[..i])
  {
    hide BelowStuck, BelowWaiting;
    var k :| 0 <= k < |before[n..t]| && before[n..t][k] == m;
    var r := before[t];
    assert rest[t - n - 1] == r;
    ExcusedElsewhere(r, stuck, paths, i);
    if k == 0 {
      ExcusedBelow(r, m, stuck, paths[..i]);
    } else {
      assert rest[k - 1] == m;
      if BelowWaiting(m, paths[..i + 1]) {
        WaitsFor(m, paths, i);
        if StrictlyUnder(paths[i], m.target) {
          ExcusedBelow(r, m, stuck, paths[..i]);
        }
      }
    }
  }

  /** A bind that would not come off excuses itself and what lies below it. */
  lemma BindSticks(below: seq<Mount>, bind: Mount, rest: seq<Mount>, paths: seq<Path>, i: nat,
                   stuck: seq<Denial>, after: seq<Mount>, d: Denial)
    requires i < |paths| && bind.target == paths[i] && Excused(rest, stuck, paths[..i + 1])
    requires d.what == BindDetach(paths[i])
    requires var before := below + [bind] + rest; TopAt(before, paths[i]) >= 0 && Thinned(after, before, paths[i])
    ensures |after| >= |below| && after[..|below|] == below
    ensures Excused(after[|below|..], stuck + [d], paths[..i])
  {
    hide BelowStuck, BelowWaiting, Outside;
    hide TopAt, ThinnedFrom;
    var before, n, p := below + [bind] + rest, |below|, paths[i];
    assert before[n] == bind && before[..n] == below && before[n + 1..] == rest;
    BindInPlace(before, n);
    var t := TopAt(before, p);
    ThinnedPrefix(t, after, before, n, p);
    forall m | m in after[n..] ensures BelowStuck(m, stuck + [d]) || BelowWaiting(m, paths[..i]) {
      StillThere(m, before, after, n, t, p);
      StuckAtHand(m, stuck, d);
      if m in rest && BelowWaiting(m, paths[..i + 1]) {
        WaitsFor(m, paths, i);
      }
    }
  }

  lemma ThinnedPrefix(t: nat, after: seq<Mount>, before: seq<Mount>, n: nat, p: Path)
    requires n <= t < |before| && ThinnedFrom(t, after, before, p)
    ensures |after| >= n && after[..n] == before[..n]
  {
    hide Thinner;
    PrefixOfPrefix(after, before, t + 1, n);
  }

  lemma StillThere(m: Mount, before: seq<Mount>, after: seq<Mount>, n: nat, t: nat, p: Path)
    requires n <= t < |before| && ThinnedFrom(t, after, before, p) && m in after[n..]
    ensures m == before[n] || m in before[n + 1..]
  {
    hide Outside;
    var k :| 0 <= k < |after[n..]| && after[n..][k] == m;
    if n + k <= t {
      assert m == after[..t + 1][n + k] == before[..t + 1][n + k];
      if k > 0 {
        assert before[n + 1..][k - 1] == m;
      }
    } else {
      assert m == after[t + 1..][n + k - t - 1];
      var upper := before[t + 1..];
      assert m in upper;
      var j :| 0 <= j < |upper| && upper[j] == m;
      assert before[n + 1..][t - n + j] == m;
    }
  }

  // ---------- the target's tree among what is stuck ----------

  /** Above `entry` stands the target's tree, its root the topmost mount at `dir`, and otherwise
      only what lies at or below a stuck path. */
  ghost predicate TreeOn(ms: seq<Mount>, entry: seq<Mount>, dir: Path, stuck: seq<Denial>) {
    && |ms| >= |entry| && ms[..|entry|] == entry && TopAt(ms, dir) >= |entry|
    && forall j | |entry| <= j < |ms| && j != TopAt(ms, dir) ::
         (j > TopAt(ms, dir) && StrictlyUnder(dir, ms[j].target)) || BelowStuck(ms[j], stuck)
  }

  lemma StuckFrom(ms: seq<Mount>, entry: seq<Mount>, stuck: seq<Denial>)
    requires |ms| >= |entry| && ms[..|entry|] == entry
    requires forall j | |entry| <= j < |ms| :: BelowStuck(ms[j], stuck)
    ensures OnlyStuck(ms, entry, stuck)
  {
    hide BelowStuck;
    var upper := ms[|entry|..];
    forall m | m in upper ensures BelowStuck(m, stuck) {
      var j :| 0 <= j < |upper| && upper[j] == m;
      assert ms[|entry| + j] == m;
    }
  }

  lemma StuckAt(ms: seq<Mount>, entry: seq<Mount>, stuck: seq<Denial>, j: nat)
    requires OnlyStuck(ms, entry, stuck) && |entry| <= j < |ms|
    ensures BelowStuck(ms[j], stuck)
  {
    hide BelowStuck;
    assert ms[|entry|..][j - |entry|] == ms[j];
    NothingWaits(ms[j]);
  }

  lemma NothingWaits(m: Mount)
    ensures !BelowWaiting(m, [])
  {}

  lemma NothingExtra(entry: seq<Mount>, stuck: seq<Denial>)
    ensures OnlyStuck(entry, entry, stuck)
  {}

  /** Nothing stuck on top of what had something stuck, and the other way round. */
  lemma StuckOnStuck(ms: seq<Mount>, between: seq<Mount>, entry: seq<Mount>, stuck: seq<Denial>, more: seq<Denial>)
    requires OnlyStuck(between, entry, stuck) && OnlyStuck(ms, between, more)
    ensures OnlyStuck(ms, entry, stuck + more)
  {
    hide BelowStuck, Excused;
    assert ms[..|entry|] == ms[..|between|][..|entry|] == entry;
    forall j | |entry| <= j < |ms| ensures BelowStuck(ms[j], stuck + more) {
      if j < |between| {
        assert ms[j] == ms[..|between|][j] == between[j];
        StuckAt(between, entry, stuck, j);
      } else {
        StuckAt(ms, between, more, j);
      }
      StuckMore(ms[j], stuck, more);
    }
    StuckFrom(ms, entry, stuck + more);
  }

  /** The target's mounts on top of a table with something stuck. */
  lemma TreeOnStuck(ms: seq<Mount>, between: seq<Mount>, entry: seq<Mount>, dir: Path, stuck: seq<Denial>)
    requires OnlyStuck(between, entry, stuck) && TargetTree(ms, between, dir)
    ensures TreeOn(ms, entry, dir, stuck)
  {
    TargetTreeGone(ms, between, dir);
    hide BelowStuck, Excused, TopAt;
    var n := |between|;
    assert ms[..|entry|] == ms[..n][..|entry|] == entry;
    forall j | |entry| <= j < |ms| && j != n
      ensures (j > n && StrictlyUnder(dir, ms[j].target)) || BelowStuck(ms[j], stuck)
    {
      if j < n {
        assert ms[j] == ms[..n][j] == between[j];
        StuckAt(between, entry, stuck, j);
      }
    }
  }

  /** Something stuck on top of the target's tree. */
  lemma StuckOnTree(ms: seq<Mount>, between: seq<Mount>, entry: seq<Mount>, dir: Path, stuck: seq<Denial>,
                    more: seq<Denial>)
    requires TreeOn(between, entry, dir, stuck) && OnlyStuck(ms, between, more)
    ensures TreeOn(ms, entry, dir, stuck + more)
  {
    hide BelowStuck, Excused;
    var n, k := |between|, TopAt(between, dir);
    assert ms[..|entry|] == ms[..n][..|entry|] == entry;
    assert ms[k] == ms[..n][k] == between[k];
    TopStays(ms, k, dir);
    var t := TopAt(ms, dir);
    forall j | |entry| <= j < |ms| && j != t
      ensures (j > t && StrictlyUnder(dir, ms[j].target)) || BelowStuck(ms[j], stuck + more)
    {
      StuckMore(ms[j], stuck, more);
      if j >= n {
        StuckAt(ms, between, more, j);
      } else {
        assert ms[j] == ms[..n][j] == between[j];
        if t >= n && !BelowStuck(ms[j], stuck) {
          StuckAt(ms, between, more, t);
          ExcusedBelow(ms[t], ms[j], more, []);
        }
      }
    }
  }

  lemma TopStays(ms: seq<Mount>, k: nat, dir: Path)
    requires k < |ms| && ms[k].target == dir
    ensures TopAt(ms, dir) >= k && ms[TopAt(ms, dir)].target == dir
  {}

  lemma TreeOff(ms: seq<Mount>, entry: seq<Mount>, dir: Path, stuck: seq<Denial>)
    requires TreeOn(ms, entry, dir, stuck)
    ensures OnlyStuck(WithoutTree(ms, dir), entry, stuck)
  {
    hide BelowStuck, Excused, Outside;
    var k, after := TopAt(ms, dir), WithoutTree(ms, dir);
    assert after[..|entry|] == ms[..k][..|entry|] == entry;
    forall j | |entry| <= j < |after| ensures BelowStuck(after[j], stuck) {
      if j < k {
        assert after[j] == ms[..k][j] == ms[j];
      } else {
        assert after[j] == Outside(ms[k + 1..], dir)[j - k] && after[j] in Outside(ms[k + 1..], dir);
        var i :| 0 <= i < |ms[k + 1..]| && ms[k + 1..][i] == after[j];
        assert ms[k + 1 + i] == after[j];
      }
    }
    StuckFrom(after, entry, stuck);
  }

  /** A recursive unmount of the target that failed half-way leaves its tree on. */
  lemma TreeThinned(after: seq<Mount>, ms: seq<Mount>, entry: seq<Mount>, dir: Path, stuck: seq<Denial>)
    requires TreeOn(ms, entry, dir, stuck) && Thinned(after, ms, dir)
    ensures TreeOn(after, entry, dir, stuck)
  {
    hide BelowStuck, Outside, TopAt, Thinner, StrictlyUnder;
    ThinnedTop(after, ms, dir);
    var n, k := |entry|, TopAt(ms, dir);
    PrefixOfPrefix(after, ms, k + 1, n);
    forall j | n <= j < |after| && j != k
      ensures (j > k && StrictlyUnder(dir, after[j].target)) || BelowStuck(after[j], stuck)
    {
      if j < k {
        assert after[..k + 1][j] == ms[..k + 1][j];
      } else {
        var i := FromUpper(after, ms, k, dir, j);
        assert (i > k && StrictlyUnder(dir, ms[i].target)) || BelowStuck(ms[i], stuck);
      }
    }
  }

  lemma PrefixOfPrefix(a: seq<Mount>, b: seq<Mount>, k: nat, n: nat)
    requires n <= k <= |a| && k <= |b| && a[..k] == b[..k]
    ensures a[..n] == b[..n]
  {
    assert a[..n] == a[..k][..n] && b[..n] == b[..k][..n];
  }

  lemma FromUpper(after: seq<Mount>, ms: seq<Mount>, k: nat, dir: Path, j: nat) returns (i: nat)
    requires k < |ms| && ThinnedFrom(k, after, ms, dir) && k < j < |after|
    ensures k < i < |ms| && ms[i] == after[j]
  {
    hide Outside;
    var upper := ms[k + 1..];
    assert after[k + 1..][j - k - 1] == after[j] && after[j] in upper;
    var at: nat :| at < |upper| && upper[at] == after[j];
    i := k + 1 + at;
  }

  /** The undo of a tree that is already off, on a table with something stuck: what it takes is
      stuck, or was mounted there before. */
  lemma LateUndo(ms: seq<Mount>, entry: seq<Mount>, dir: Path, stuck: seq<Denial>)
    requires OnlyStuck(ms, entry, stuck) && TopAt(ms, dir) >= 0
    ensures var after := WithoutTree(ms, dir);
      if TopAt(ms, dir) >= |entry| then OnlyStuck(after, entry, stuck)
      else TopAt(entry, dir) >= 0 && OnlyStuck(after, WithoutTree(entry, dir), stuck)
  {
    hide BelowStuck, Excused, Outside;
    var k := TopAt(ms, dir);
    if k >= |entry| {
      LateUndoAbove(ms, entry, dir, stuck);
    } else {
      LateUndoBelow(ms, entry, dir, stuck);
    }
  }

  lemma LateUndoAbove(ms: seq<Mount>, entry: seq<Mount>, dir: Path, stuck: seq<Denial>)
    requires OnlyStuck(ms, entry, stuck) && TopAt(ms, dir) >= |entry|
    ensures OnlyStuck(WithoutTree(ms, dir), entry, stuck)
  {
    forall j | |entry| <= j < |ms| ensures BelowStuck(ms[j], stuck) {
      StuckAt(ms, entry, stuck, j);
    }
    TreeOff(ms, entry, dir, stuck);
  }

  lemma LateUndoBelow(ms: seq<Mount>, entry: seq<Mount>, dir: Path, stuck: seq<Denial>)
    requires OnlyStuck(ms, entry, stuck) && 0 <= TopAt(ms, dir) < |entry|
    ensures TopAt(entry, dir) == TopAt(ms, dir) && OnlyStuck(WithoutTree(ms, dir), WithoutTree(entry, dir), stuck)
  {
    hide BelowStuck, Excused, Outside, WithoutTree;
    var n, upper := |entry|, ms[|entry|..];
    TopInPrefix(ms, n, dir);
    assert ms == entry + upper;
    UndoneAcross(entry, upper, dir);
    var base, kept := WithoutTree(entry, dir), Outside(upper, dir);
    var after := base + kept;
    forall j | |base| <= j < |after| ensures BelowStuck(after[j], stuck) {
      assert after[j] == kept[j - |base|] && after[j] in kept;
      var i :| 0 <= i < |upper| && upper[i] == after[j];
      StuckAt(ms, entry, stuck, n + i);
    }
    StuckFrom(after, base, stuck);
  }

  /** A recursive unmount that reaches into `entry` takes from what is above it as well. */
  lemma UndoneAcross(entry: seq<Mount>, upper: seq<Mount>, dir: Path)
    requires TopAt(entry, dir) >= 0 && TopAt(entry + upper, dir) == TopAt(entry, dir)
    ensures WithoutTree(entry + upper, dir) == WithoutTree(entry, dir) + Outside(upper, dir)
  {
    hide TopAt, Outside;
    var ms, k := entry + upper, TopAt(entry, dir);
    assert ms[..k] == entry[..k] && ms[k + 1..] == entry[k + 1..] + upper;
    OutsideAppend(entry[k + 1..], upper, dir);
  }

  lemma TopInPrefix(ms: seq<Mount>, n: nat, dir: Path)
    requires n <= |ms| && 0 <= TopAt(ms, dir) < n
    ensures TopAt(ms[..n], dir) == TopAt(ms, dir)
  {
    var k := TopAt(ms, dir);
    assert ms[..n][k] == ms[k];
  }

  lemma OutsideSnoc(ms: seq<Mount>, m: Mount, dir: Path)
    ensures Outside(ms + [m], dir) == Outside(ms, dir) + if Under(dir, m.target) then [] else [m]
  {
    hide Under;
    assert (ms + [m])[..|ms|] == ms;
  }

  lemma {:induction false} OutsideAppend(a: seq<Mount>, b: seq<Mount>, dir: Path)
    ensures Outside(a + b, dir) == Outside(a, dir) + Outside(b, dir)
  {
    hide Outside, Under;
    if b == [] {
      assert a + b == a;
      OutsideNothing(dir);
    } else {
      var n := |b| - 1;
      OutsideAppend(a, b[..n], dir);
      assert a + b == a + b[..n] + [b[n]] && b == b[..n] + [b[n]];
      OutsideSnoc(a + b[..n], b[n], dir);
      OutsideSnoc(b[..n], b[n], dir);
    }
  }

  lemma OutsideNothing(dir: Path)
    ensures Outside([], dir) == []
  {}
}

/** From a loaded recipe to the end of its run, and the one way in which a run can cost the
    machine a mount it had before. */
module WholeInstall {
  import opened Text
  import opened Mounts
  import opened H = Host
  import opened Rec = Recipe
  import opened Assembly
  import opened Binds
  import opened Steps
  import D = DiskTree
  import I = ImageSelection
  import Refs = ImageRefs

  /** Nothing fails, except perhaps the retype. */
  ghost predicate Obliging(r: Recipe, facts: Facts, host: Host, cosign: I.Cosign, emitVerdict: nat -> bool) {
    host.Willing() && (forall k :: emitVerdict(k)) && (forall k :: cosign.verdict(k)) && Helpful(r, facts)
  }

  /** Nothing of an earlier run holds the root partition. */
  ghost predicate Unused(r: Recipe, disk: Option<string>, ms: seq<Mount>, mapper: MapperState) {
    disk.Some? ==> UnusedRoot(r, LayoutFor(r, disk.value).root, ms, mapper)
  }

  /** Something is mounted at the target, and the recipe's run may get as far as retag-root: it has
      one, an encrypted recipe's luks-format finds no mapper in use, and a signed recipe's own
      digest, if it has one, is a digest. */
  ghost predicate AtRisk(r: Recipe, ms: seq<Mount>, dir: Path) {
    && !r.target.bootloader.Grub2? && TopAt(ms, dir) >= 0 && (Encrypted(r) ==> NoneFrom(ms, Mapper))
    && (r.image.cosignPubKey != "" ==> OwnDigestGood(r))
  }

  predicate OwnDigestGood(r: Recipe) {
    var own := Refs.DigestReference(Refs.BareImageRef(r.image.ref));
    own.Some? ==> Refs.ValidDigest(own.value)
  }

  lemma SourceHasOwnDigest(r: Recipe, f: Facts)
    requires r.image.cosignPubKey != "" && Refs.Immutable(SourceRef(r, f))
    ensures OwnDigestGood(r)
  {
    hide Refs.ValidDigest, Refs.BareImageRef;
    var bare := Refs.BareImageRef(r.image.ref);
    Refs.PinnedDigest(bare, I.WinningDigest(bare, f.local, f.remote));
  }

  /** What every preflight check passed; cosign's tries are those after the first `calls`. */
  ghost predicate Checked(r: Recipe, facts: Facts, cosign: I.Cosign, calls: nat) {
    facts.uefi && facts.toolsPresent && AcceptedDisk(r, facts).Some? && ImageAccepted(r, facts, cosign, calls)
  }

  /** The first `n` steps made all their commands within this run, one step after the other. */
  ghost predicate Commanded(r: Recipe, facts: Facts, host: Host, n: nat, from: nat)
    requires n <= |Assembled(r)|
    reads host`tick
  {
    exists at: seq<nat> :: Timeline(Assembled(r)[..n], r, facts, host, at, from) && at[n] <= host.tick
  }

  /** Validation, then the run. An invalid recipe touches nothing. For a valid one, whatever
      commands fail and wherever, whatever the emitter refuses, and whatever was mounted before:
      - a run that succeeds has done every assembled step: each made all its commands, one step
        after the other, they worked, and what it told was accepted; the image bootc was given is on
        the target. A run that fails names the first step that is not done, and the steps before it
        did the same;
      - every release that was denied has its failed command in this run - for a bind two in a
        row, the plain unmount and the lazy one; for a step's own, in the step that failed; for an
        undo, at the run's end - and has left its object above the mounts there were, or the mapper
        open;
      - when nothing but binds stuck, no mapper the run opened is open, and the mount table is what
        it was and above it what lies at or below a stuck bind - but that a retag-root which
        failed half-way costs a table at risk the mount it had at the target;
      - the target is frozen only if finalize failed with a thaw and a recovery thaw that failed,
        and a run that succeeded made finalize's four commands;
      - the override is what it was, and nothing was written before every check had passed, or
        outside the disk that preflight-disk accepted;
      - bootc was given nothing or the recipe's selected source, for a signed recipe the reference
        cosign verified last, unless a native bootc's argument was stripped. */
  method Install(l: Loaded, m: Machine, facts: Facts, host: Host, cosign: I.Cosign,
                 dir: Path, scratch: Path, emitVerdict: nat -> bool, dry: bool)
    returns (issues: seq<Issue>, fault: Option<Fault>, failed: Option<StepName>, installed: Option<string>,
             told: seq<Note>)
    requires host.Sane() && !host.frozen && !host.mapper.Opened?
    requires facts.ramOnly ==> PodmanStaysInside(facts)
    modifies host, cosign
    ensures issues == Issues(l, m)
    ensures issues != [] ==> unchanged(host) && unchanged(cosign) && told == []
    ensures old(host.denied) <= host.denied
    ensures forall k | |old(host.denied)| <= k < |host.denied| ::
      && Happened(host.denied[k], k == |old(host.denied)|, host.verdict, old(host.tick), host.tick, facts, dir)
      && ComesLast(host.denied[k], failed, 0, host.tick)
      && Remains(host.denied[k], host.verdict, |old(host.mounts)|, failed == Some(RetagRoot), host.mounts, host.mapper,
                 dir, scratch)
    ensures var stuck := host.denied[|old(host.denied)|..];
      OnlyBinds(stuck) ==>
        && !host.mapper.Opened?
        && (|| OnlyStuck(host.mounts, old(host.mounts), stuck)
            || (&& failed == Some(RetagRoot) && AtRisk(l.recipe, old(host.mounts), dir)
                && OnlyStuck(host.mounts, WithoutTree(old(host.mounts), dir), stuck)))
    ensures host.denied == old(host.denied) ==>
      || host.mounts == old(host.mounts)
      || (&& failed == Some(RetagRoot) && AtRisk(l.recipe, old(host.mounts), dir)
          && host.mounts == WithoutTree(old(host.mounts), dir))
    ensures failed.Some? ==> fault.Some? && Included(l.recipe, failed.value)
    ensures host.frozen ==> failed == Some(Finalize)
    ensures host.frozen ==> exists t: nat :: ThawsFailedAt(host.verdict, t, old(host.tick), host.tick)
    ensures host.override == old(host.override)
    ensures old(host.writes) <= host.writes
    ensures AllOnTarget(l.recipe, AcceptedDisk(l.recipe, facts), host.writes[|old(host.writes)|..])
    ensures host.writes != old(host.writes) ==> Checked(l.recipe, facts, cosign, old(|cosign.calls|))
    ensures fault.Some? ==> !IsOrderFault(fault.value)
    ensures dry ==> unchanged(host)
    ensures installed.Some? ==> GivenAsVerified(l.recipe, facts, cosign, installed.value)
    ensures host.deployed == old(host.deployed) || host.deployed == installed
    ensures issues == [] && fault.None? && !dry ==> installed.Some? && host.deployed == installed
    ensures issues == [] ==> exists turns: seq<seq<Note>> ::
      && |turns| <= |Assembled(l.recipe)| && Reported(l.recipe, facts, dry, fault, failed, told, turns)
      && (dry || Commanded(l.recipe, facts, host, |turns|, old(host.tick)))
    ensures issues == [] && fault.None? ==> Checked(l.recipe, facts, cosign, old(|cosign.calls|))
    ensures issues == [] && fault.None? && !dry ==>
      !host.frozen && exists t: nat :: FinalizedAt(host.verdict, t, old(host.tick), host.tick)
    ensures
      (&& issues == [] && (Encrypted(l.recipe) ==> NoneFrom(old(host.mounts), Mapper))
       && Obliging(l.recipe, facts, host, cosign, emitVerdict)) ==>
      && host.denied == old(host.denied)
      && (host.Retypes() && Unused(l.recipe, AcceptedDisk(l.recipe, facts), old(host.mounts), old(host.mapper)) ==>
            fault.None?)
      && (host.NeverRetypes() && !dry && Included(l.recipe, RetagRoot) ==>
            host.mounts == LateTable(old(host.mounts), dir))
  {
    hide Issues, AcceptedDisk, OnTarget, WellFormed, Installable, PodmanStaysInside, SourceRef, Helpful;
    hide WithoutTree, Reported, Worked, AllSay, Says, ImageAccepted, Assembled;
    hide GivenAsVerified, OnlyStuck, Happened, ComesLast, Remains, OwnDigestGood, TopAt;
    fault, failed, installed, told := None, None, None, [];
    issues := Validate(l, m);
    NothingExtra(host.mounts, []);
    assert host.denied[|host.denied|..] == [];
    if issues == [] {
      ValidIsInstallable(l, m);
      var env := new Env(host, cosign, l.recipe, facts, dir, scratch, emitVerdict);
      var faults;
      fault, failed, faults := env.Run(dry);
      installed, told := env.installedRef, env.told;
      assert dry || Commanded(l.recipe, facts, host, |env.turns|, old(host.tick));
      AfterRun(env, failed);
    }
  }

  /** What a run's own promise means for its caller. */
  lemma AfterRun(env: Env, failed: Option<StepName>)
    requires env.LeftClean() && env.Traced(0, failed) && (env.tookDown ==> failed == Some(RetagRoot))
    requires failed.Some? ==> Included(env.recipe, failed.value)
    ensures env.earlierDenied <= env.host.denied
    ensures forall k | |env.earlierDenied| <= k < |env.host.denied| ::
      && Happened(env.host.denied[k], k == |env.earlierDenied|, env.host.verdict, env.began, env.host.tick,
                  env.facts, env.dir)
      && ComesLast(env.host.denied[k], failed, 0, env.host.tick)
      && Remains(env.host.denied[k], env.host.verdict, |env.entry|, failed == Some(RetagRoot), env.host.mounts,
                 env.host.mapper, env.dir, env.scratch)
    ensures var stuck := env.host.denied[|env.earlierDenied|..];
      OnlyBinds(stuck) ==>
        && !env.host.mapper.Opened?
        && (|| OnlyStuck(env.host.mounts, env.entry, stuck)
            || (&& failed == Some(RetagRoot) && AtRisk(env.recipe, env.entry, env.dir)
                && OnlyStuck(env.host.mounts, WithoutTree(env.entry, env.dir), stuck)))
    ensures env.host.denied == env.earlierDenied ==>
      || env.host.mounts == env.entry
      || (&& failed == Some(RetagRoot) && AtRisk(env.recipe, env.entry, env.dir)
          && env.host.mounts == WithoutTree(env.entry, env.dir))
  {
    hide AcceptedDisk, AllOnTarget, OnlyStuck, WithoutTree, TopAt, OwnDigestGood, SourceRef, GivenAsVerified;
    if env.tookDown && env.recipe.image.cosignPubKey != "" {
      SourceHasOwnDigest(env.recipe, env.facts);
    }
    if env.host.denied == env.earlierDenied {
      assert env.host.denied[|env.earlierDenied|..] == [];
    }
  }

  // ---------- the run that loses a mount ----------

  function Zeros(n: nat): string {
    seq(n, _ => '0')
  }

  /** A machine on which nothing stands in the way of this recipe. */
  function HelpfulFacts(r: Recipe): Facts {
    var manifest := I.Manifest("sha256:" + Zeros(64), map[]);
    Facts(true, false, true, false, Some([D.Device(r.target.disk, "", "", [], [])]), D.LeadsTo(r.target.disk), "",
      manifest, manifest, _ => NoSet, false, [], [], Some(""), Some(""), true, 0, 0)
  }

  lemma DiskIsAccepted(r: Recipe)
    ensures AcceptedDisk(r, HelpfulFacts(r)) == Some(r.target.disk)
  {
    var dev := D.Device(r.target.disk, "", "", [], []);
    D.AcceptedExactlyWhen(dev, "");
    assert D.PreOrder(dev) == [dev];
  }

  /** Every recipe that a run can take as far as retag-root has facts that let it. */
  lemma FactsHelp(r: Recipe)
    requires r.image.cosignPubKey != "" ==> Refs.IsRegistryRef(r.image.ref) && OwnDigestGood(r)
    ensures Helpful(r, HelpfulFacts(r))
  {
    hide AcceptedDisk, Refs.IsRegistryRef, Refs.BareImageRef;
    DiskIsAccepted(r);
    assert Refs.ValidDigest("sha256:" + Zeros(64));
  }

  lemma ValidIsRegistry(l: Loaded, m: Machine)
    requires Issues(l, m) == [] && l.recipe.image.cosignPubKey != ""
    ensures Refs.IsRegistryRef(l.recipe.image.ref)
  {
    hide Issues, Refs.IsRegistryRef, ValidTarget, ValidSecurity, ValidSystem;
    ValidExactlyWhen(l, m);
  }

  /** Unless a release is denied, the mount table survives every run exactly when it is not at
      risk: for any valid recipe and table that are, there is a run, on a machine that stands in no
      one's way and with the retype the only command to fail, that takes the earlier mount. */
  method EarlierMountIsLost(l: Loaded, m: Machine, mounts: seq<Mount>, dir: Path, scratch: Path)
    returns (after: seq<Mount>, denied: seq<Denial>)
    requires Issues(l, m) == [] && AtRisk(l.recipe, mounts, dir)
    ensures denied == [] && after == WithoutTree(mounts, dir) && after != mounts
  {
    hide Issues, AcceptedDisk, Installable, Helpful, TopAt, WithoutTree, AllOnTarget, GivenAsVerified;
    hide OwnDigestGood, Timeline, Worked, FinalizedAt, ThawsFailedAt, Reported, Commanded, Checked, ImageAccepted;
    hide Assembled;
    hide OnlyStuck, Remains, Happened, ComesLast;
    if l.recipe.image.cosignPubKey != "" {
      ValidIsRegistry(l, m);
    }
    FactsHelp(l.recipe);
    TreeIsLost(mounts, dir);
    // A mapper that something is mounted from is an earlier run's.
    var stale := if NoneFrom(mounts, Mapper) then None else Some("");
    var host := new Host(_ => true, _ => false, (_, _) => false, mounts, stale, None);
    var cosign := new I.Cosign(_ => true);
    var issues, fault, failed, installed, told :=
      Install(l, m, HelpfulFacts(l.recipe), host, cosign, dir, scratch, _ => true, false);
    after, denied := host.mounts, host.denied;
  }
}

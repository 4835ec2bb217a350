/** The install steps on the host (internal/steps/bootc.go, preflight.go), and whole runs of
    them. Every command may fail. */
module Steps {
  import opened Text
  import opened Mounts
  import opened H = Host
  import opened Rec = Recipe
  import opened PartitionNames
  import opened Assembly
  import opened Binds
  import D = DiskTree
  import I = ImageSelection
  import Refs = ImageRefs

  /** What the image's core Flatpak label comes to. */
  datatype CoreLabel = NoSet | CoreSet | Malformed

  /** What the steps learn from outside: lsblk, the target's links, skopeo, files, chance, whether
      bootc is on the PATH, and what the core Flatpak label of an image's labels comes to. */
  datatype Facts = Facts(
    uefi: bool, tpm: bool, toolsPresent: bool, nativeBootc: bool,
    devices: Option<seq<D.Device>>, link: D.Link, rootDev: string,
    local: I.Inspection, remote: I.Inspection, coreOf: I.Labels -> CoreLabel,
    ramOnly: bool, ramPaths: seq<Path>, podmanMounts: seq<Mount>,
    passphraseFile: Option<string>, recoveryKey: Option<string>,
    uki: bool, unreachableApps: nat, missingGroups: nat)

  datatype Fault =
    | CommandFailed | EmitRefused | FileUnreadable
    | NotUefi | ToolsMissing | ImageRefused | LabelUnreadable | LabelMalformed
    | NoDevices | DiskUnresolved | DiskRefused(reason: D.Reason)
    | ZfsRoot | UnsupportedFilesystem | NoPassphraseSource | SourceMissing | SecureRootMissing | NoPartNum
    | NoUki

  /** The faults that mean an earlier step or the validation did not do its part. */
  predicate IsOrderFault(f: Fault) {
    || f.ZfsRoot? || f.UnsupportedFilesystem? || f.NoPassphraseSource? || f.SourceMissing?
    || f.SecureRootMissing? || f.NoPartNum?
  }

  /** An accepted event: Start, a step_start, what a dry run says of a step it skips, a recovery key,
      and any other information or warning. */
  datatype Note = Started | Begun(step: StepName) | Skipped(step: StepName) | Disclosed(key: string) | Told

  function Many(n: nat): seq<Note> {
    seq(n, _ => Told)
  }

  datatype Undo = CloseMapper | UnmountTarget | RemoveSecureRoot

  /** Between the ticks `from` and `upTo` the bind's unmount failed plainly and then lazily. */
  ghost predicate BothWays(d: Denial, verdict: nat -> bool, from: nat, upTo: nat, paths: seq<Path>) {
    && d.what.BindDetach? && d.what.path in paths
    && from < d.at < upTo && !verdict(d.at - 1) && !verdict(d.at)
  }

  ghost predicate AllBothWays(ds: seq<Denial>, verdict: nat -> bool, from: nat, upTo: nat, paths: seq<Path>) {
    forall k | 0 <= k < |ds| :: BothWays(ds[k], verdict, from, upTo, paths)
  }

  /** A denial of this run: its command failed. Only the mapper's close can also be refused because
      the mapper is still in use, and then something else was denied earlier. */
  ghost predicate Happened(d: Denial, first: bool, verdict: nat -> bool, from: nat, upTo: nat, f: Facts, dir: Path) {
    && from <= d.at < upTo
    && (d.what.BindDetach? ==> f.ramOnly && BothWays(d, verdict, from, upTo, BindPaths(f, dir)))
    && (!d.what.MapperUndo? || first ==> !verdict(d.at))
  }

  /** Where in a run the denied release was, `left` commands before its end at most: a step's own
      release failed its step, and after it or an undo there was at most one command more. */
  ghost predicate ComesLast(d: Denial, failed: Option<StepName>, left: nat, tick: nat) {
    && (!d.what.BindDetach? ==> tick + left <= d.at + 2)
    && (d.what.ScratchUnmount? ==> failed == Some(FormatRoot))
    && (d.what.TargetRollback? ==> failed == Some(MountTarget))
  }

  /** What a denied release has left behind, above the `n` mounts there were before: its mount, or
      the open mapper. `late` is for an undo of a tree that was already off. */
  ghost predicate Remains(d: Denial, verdict: nat -> bool, n: nat, late: bool, ms: seq<Mount>, mapper: MapperState,
                          dir: Path, scratch: Path) {
    match d.what
    case ScratchUnmount => TopAt(ms, scratch) >= n
    case TargetRollback => TopAt(ms, dir) >= n
    case BindDetach(_) => true
    case TreeUndo => TopAt(ms, dir) >= if late then 0 else n
    case MapperUndo => mapper.Opened? && (!verdict(d.at) || !NoneFrom(ms, Mapper))
  }

  predicate Settled(what: Release, pending: seq<Undo>) {
    match what
    case BindDetach(_) => true
    case MapperUndo => CloseMapper !in pending && UnmountTarget !in pending
    case ScratchUnmount => UnmountTarget !in pending
    case TargetRollback => UnmountTarget !in pending
    case TreeUndo => UnmountTarget !in pending
  }

  /** The freeze at this tick's predecessor worked; the thaw and the recovery thaw did not. */
  ghost predicate ThawsFailedAt(verdict: nat -> bool, t: nat, from: nat, upTo: nat) {
    from < t && t + 1 < upTo && verdict(t - 1) && !verdict(t) && !verdict(t + 1)
  }

  /** Four commands in a row worked: trim, remount, freeze and thaw. */
  ghost predicate FinalizedAt(verdict: nat -> bool, t: nat, from: nat, upTo: nat) {
    from <= t && t + 4 <= upTo && verdict(t) && verdict(t + 1) && verdict(t + 2) && verdict(t + 3)
  }

  /** `n` commands, none of which failed. */
  ghost predicate Did(n: nat, verdict: nat -> bool, from: nat, upTo: nat) {
    upTo == from + n && AllWork(verdict, from, upTo)
  }

  lemma DidOn(n: nat, m: nat, verdict: nat -> bool, a: nat, b: nat, c: nat)
    requires Did(n, verdict, a, b) && Did(m, verdict, b, c)
    ensures Did(n + m, verdict, a, c)
  {
    hide AllWork;
    WorkOn(verdict, a, b, c);
  }

  lemma DidOne(verdict: nat -> bool, a: nat)
    ensures Did(0, verdict, a, a) && (verdict(a) ==> Did(1, verdict, a, a + 1))
  {
    hide AllWork;
    OneWorks(verdict, a);
  }

  /** Looking for the stale signatures of the partitions `i` to 4 and wiping those that are there:
      where it ends, and what it writes. */
  function WipedAt(verdict: nat -> bool, t: nat, i: nat): nat
    decreases 5 - i
  {
    if i > 4 then t else WipedAt(verdict, if verdict(t) then t + 2 else t + 1, i + 1)
  }

  function WipesAt(verdict: nat -> bool, t: nat, i: nat, disk: string): seq<Write>
    decreases 5 - i
  {
    if i > 4 then []
    else if verdict(t) then [OnDev(PartName(disk, i))] + WipesAt(verdict, t + 2, i + 1, disk)
    else WipesAt(verdict, t + 1, i + 1, disk)
  }

  /** sfdisk works at once; or when forced, and then partprobe. */
  predicate PartitionWorks(verdict: nat -> bool, from: nat) {
    verdict(from) || (verdict(from + 2) && verdict(from + 3))
  }

  /** A partitioning that worked ends with a settling; a forced one settles before it, and before
      and after the wiping. */
  ghost predicate PartitionWorked(verdict: nat -> bool, from: nat, upTo: nat) {
    PartitionWorks(verdict, from) && upTo == if verdict(from) then from + 2 else WipedAt(verdict, from + 5, 1) + 2
  }

  /** What it writes: the whole disk, once more if forced, and then stale partitions. */
  function PartitionWrites(verdict: nat -> bool, from: nat, disk: string): seq<Write> {
    if verdict(from) then [OnDev(disk)]
    else [OnDev(disk), OnDev(disk)] + WipesAt(verdict, from + 5, 1, disk)
  }

  function MountCommands(r: Recipe): nat {
    if r.target.bootloader.Grub2? then 6 else 4
  }

  function InstallCommands(r: Recipe): nat {
    if SecureBootc(r) then 4 else 2
  }

  function RedirectCommands(f: Facts): nat {
    4 + 3 * |f.ramPaths|
  }

  predicate WantsFlatpaks(r: Recipe, f: Facts) {
    r.system.flatpaks != [] || (r.system.coreFlatpaks && CoreLabelOf(r, f).CoreSet?)
  }

  /** A step that succeeded made all its commands and each of them worked, but for those of the
      partitioning whose failure has a remedy and, in RAM, of the redirect's teardown. */
  ghost predicate Worked(step: StepName, r: Recipe, f: Facts, host: Host, from: nat, upTo: nat) {
    match step
    case Partition => PartitionWorked(host.verdict, from, upTo)
    case FormatBoot => Did(if r.target.bootloader.Grub2? then 2 else 1, host.verdict, from, upTo)
    case LuksFormat => Did(2, host.verdict, from, upTo) || Did(3, host.verdict, from, upTo)
    case FormatRoot =>
      Did(if r.target.filesystem.Btrfs? && r.target.btrfsSubvolumes then 8 else 1, host.verdict, from, upTo)
    case MountTarget => Did(MountCommands(r), host.verdict, from, upTo)
    case BootcInstall =>
      if f.ramOnly then
        var n := RedirectCommands(f) + InstallCommands(r);
        from + n <= upTo && Did(n, host.verdict, from, from + n)
      else Did(InstallCommands(r), host.verdict, from, upTo)
    case TpmEnroll => Did(5, host.verdict, from, upTo)
    case EspStage => Did(8, host.verdict, from, upTo)
    case RetagRoot =>
      && Did(3 + (if Encrypted(r) then 2 else 0) + MountCommands(r), host.verdict, from, upTo)
      && host.retypes(from + if Encrypted(r) then 2 else 1)
    case Flatpaks => Did(if WantsFlatpaks(r, f) then 1 else 0, host.verdict, from, upTo)
    case Sysconfig => Did(if r.system.user.Some? then 7 else 5, host.verdict, from, upTo)
    case Finalize => Did(4, host.verdict, from, upTo)
    case MokStage => Did(2, host.verdict, from, upTo)
    case _ => upTo == from
  }

  function Since(before: seq<Note>, after: seq<Note>): seq<Note> {
    if |before| <= |after| then after[|before|..] else []
  }

  /** Nothing but information and warnings in between. */
  predicate Warned(before: seq<Note>, after: seq<Note>) {
    |before| <= |after| && after == before + Many(|after| - |before|)
  }

  lemma WarnedOn(a: seq<Note>, b: seq<Note>, c: seq<Note>)
    requires Warned(a, b) && Warned(b, c)
    ensures Warned(a, c)
  {}

  lemma WarnedOnce(a: seq<Note>)
    ensures Warned(a, a) && Warned(a, a + [Told])
  {}

  lemma WarnedSince(a: seq<Note>, b: seq<Note>, c: seq<Note>)
    requires b == a + [Told] && Warned(b, c)
    ensures Warned(a, c) && |c| > |a|
  {}

  lemma WarnedMeans(a: seq<Note>, b: seq<Note>)
    requires Warned(a, b)
    ensures a <= b && Since(a, b) == Many(|b| - |a|)
  {}

  /** What a step that succeeded has told, after its step_start: the recovery key of an encrypted
      install that has one before anything is encrypted, each warning once, and what was found. */
  predicate Says(step: StepName, r: Recipe, f: Facts, notes: seq<Note>) {
    match step
    case PreflightUefi => notes == Many(if f.tpm then 0 else 1)
    case PreflightTools => notes == [Told]
    case PreflightImage =>
      var told := if r.image.cosignPubKey != "" || Pinned(r, f) then 1 else 0;
      var least := told + if r.system.coreFlatpaks then 1 else 0;
      notes == Many(|notes|) && |notes| >= least && (r.image.cosignPubKey == "" ==> |notes| == least)
    case PreflightDisk => notes == [Told]
    case LuksFormat =>
      if r.security.encryption.Tpm2Luks? then f.recoveryKey.Some? && notes == [Disclosed(f.recoveryKey.value)]
      else notes == []
    case BootcInstall => notes == Many(|notes|) && if f.ramOnly then |notes| > 0 else notes == []
    case Flatpaks => notes == Many(if WantsFlatpaks(r, f) then f.unreachableApps else 0)
    case Sysconfig => notes == Many(if r.system.user.Some? then f.missingGroups else 0)
    case _ => notes == []
  }

  lemma ImageSays(r: Recipe, f: Facts, before: seq<Note>, after: seq<Note>, retries: nat)
    requires r.image.cosignPubKey == "" ==> retries == 0
    requires after == before + Many(retries) + (if r.image.cosignPubKey != "" || Pinned(r, f) then [Told] else [])
                      + if r.system.coreFlatpaks then [Told] else []
    ensures Says(PreflightImage, r, f, Since(before, after))
  {
    hide Pinned;
    var notes := after[|before|..];
    assert forall k | 0 <= k < |notes| :: notes[k] == Told;
    assert notes == Many(|notes|);
  }

  lemma NothingTold(before: seq<Note>)
    ensures before + Many(0) == before && before + [] == before
  {}

  lemma SourceFacts(r: Recipe, f: Facts, s: I.Source)
    requires if r.image.cosignPubKey == "" then I.RightUnsigned(r.image.ref, f.local, f.remote, s)
             else I.RightSigned(r.image.ref, f.local, f.remote, s)
    ensures s.inspected <==> LabelsKnown(r, f)
    ensures s.pinned <==> Pinned(r, f)
    ensures s.labels == SourceLabels(r, f)
  {
    hide Refs.BareImageRef, Refs.IsRegistryRef, Refs.ValidDigest, Refs.DigestReference, I.SelectedRef, I.WinningDigest;
  }

  /** What a finished install has to undo: the mounted target, an encrypted one's mapper, and the
      tree a secure one was staged from. */
  function Undos(r: Recipe): nat {
    1 + (if Encrypted(r) then 1 else 0) + if SecureBootc(r) then 1 else 0
  }

  /** The steps in their order, each with its own commands, one after the other. */
  ghost predicate Timeline(steps: seq<StepName>, r: Recipe, f: Facts, host: Host, at: seq<nat>, from: nat) {
    && |at| == |steps| + 1 && at[0] == from
    && forall k | 0 <= k < |steps| :: Worked(steps[k], r, f, host, at[k], at[k + 1])
  }

  /** Every step_start, each followed by what its step told. */
  function Talk(steps: seq<StepName>, turns: seq<seq<Note>>): seq<Note>
    requires |steps| == |turns|
  {
    if steps == [] then []
    else
      var n := |steps| - 1;
      Talk(steps[..n], turns[..n]) + [Begun(steps[n])] + turns[n]
  }

  predicate SaysIn(step: StepName, r: Recipe, f: Facts, dry: bool, notes: seq<Note>) {
    if dry && !IsPreflight(step) then notes == [Skipped(step)] else Says(step, r, f, notes)
  }

  ghost predicate AllSay(steps: seq<StepName>, r: Recipe, f: Facts, dry: bool, turns: seq<seq<Note>>) {
    |turns| == |steps| && forall k | 0 <= k < |steps| :: SaysIn(steps[k], r, f, dry, turns[k])
  }

  lemma TalkSnoc(steps: seq<StepName>, step: StepName, r: Recipe, f: Facts, dry: bool, turns: seq<seq<Note>>,
                 notes: seq<Note>)
    requires AllSay(steps, r, f, dry, turns) && SaysIn(step, r, f, dry, notes)
    ensures AllSay(steps + [step], r, f, dry, turns + [notes])
    ensures Talk(steps + [step], turns + [notes]) == Talk(steps, turns) + [Begun(step)] + notes
  {
    hide SaysIn;
    assert (steps + [step])[..|steps|] == steps && (turns + [notes])[..|turns|] == turns;
  }

  /** How far the run got, and all it told: the steps before the one that failed are done and have
      told what they tell; the one that failed has begun, unless its step_start was refused. */
  ghost predicate Reported(r: Recipe, f: Facts, dry: bool, fault: Option<Fault>, failed: Option<StepName>,
                           told: seq<Note>, turns: seq<seq<Note>>) {
    var steps, n := Assembled(r), |turns|;
    && n <= |steps| && AllSay(steps[..n], r, f, dry, turns) && (fault.None? <==> n == |steps|)
    && failed == (if told == [] || n == |steps| then None else Some(steps[n]))
    && if told == [] then n == 0
       else
         var talk := [Started] + Talk(steps[..n], turns);
         if fault.None? then told == talk
         else told == talk || talk + [Begun(steps[n])] <= told
  }

  /** The first `n` steps are done, and this is all that was told. */
  ghost predicate SoFar(r: Recipe, f: Facts, dry: bool, n: nat, told: seq<Note>, turns: seq<seq<Note>>) {
    var steps := Assembled(r);
    n <= |steps| && AllSay(steps[..n], r, f, dry, turns) && told == [Started] + Talk(steps[..n], turns)
  }

  lemma SoFarStarts(r: Recipe, f: Facts, dry: bool)
    ensures SoFar(r, f, dry, 0, [Started], [])
    ensures forall fault: Fault :: Reported(r, f, dry, Some(fault), None, [], [])
  {
    hide Assembled, Says;
    AssembledExactly(r);
    assert Included(r, PreflightUefi) && PreflightUefi in Assembled(r);
  }

  lemma SoFarOn(r: Recipe, f: Facts, dry: bool, n: nat, told: seq<Note>, turns: seq<seq<Note>>, notes: seq<Note>)
    requires n < |Assembled(r)| && SoFar(r, f, dry, n, told, turns) && SaysIn(Assembled(r)[n], r, f, dry, notes)
    ensures SoFar(r, f, dry, n + 1, told + [Begun(Assembled(r)[n])] + notes, turns + [notes])
  {
    hide Assembled, SaysIn, Talk, AllSay;
    var steps := Assembled(r);
    assert steps[..n + 1] == steps[..n] + [steps[n]];
    TalkSnoc(steps[..n], steps[n], r, f, dry, turns, notes);
  }

  lemma FarReported(r: Recipe, f: Facts, dry: bool, n: nat, said: seq<Note>, told: seq<Note>, turns: seq<seq<Note>>,
                    fault: Option<Fault>)
    requires SoFar(r, f, dry, n, said, turns)
    requires if fault.None? then n == |Assembled(r)| && told == said
             else n < |Assembled(r)| && (told == said || said + [Begun(Assembled(r)[n])] <= told)
    ensures Reported(r, f, dry, fault, if fault.None? then None else Some(Assembled(r)[n]), told, turns)
    ensures |turns| == n
  {
    hide Assembled, SaysIn, Talk;
  }

  /** A generated recovery key is told in every run in which something was encrypted with it. */
  lemma KeyIsDisclosed(r: Recipe, f: Facts, fault: Option<Fault>, failed: Option<StepName>, told: seq<Note>,
                       turns: seq<seq<Note>>)
    requires r.security.encryption.Tpm2Luks? && Reported(r, f, false, fault, failed, told, turns)
    requires |turns| <= |Assembled(r)| && LuksFormat in Assembled(r)[..|turns|]
    ensures f.recoveryKey.Some? && Disclosed(f.recoveryKey.value) in told
  {
    hide Assembled, Says;
    var steps := Assembled(r)[..|turns|];
    var k: nat :| k < |steps| && steps[k] == LuksFormat;
    SaysLuks(r, f, turns[k]);
    var note := Disclosed(f.recoveryKey.value);
    TalkHas(steps, turns, k, note);
    var talk := [Started] + Talk(steps, turns);
    assert note in talk && talk <= told;
  }

  lemma SaysLuks(r: Recipe, f: Facts, notes: seq<Note>)
    requires r.security.encryption.Tpm2Luks? && Says(LuksFormat, r, f, notes)
    ensures f.recoveryKey.Some? && notes == [Disclosed(f.recoveryKey.value)]
  {}

  lemma {:induction false} TalkHas(steps: seq<StepName>, turns: seq<seq<Note>>, k: nat, note: Note)
    requires |steps| == |turns| && k < |steps| && note in turns[k]
    ensures note in Talk(steps, turns)
    decreases |steps|
  {
    var n := |steps| - 1;
    if k < n {
      TalkHas(steps[..n], turns[..n], k, note);
    }
  }

  lemma TimelineSnoc(steps: seq<StepName>, step: StepName, r: Recipe, f: Facts, host: Host, at: seq<nat>,
                     from: nat, upTo: nat)
    requires at != [] && Timeline(steps, r, f, host, at, from)
    requires Worked(step, r, f, host, at[|at| - 1], upTo)
    ensures Timeline(steps + [step], r, f, host, at + [upTo], from)
  {
    hide Worked;
  }

  lemma PreflightWorked(step: StepName, r: Recipe, f: Facts, host: Host, tick: nat)
    requires IsPreflight(step)
    ensures Worked(step, r, f, host, tick, tick)
  {}

  lemma StageWorked(step: StepName, r: Recipe, f: Facts, host: Host, from: nat, upTo: nat)
    requires
      || (step.EspStage? && Did(8, host.verdict, from, upTo))
      || (step.MokStage? && Did(2, host.verdict, from, upTo))
    ensures Worked(step, r, f, host, from, upTo)
  {
    hide Did;
  }

  const NO_LAYOUT := Layout("", "", "", "")

  /** The device preflight-disk accepts, if it accepts one. */
  function AcceptedDisk(r: Recipe, f: Facts): Option<string> {
    if f.devices.None? then None
    else
      match D.Resolve(f.devices.value, r.target.disk, f.link)
      case None => None
      case Some(dev) => if D.RefusalReason(dev, f.rootDev).None? then Some(dev.path) else None
  }

  function LayoutFor(r: Recipe, disk: string): Layout {
    if r.target.bootloader.Grub2? then Grub2Layout(disk) else SystemdBootLayout(disk)
  }

  /** A write that stays on the accepted disk: the disk, one of its partitions, the container
      on its root partition, or that partition's type. */
  ghost predicate OnTarget(r: Recipe, disk: string, w: Write) {
    match w
    case OnDev(path) => path == disk || exists n: nat :: path == PartName(disk, n)
    case Through(backing) => backing == LayoutFor(r, disk).root
    case Retype(d, num) => d == disk && PartName(d, num) == LayoutFor(r, disk).root
  }

  ghost predicate AllOnTarget(r: Recipe, disk: Option<string>, ws: seq<Write>) {
    forall w <- ws :: disk.Some? && OnTarget(r, disk.value, w)
  }

  /** What podman leaves mounted lies below the redirected paths. */
  ghost predicate PodmanStaysInside(f: Facts) {
    forall m <- f.podmanMounts :: m.dev == Pseudo && exists p <- f.ramPaths :: StrictlyUnder(p, m.target)
  }

  /** Facts with nothing in them for a step to fail on. */
  ghost predicate Helpful(r: Recipe, f: Facts) {
    && f.uefi && f.toolsPresent && AcceptedDisk(r, f).Some?
    && f.local.Manifest? && f.remote.Manifest? && !CoreLabelOf(r, f).Malformed?
    && (r.image.cosignPubKey != "" ==> SoundSource(r, f))
    && f.passphraseFile.Some? && f.recoveryKey.Some? && f.uki
  }

  ghost predicate SoundSource(r: Recipe, f: Facts) {
    && Refs.IsRegistryRef(r.image.ref)
    && Refs.ValidDigest(I.WinningDigest(Refs.BareImageRef(r.image.ref), f.local, f.remote))
  }

  /** The labels of the image that is installed are known: from the local copy, unless the recipe's
      digest is another one, or from the registry. */
  predicate LabelsKnown(r: Recipe, f: Facts) {
    || f.remote.Manifest?
    || (f.local.Manifest? && I.Agrees(r.image.ref, r.image.cosignPubKey != "", f.local.digest))
  }

  /** Those labels, and none if they are not known. */
  function SourceLabels(r: Recipe, f: Facts): I.Labels {
    if f.local.Manifest? && I.Agrees(r.image.ref, r.image.cosignPubKey != "", f.local.digest) then f.local.labels
    else if f.remote.Manifest? then f.remote.labels
    else map[]
  }

  /** What the label of the image that is installed says of its core Flatpaks. */
  function CoreLabelOf(r: Recipe, f: Facts): CoreLabel {
    f.coreOf(SourceLabels(r, f))
  }

  /** The unsigned selection is pinned to a digest. */
  predicate Pinned(r: Recipe, f: Facts) {
    var bare := Refs.BareImageRef(r.image.ref);
    && r.image.cosignPubKey == "" && Refs.IsRegistryRef(r.image.ref)
    && (Refs.DigestReference(bare).Some? || Refs.ValidDigest(I.WinningDigest(bare, f.local, f.remote)))
  }

  /** The image cannot be had, or a signed one has no digest or was not verified in three tries. */
  ghost predicate ImageFails(r: Recipe, f: Facts, cosign: I.Cosign, calls: nat) {
    if r.image.cosignPubKey == "" then !f.local.Manifest? && f.remote.Failed?
    else !SoundSource(r, f) || forall k | calls <= k < calls + I.VERIFY_ATTEMPTS :: !cosign.verdict(k)
  }

  /** What preflight-image passes: an image that can be had, a signed one pinned to a digest and
      verified, and with the core Flatpaks wanted a known label that is well-formed or absent. */
  ghost predicate ImageAccepted(r: Recipe, f: Facts, cosign: I.Cosign, calls: nat) {
    !ImageFails(r, f, cosign, calls) && LabelAccepted(r, f)
  }

  predicate LabelAccepted(r: Recipe, f: Facts) {
    r.system.coreFlatpaks ==> LabelsKnown(r, f) && !CoreLabelOf(r, f).Malformed?
  }

  /** The reference that is installed from, before a native bootc's argument is stripped. */
  function SourceRef(r: Recipe, f: Facts): string {
    I.SelectedRef(r.image.ref, r.image.cosignPubKey != "", f.local, f.remote)
  }

  /** What bootc was given, compared with the reference that cosign verified last: the recipe's
      selected source, and for a signed recipe exactly as it was verified unless a native
      bootc's argument does not survive its stripping. */
  ghost predicate GivenAsVerified(r: Recipe, f: Facts, cosign: I.Cosign, installed: string)
    reads cosign
  {
    var source := SourceRef(r, f);
    && installed == Refs.Given(source, f.nativeBootc)
    && (r.image.cosignPubKey != "" ==>
          && cosign.calls != [] && cosign.calls[|cosign.calls| - 1] == source && cosign.verdict(|cosign.calls| - 1)
          && Refs.Immutable(source)
          && (installed == source <==> !f.nativeBootc || Refs.Survives(Refs.RepositoryName(source))))
  }

  /** The entry's table after the target's undo ran with the target's own tree already off:
      what was mounted at the target before is gone. */
  function LateTable(entry: seq<Mount>, dir: Path): seq<Mount> {
    if TopAt(entry, dir) >= 0 then WithoutTree(entry, dir) else entry
  }

  /** No mount and, but for an encrypted install, no mapper is on this root partition. */
  ghost predicate UnusedRoot(r: Recipe, root: string, ms: seq<Mount>, mapper: MapperState) {
    NoneFrom(ms, Block(root)) && (Encrypted(r) || mapper.NotOpen? || mapper.backing != root)
  }

  /** What the steps rely on validation for. */
  ghost predicate Installable(r: Recipe) {
    && r.image.family.Bootc? && r.image.ref != "" && ValidTarget(r.target)
    && (r.security.encryption.Unencrypted? || r.security.encryption.Tpm2Luks? || WantsPassphrase(r.security.encryption))
  }

  lemma ValidIsInstallable(l: Loaded, m: Machine)
    requires Issues(l, m) == []
    ensures Installable(l.recipe)
  {
    hide Issues, ValidTarget, ValidSystem;
    ValidExactlyWhen(l, m);
  }

  function Shape(closes: bool, unmounts: bool, removes: bool): seq<Undo> {
    (if closes then [CloseMapper] else []) + (if unmounts then [UnmountTarget] else [])
    + (if removes then [RemoveSecureRoot] else [])
  }

  function Base(dir: Path): Path {
    dir + [".firn-install"]
  }

  function BindPaths(f: Facts, dir: Path): seq<Path> {
    [Base(dir)] + f.ramPaths
  }

  class Env {
    const host: Host
    const cosign: I.Cosign
    const recipe: Recipe
    const facts: Facts
    const dir: Path        // TargetDir
    const scratch: Path    // its neighbour for the subvolumes
    const emitVerdict: nat -> bool

    var layout: Layout
    var rootDev: Dev
    var luksKey: string
    var targetDisk: string
    var bootcSourceRef: string
    var installedRef: Option<string>   // what bootc was given
    var secureRoot: bool
    var cleanup: seq<Undo>
    var told: seq<Note>                // what the emitter has accepted
    var emitFailed: bool

    ghost const entry: seq<Mount>
    ghost const entryOverride: Option<Path>
    ghost const earlierWrites: seq<Write>
    ghost const earlierDenied: seq<Denial>
    ghost const entryMapper: H.MapperState
    ghost const began: nat               // the host's tick
    ghost const entryDeployed: Option<string>
    ghost const firstCall: nat           // how often cosign was called before
    ghost var done: set<StepName>
    ghost var thawsFailed: bool
    ghost var thawAt: nat                // the tick of the first of two failed thaws
    ghost var finalizedAt: Option<nat>   // the tick of a finished finalize's first command
    ghost var partitioning: seq<Write>   // what the partition step wrote
    ghost var at: seq<nat>               // the ticks between the finished steps
    ghost var turns: seq<seq<Note>>      // what each finished step told
    ghost var closes: bool
    ghost var unmounts: bool
    ghost var tookDown: bool   // retag-root took the tree off and has not put it back

    constructor (host: Host, cosign: I.Cosign, recipe: Recipe, facts: Facts, dir: Path, scratch: Path,
                 emitVerdict: nat -> bool)
      requires host.Sane() && !host.frozen && !host.mapper.Opened?
      ensures this.host == host && this.cosign == cosign && this.recipe == recipe && this.facts == facts
      ensures this.dir == dir && this.scratch == scratch && this.emitVerdict == emitVerdict
      ensures entry == host.mounts && entryOverride == host.override
      ensures earlierWrites == host.writes && earlierDenied == host.denied
      ensures entryMapper == host.mapper && began == host.tick && entryDeployed == host.deployed
      ensures firstCall == |cosign.calls|
      ensures Held() && Written() && Known() && Has() && Trusted() && done == {} && !thawsFailed && !tookDown && Going()
      ensures cleanup == [] && told == [] && !emitFailed && partitioning == [] && Clean()
      ensures at == [host.tick] && turns == []
    {
      this.host, this.cosign, this.recipe, this.facts := host, cosign, recipe, facts;
      this.dir, this.scratch, this.emitVerdict := dir, scratch, emitVerdict;
      layout, rootDev, luksKey, targetDisk, bootcSourceRef, installedRef := NO_LAYOUT, Block(""), "", "", "", None;
      secureRoot, cleanup, told, emitFailed := false, [], [], false;
      entry, entryOverride := host.mounts, host.override;
      earlierWrites, earlierDenied, entryMapper, began := host.writes, host.denied, host.mapper, host.tick;
      firstCall := |cosign.calls|;
      entryDeployed, thawAt, finalizedAt, at, turns := host.deployed, 0, None, [host.tick], [];
      done, thawsFailed, closes, unmounts, tookDown, partitioning := {}, false, false, false, false, [];
      new;
      NothingExtra(entry, New());
    }

    // ---------- what always holds ----------

    ghost function Accepted(): Option<string> {
      AcceptedDisk(recipe, facts)
    }

    /** A host, an emitter, a cosign and facts with nothing in them to fail on, but that the
        host may refuse to retype a partition. */
    ghost predicate Cooperative() {
      && host.Willing() && (forall k :: emitVerdict(k)) && (forall k :: cosign.verdict(k))
      && (Encrypted(recipe) ==> NoneFrom(entry, Mapper)) && Helpful(recipe, facts)
    }

    /** What a step after the partitioning destroys when it succeeds. */
    ghost function WritesOf(step: StepName): seq<Write> {
      if Accepted().None? then []
      else
        var disk, l := Accepted().value, LayoutFor(recipe, Accepted().value);
        match step
        case FormatBoot => [OnDev(l.esp)] + if l.boot != "" then [OnDev(l.boot)] else []
        case LuksFormat => [OnDev(l.root)]
        case FormatRoot => [if Encrypted(recipe) then Through(l.root) else OnDev(l.root)]
        case TpmEnroll => [OnDev(l.root)]
        case RetagRoot => [Retype(disk, if recipe.target.bootloader.Grub2? then 3 else 2)]
        case _ => []
    }

    /** None of the releases that would leave something behind has failed. */
    ghost predicate Clean()
      reads host`denied
    {
      host.denied == earlierDenied
    }

    /** The denials of this run so far. */
    ghost function New(): seq<Denial>
      requires earlierDenied <= host.denied
      reads host`denied
    {
      host.denied[|earlierDenied|..]
    }

    /** Nothing but binds has stuck so far. */
    ghost predicate Going()
      reads host`denied
    {
      earlierDenied <= host.denied && OnlyBinds(New())
    }

    /** Above the entry's table is only what lies at or below a stuck bind and, from mount-target
        on, the target's tree with its unmount registered; and an opened mapper has its close
        registered. */
    ghost predicate Bookkept()
      requires earlierDenied <= host.denied
      reads this`unmounts, this`tookDown, this`closes, host`mounts, host`mapper, host`denied
    {
      && (if unmounts && !tookDown then TreeOn(host.mounts, entry, dir, New())
          else OnlyStuck(host.mounts, entry, New()))
      && (host.mapper.Opened? ==> closes) && (closes ==> NoneFrom(entry, Mapper))
    }

    /** Every denial, a freeze that stayed and a finished finalize have their commands. */
    ghost predicate Timed()
      reads this`thawsFailed, this`thawAt, this`finalizedAt, host`tick, host`denied
    {
      && began <= host.tick && AllHappened(host.denied, host.tick)
      && (thawsFailed ==> ThawsFailedAt(host.verdict, thawAt, began, host.tick))
      && (finalizedAt.Some? ==> FinalizedAt(host.verdict, finalizedAt.value, began, host.tick))
    }

    ghost predicate AllHappened(log: seq<Denial>, now: nat) {
      && earlierDenied <= log
      && forall k | |earlierDenied| <= k < |log| :: HappenedAt(log[k], k, now)
    }

    ghost predicate HappenedAt(d: Denial, k: nat, now: nat) {
      Happened(d, k == |earlierDenied|, host.verdict, began, now, facts, dir)
    }

    /** The cleanup stack holds what is registered, and the override is the entry's. */
    ghost predicate Kept()
      reads this`cleanup, this`closes, this`unmounts, this`tookDown, this`secureRoot
      reads host`mounts, host`mapper, host`override
    {
      && host.Sane() && host.override == entryOverride && cleanup == Shape(closes, unmounts, secureRoot)
      && (tookDown ==> unmounts && (Encrypted(recipe) ==> closes))
      && (closes || host.mapper.NotOpen? || host.mapper == entryMapper)
    }

    ghost predicate Held()
      reads this`cleanup, this`closes, this`unmounts, this`tookDown, this`secureRoot, this`thawsFailed, this`emitFailed
      reads this`thawAt, this`finalizedAt
      reads host`tick, host`mounts, host`mapper, host`override, host`frozen, host`denied
    {
      && Kept() && host.frozen == thawsFailed && Timed() && (Going() ==> Bookkept())
      && (Cooperative() ==> !emitFailed && Clean())
    }

    ghost predicate Written()
      reads host`writes
    {
      && earlierWrites <= host.writes && AllOnTarget(recipe, Accepted(), host.writes[|earlierWrites|..])
      && (host.writes != earlierWrites ==> Cleared())
    }

    /** What the preflight checks come to. */
    ghost predicate Cleared() {
      facts.uefi && facts.toolsPresent && Accepted().Some? && ImageAccepted(recipe, facts, cosign, firstCall)
    }

    ghost predicate Known()
      reads this`targetDisk
    {
      targetDisk == "" || Accepted() == Some(targetDisk)
    }

    /** The recipe's selected source; a signed recipe's is the reference of cosign's last call,
        which succeeded, and pinned to a digest. */
    ghost predicate Verified(ref: string)
      reads cosign
    {
      && ref == SourceRef(recipe, facts)
      && (recipe.image.cosignPubKey != "" ==>
            && cosign.calls != [] && cosign.calls[|cosign.calls| - 1] == ref && cosign.verdict(|cosign.calls| - 1)
            && Refs.Immutable(ref))
    }

    /** What each finished step has set for the later ones. */
    ghost predicate Has()
      reads this`done, this`bootcSourceRef, this`installedRef, this`secureRoot, this`thawsFailed
      reads this`finalizedAt, cosign
      reads this`layout, this`rootDev, this`luksKey, this`closes, this`unmounts, this`tookDown
      reads host`mounts, host`mapper, host`keys, host`denied, host`deployed
    {
      HasSource() && HasFinal() && HasDisk()
    }

    ghost predicate HasSource()
      reads this`done, this`bootcSourceRef, this`installedRef, this`secureRoot, cosign, host`deployed
    {
      && (PreflightImage in done ==> bootcSourceRef != "" && Verified(bootcSourceRef))
      && (installedRef.Some? ==> PreflightImage in done && Given())
      && (PreflightImage !in done ==> |cosign.calls| == firstCall)
      && (BootcInstall in done ==> installedRef.Some?)
      && host.deployed == (if BootcInstall in done then installedRef else entryDeployed)
      && (BootcInstall in done && SecureBootc(recipe) ==> secureRoot)
      && (secureRoot ==> BootcInstall in done && SecureBootc(recipe))
    }

    ghost predicate Given()
      reads this`bootcSourceRef, this`installedRef
    {
      installedRef == Some(Refs.Given(bootcSourceRef, facts.nativeBootc))
    }

    ghost predicate HasFinal()
      reads this`done, this`thawsFailed, this`finalizedAt
    {
      !thawsFailed && (Finalize in done ==> finalizedAt.Some?)
    }

    ghost predicate HasDisk()
      reads this`done, this`layout, this`rootDev, this`luksKey, this`closes, this`unmounts, this`tookDown
      reads host`mounts, host`mapper, host`keys, host`denied
    {
      HasChecks() && HasLayout() && HasKey() && HasMapper() && HasTree()
    }

    ghost predicate HasChecks()
      reads this`done
    {
      && (PreflightUefi in done ==> facts.uefi) && (PreflightTools in done ==> facts.toolsPresent)
      && (PreflightDisk in done ==> Accepted().Some?)
      && (PreflightImage in done ==> ImageAccepted(recipe, facts, cosign, firstCall))
    }

    ghost predicate HasLayout()
      reads this`done, this`layout, this`rootDev
    {
      && (Partition in done ==> Laid())
      && (Partition in done && LuksFormat !in done ==> rootDev == Block(layout.root))
    }

    ghost predicate HasKey()
      reads this`done, this`layout, this`rootDev, this`luksKey, this`closes, host`keys
    {
      && (LuksFormat in done ==> Partition in done && Encrypted(recipe) && rootDev == Mapper)
      && (LuksFormat in done ==> host.Unlocks(layout.root, luksKey))
      && (LuksFormat in done <==> closes)
    }

    ghost predicate HasMapper()
      reads this`done, this`layout, host`mapper
    {
      LuksFormat in done ==> host.mapper == Opened(layout.root)
    }

    ghost predicate HasTree()
      reads this`done, this`layout, this`rootDev, this`unmounts, this`tookDown, host`mounts, host`denied
    {
      && (MountTarget in done <==> unmounts) && !tookDown
      && (MountTarget in done && Clean() ==> host.mounts == entry + TargetMounts())
    }

    /** Nothing at the start keeps the root partition from being retyped. */
    ghost predicate Free() {
      Accepted().Some? ==> UnusedRoot(recipe, LayoutFor(recipe, Accepted().value).root, entry, entryMapper)
    }

    /** The root, the separate /boot if the layout has one, and the ESP. */
    ghost function TargetMounts(): seq<Mount>
      reads this`layout, this`rootDev
    {
      var boot := if layout.boot == "" then None else Some(Block(layout.boot));
      [Mount(rootDev, dir)] + BootMounts(boot, Block(layout.esp), dir)
    }

    // ---------- the engine's services ----------

    method Emit(note: Note) returns (ok: bool)
      modifies this`told, this`emitFailed
      ensures ok == !emitFailed && (old(emitFailed) ==> emitFailed)
      ensures !old(emitFailed) ==> ok == emitVerdict(|old(told)|)
      ensures told == old(told) + if ok then [note] else []
      ensures old(Held()) ==> Held()
      ensures Cooperative() && !old(emitFailed) ==> ok
    {
      hide Helpful, Kept, Timed, Going, Bookkept;
      if emitFailed {
        return false;
      }
      ok := emitVerdict(|told|);
      if ok {
        told := told + [note];
      }
      emitFailed := !ok;
    }

    method EmitMany(n: nat) returns (ok: bool)
      modifies this`told, this`emitFailed
      ensures (old(emitFailed) ==> emitFailed) && (!ok ==> emitFailed)
      ensures old(told) <= told <= old(told) + Many(n) && (ok ==> told == old(told) + Many(n))
      ensures old(Held()) ==> Held()
      ensures Cooperative() && !old(emitFailed) ==> ok && !emitFailed
    {
      hide Held, Written, Has, Trusted, Known, Cooperative, HasDisk;
      ok := true;
      for i := 0 to n
        invariant (old(emitFailed) ==> emitFailed) && (Cooperative() && !old(emitFailed) ==> ok && !emitFailed)
        invariant old(Held()) ==> Held()
        invariant told == old(told) + Many(i) && ok
      {
        ok := Emit(Told);
        assert Many(i + 1) == Many(i) + [Told];
        if !ok {
          return;
        }
      }
    }

    // ---------- preflight (internal/steps/preflight.go) ----------

    method RunPreflightUefi() returns (fault: Option<Fault>)
      modifies this`told, this`emitFailed
      ensures fault.Some? ==> !IsOrderFault(fault.value)
      ensures old(Held()) ==> Held()
      ensures old(told) <= told
      ensures Cooperative() && !old(emitFailed) ==> fault.None?
      ensures fault.None? ==> facts.uefi && Says(PreflightUefi, recipe, facts, Since(old(told), told))
      ensures fault == Some(NotUefi) <==> !facts.uefi
    {
      hide Held, Written, Has, Trusted, Known;
      if !facts.uefi {
        return Some(NotUefi);
      }
      if !facts.tpm {
        var ok := Emit(Told);
        if !ok {
          return Some(EmitRefused);
        }
      }
      fault := None;
    }

    method RunPreflightTools() returns (fault: Option<Fault>)
      modifies this`told, this`emitFailed
      ensures fault.Some? ==> !IsOrderFault(fault.value)
      ensures old(Held()) ==> Held()
      ensures old(told) <= told
      ensures Cooperative() && !old(emitFailed) ==> fault.None?
      ensures fault.None? ==> facts.toolsPresent && Says(PreflightTools, recipe, facts, Since(old(told), told))
      ensures fault == Some(ToolsMissing) <==> !facts.toolsPresent
    {
      hide Held, Written, Has, Trusted, Known;
      if !facts.toolsPresent {
        return Some(ToolsMissing);
      }
      var ok := Emit(Told);
      fault := if ok then None else Some(EmitRefused);
    }

    method RunPreflightImage() returns (fault: Option<Fault>)
      modifies this`told, this`emitFailed, this`bootcSourceRef, cosign
      ensures fault.Some? ==> !IsOrderFault(fault.value)
      ensures fault.None? && recipe.image.ref != "" ==> bootcSourceRef != ""
      ensures fault.None? ==> Verified(bootcSourceRef) && ImageAccepted(recipe, facts, cosign, old(|cosign.calls|))
      ensures fault.None? && !emitFailed ==> Says(PreflightImage, recipe, facts, Since(old(told), told))
      ensures fault.None? && emitFailed ==>
        recipe.image.cosignPubKey == "" && !Pinned(recipe, facts) && !recipe.system.coreFlatpaks
      ensures fault == Some(ImageRefused) <==> ImageFails(recipe, facts, cosign, old(|cosign.calls|))
      ensures fault.Some? && fault.value.LabelUnreadable? ==> recipe.system.coreFlatpaks && !LabelsKnown(recipe, facts)
      ensures fault.Some? && fault.value.LabelMalformed? ==>
        recipe.system.coreFlatpaks && CoreLabelOf(recipe, facts).Malformed?
      ensures old(Held()) ==> Held()
      ensures old(told) <= told
      ensures Cooperative() && !old(emitFailed) ==> fault.None?
    {
      hide *;
      OrderFaults();
      var chosen := ChooseSource();
      if chosen.Refused? {
        return Some(ImageRefused);
      }
      SetSource(chosen.source.ref);
      NothingTold(told);
      if recipe.image.cosignPubKey != "" || chosen.source.pinned {
        var ok := Emit(Told);
        if !ok {
          return Some(EmitRefused);
        }
      }
      if recipe.system.coreFlatpaks {
        fault := ReadCoreFlatpaks(chosen.source);
      } else {
        NothingTold(told);
        fault := None;
      }
      if fault.None? {
        ImagePasses(old(|cosign.calls|));
      }
      if fault.None? && !emitFailed {
        ImageSays(recipe, facts, old(told), told, cosign.warnings - old(cosign.warnings));
      }
    }

    lemma ImagePasses(calls: nat)
      requires !ImageFails(recipe, facts, cosign, calls)
      requires recipe.system.coreFlatpaks ==> LabelsKnown(recipe, facts) && !CoreLabelOf(recipe, facts).Malformed?
      ensures ImageAccepted(recipe, facts, cosign, calls)
    {
      hide ImageFails, LabelsKnown;
    }

    method ChooseSource() returns (chosen: I.Selection)
      modifies cosign, this`told, this`emitFailed
      ensures chosen.Refused? <==> ImageFails(recipe, facts, cosign, old(|cosign.calls|))
      ensures chosen.Selected? ==> Verified(chosen.source.ref) && (recipe.image.ref != "" ==> chosen.source.ref != "")
      ensures chosen.Selected? ==> (chosen.source.inspected <==> LabelsKnown(recipe, facts))
      ensures chosen.Selected? ==> facts.coreOf(chosen.source.labels) == CoreLabelOf(recipe, facts)
      ensures Cooperative() ==> !CoreLabelOf(recipe, facts).Malformed?
      ensures chosen.Selected? ==> (chosen.source.pinned <==> Pinned(recipe, facts))
      ensures chosen.Selected? ==>
        if recipe.image.cosignPubKey != "" then SoundSource(recipe, facts)
        else facts.local.Manifest? || !facts.remote.Failed?
      ensures old(cosign.warnings) <= cosign.warnings
      ensures recipe.image.cosignPubKey == "" ==> cosign.warnings == old(cosign.warnings)
      ensures old(told) <= told && (old(emitFailed) ==> emitFailed)
      ensures !emitFailed ==> told == old(told) + Many(cosign.warnings - old(cosign.warnings))
      ensures (old(Held()) ==> Held()) && (Cooperative() && !old(emitFailed) ==> !emitFailed)
      ensures Cooperative() ==> chosen.Selected? && chosen.source.inspected
    {
      hide I.RightSigned, I.RightUnsigned, I.WinningDigest, I.SelectedRef, Refs.Immutable, Held, Many, SourceLabels;
      hide LabelsKnown, Pinned;
      hide Refs.IsRegistryRef, Refs.ValidDigest, Refs.BareImageRef, AcceptedDisk, ImageAccepted;
      ghost var first := |cosign.calls|;
      var before := cosign.warnings;
      chosen := cosign.CheckAndPinImage(recipe.image.ref, recipe.image.cosignPubKey, facts.local, facts.remote);
      NothingTold(told);
      // The retry warnings' own errors are ignored; the first one sticks.
      if cosign.warnings > before {
        var _ := EmitMany(cosign.warnings - before);
      }
      if chosen.Selected? {
        SourceFacts(recipe, facts, chosen.source);
      }
      if Cooperative() {
        assert cosign.verdict(first);
        I.InspectedWhenBothKnown(recipe.image.ref, facts.local, facts.remote, chosen.source);
      }
    }

    method SetSource(ref: string)
      modifies this`bootcSourceRef
      ensures bootcSourceRef == ref
    {
      hide AcceptedDisk, ImageAccepted, AllOnTarget, TreeOn, OnlyStuck, Shape;
      bootcSourceRef := ref;
    }

    method ReadCoreFlatpaks(source: I.Source) returns (fault: Option<Fault>)
      modifies this`told, this`emitFailed
      ensures fault.Some? ==> !IsOrderFault(fault.value)
      ensures fault == Some(LabelUnreadable) <==> !source.inspected
      ensures fault == Some(LabelMalformed) <==> source.inspected && facts.coreOf(source.labels).Malformed?
      ensures fault.Some? && source.inspected && !facts.coreOf(source.labels).Malformed? ==> fault == Some(EmitRefused)
      ensures fault.None? ==> told == old(told) + [Told] && !emitFailed
      ensures old(told) <= told && (old(emitFailed) ==> emitFailed)
      ensures old(Held()) ==> Held()
      ensures
        Cooperative() && !old(emitFailed) && source.inspected && !facts.coreOf(source.labels).Malformed? ==>
        fault.None?
    {
      hide Held, Written, Has, Trusted, Known, HasDisk;
      if !source.inspected {
        return Some(LabelUnreadable);
      }
      if facts.coreOf(source.labels).Malformed? {
        return Some(LabelMalformed);
      }
      var ok := Emit(Told);
      fault := if ok then None else Some(EmitRefused);
    }

    /** The refusal rules; only an accepted device becomes the target. */
    method RunPreflightDisk() returns (fault: Option<Fault>)
      requires Known()
      modifies this`told, this`emitFailed, this`targetDisk
      ensures Known()
      ensures fault.Some? ==> !IsOrderFault(fault.value)
      ensures fault.None? ==> Accepted().Some? && targetDisk == Accepted().value
      ensures fault.None? ==> Says(PreflightDisk, recipe, facts, Since(old(told), told))
      ensures fault == Some(NoDevices) <==> facts.devices.None?
      ensures facts.devices.Some? ==>
        var dev := D.Resolve(facts.devices.value, recipe.target.disk, facts.link);
        && (fault == Some(DiskUnresolved) <==> dev.None?)
        && (dev.Some? && D.RefusalReason(dev.value, facts.rootDev).Some? ==>
              fault == Some(DiskRefused(D.RefusalReason(dev.value, facts.rootDev).value)))
      ensures Accepted().Some? && fault.Some? ==> fault == Some(EmitRefused)
      ensures old(Held()) ==> Held()
      ensures old(told) <= told
      ensures Cooperative() && !old(emitFailed) ==> fault.None?
    {
      hide D.Resolve, D.RefusalReason;
      if facts.devices.None? {
        return Some(NoDevices);
      }
      var dev := D.Resolve(facts.devices.value, recipe.target.disk, facts.link);
      if dev.None? {
        return Some(DiskUnresolved);
      }
      var reason := D.RefusalReason(dev.value, facts.rootDev);
      if reason.Some? {
        return Some(DiskRefused(reason.value));
      }
      targetDisk := dev.value.path;
      var ok := Emit(Told);
      fault := if ok then None else Some(EmitRefused);
    }

    // ---------- partitioning and formatting (internal/steps/bootc.go) ----------

    /** targetDisk: the device preflight-disk stored, else the target resolved again. */
    method TargetDisk() returns (disk: Option<string>)
      requires Known()
      modifies this`targetDisk
      ensures Accepted().Some? ==> disk == Accepted() && Known()
      ensures disk.None? ==> targetDisk == old(targetDisk)
    {
      hide D.Resolve, D.RefusalReason;
      if targetDisk != "" {
        return Some(targetDisk);
      }
      if facts.devices.None? {
        return None;
      }
      var dev := D.Resolve(facts.devices.value, recipe.target.disk, facts.link);
      if dev.None? {
        return None;
      }
      targetDisk := dev.value.path;
      disk := Some(targetDisk);
    }

    /** Any other command. */
    method Command() returns (ok: bool)
      modifies host`tick
      ensures old(Held()) ==> Held()
      ensures Cooperative() ==> ok
      ensures host.tick == old(host.tick) + 1 && ok == host.verdict(old(host.tick))
    {
      hide AcceptedDisk, ImageAccepted, Helpful, Bookkept, Kept, Going;
      ok := host.Run();
    }

    /** A destructive command, which must stay on the accepted disk. */
    method Overwrite(dev: Dev, ghost w: Write) returns (ok: bool)
      requires Reached(dev, host.mapper) == [w]
      requires Written() && Cleared() && OnTarget(recipe, Accepted().value, w)
      modifies host`tick, host`writes
      ensures Written()
      ensures old(Held()) ==> Held()
      ensures host.writes == old(host.writes) + [w] && (Cooperative() ==> ok)
      ensures host.tick == old(host.tick) + 1 && ok == host.verdict(old(host.tick))
    {
      hide OnTarget, AcceptedDisk, ImageAccepted, Helpful, Bookkept, Kept, Going;
      ok := host.Overwrite(dev);
      assert host.writes[|earlierWrites|..] == old(host.writes[|earlierWrites|..]) + [w];
    }

    /** The retype, the one command that a cooperative host may refuse. */
    method SetRootType(disk: string, num: nat) returns (ok: bool)
      requires Written() && Cleared() && OnTarget(recipe, Accepted().value, Retype(disk, num))
      modifies host`tick, host`writes
      ensures Written()
      ensures old(Held()) ==> Held()
      ensures host.writes == old(host.writes) + [Retype(disk, num)]
      ensures host.Willing() && host.Retypes() && !host.Busy(PartName(disk, num)) ==> ok
      ensures host.NeverRetypes() ==> !ok
      ensures host.tick == old(host.tick) + 1
      ensures ok ==> host.verdict(old(host.tick)) && host.retypes(old(host.tick))
    {
      hide PartName, OnTarget, AcceptedDisk, ImageAccepted, Helpful, Bookkept, Kept, Going;
      ok := host.SetPartitionType(disk, num);
      assert host.writes[|earlierWrites|..] == old(host.writes[|earlierWrites|..]) + [Retype(disk, num)];
    }

    /** The retry by force, and the wiping of stale signatures. */
    method Forced(disk: string) returns (ok: bool)
      requires Written() && Held() && Cleared() && Accepted() == Some(disk)
      modifies host`tick, host`writes
      ensures old(host.tick) <= host.tick
      ensures Written() && Held()
      ensures old(host.writes) + [OnDev(disk)] <= host.writes && (Cooperative() ==> ok)
      ensures ok <==> host.verdict(old(host.tick) + 1) && host.verdict(old(host.tick) + 2)
      ensures ok ==>
        && host.tick == WipedAt(host.verdict, old(host.tick) + 4, 1) + 1
        && host.writes == old(host.writes) + [OnDev(disk)] + WipesAt(host.verdict, old(host.tick) + 4, 1, disk)
    {
      hide Cooperative, AcceptedDisk, ImageAccepted, PartName, Held, Written, WipedAt, WipesAt, OnTarget;
      DiskOnTarget(disk);
      var _ := Command();   // udevadm settle
      ok := Overwrite(Block(disk), OnDev(disk));
      if !ok {
        return;
      }
      ok := Command();      // partprobe
      if !ok {
        return;
      }
      var _ := Command();   // udevadm settle
      ghost var forced, from := host.writes, host.tick;
      for i := 1 to 5
        invariant Written() && Held() && from <= host.tick && forced <= host.writes
        invariant WipedAt(host.verdict, host.tick, i) == WipedAt(host.verdict, from, 1)
        invariant
          host.writes + WipesAt(host.verdict, host.tick, i, disk) == forced + WipesAt(host.verdict, from, 1, disk)
      {
        WipingOn(host.writes, host.tick, i, disk);
        var present := Command();
        if present {
          var _ := Overwrite(Block(PartName(disk, i)), OnDev(PartName(disk, i)));
        }
      }
      WipingEnds(host.writes, host.tick, disk);
      ok := true;
      var _ := Command();   // udevadm settle
    }

    lemma DiskOnTarget(disk: string)
      requires Accepted() == Some(disk)
      ensures OnTarget(recipe, Accepted().value, OnDev(disk))
      ensures forall n: nat :: OnTarget(recipe, Accepted().value, OnDev(PartName(disk, n)))
    {
      hide AcceptedDisk, PartName;
    }

    /** partition: sfdisk, once more by force, then the stale signatures of the partitions. */
    method Partitioned(disk: string) returns (ok: bool)
      requires Written() && Held() && Cleared() && Accepted() == Some(disk)
      modifies host`tick, host`writes
      ensures old(host.tick) <= host.tick
      ensures Written() && Held()
      ensures old(host.writes) + [OnDev(disk)] <= host.writes && (Cooperative() ==> ok)
      ensures ok <==> PartitionWorks(host.verdict, old(host.tick))
      ensures ok ==> PartitionWorked(host.verdict, old(host.tick), host.tick)
      ensures ok ==> host.writes == old(host.writes) + PartitionWrites(host.verdict, old(host.tick), disk)
    {
      hide Cooperative, AcceptedDisk, ImageAccepted, PartName, Held, Written, WipedAt, WipesAt, OnTarget;
      DiskOnTarget(disk);
      ok := Overwrite(Block(disk), OnDev(disk));
      if !ok {
        ok := Forced(disk);
        if !ok {
          return;
        }
      }
      var _ := Command();     // udevadm settle
    }

    lemma WipingOn(ws: seq<Write>, t: nat, i: nat, disk: string)
      requires i <= 4
      ensures host.verdict(t) ==>
        && WipedAt(host.verdict, t, i) == WipedAt(host.verdict, t + 2, i + 1)
        && ws + WipesAt(host.verdict, t, i, disk)
             == (ws + [OnDev(PartName(disk, i))]) + WipesAt(host.verdict, t + 2, i + 1, disk)
      ensures !host.verdict(t) ==>
        && WipedAt(host.verdict, t, i) == WipedAt(host.verdict, t + 1, i + 1)
        && WipesAt(host.verdict, t, i, disk) == WipesAt(host.verdict, t + 1, i + 1, disk)
    {
      hide PartName;
    }

    lemma WipingEnds(ws: seq<Write>, t: nat, disk: string)
      ensures WipedAt(host.verdict, t, 5) == t && ws + WipesAt(host.verdict, t, 5, disk) == ws
    {}

    method RunPartition() returns (fault: Option<Fault>)
      requires Known() && Held() && Written() && Cleared()
      modifies host`tick, host`writes, this`targetDisk, this`layout, this`rootDev
      ensures old(host.tick) <= host.tick
      ensures Known() && Held() && Written()
      ensures fault.Some? && IsOrderFault(fault.value) ==> fault.value.ZfsRoot? && recipe.target.filesystem.Zfs?
      ensures fault.None? ==> layout == LayoutFor(recipe, Accepted().value) && rootDev == Block(layout.root)
      ensures fault.Some? ==> layout == old(layout) && rootDev == old(rootDev)
      ensures recipe.target.filesystem.Zfs? <==> fault == Some(ZfsRoot)
      ensures fault == Some(ZfsRoot) ==> host.tick == old(host.tick) && host.writes == old(host.writes)
      ensures !recipe.target.filesystem.Zfs? ==> (fault.None? <==> PartitionWorks(host.verdict, old(host.tick)))
      ensures fault.None? ==>
        host.writes == old(host.writes) + PartitionWrites(host.verdict, old(host.tick), Accepted().value)
      ensures fault.None? ==> old(host.writes) + [OnDev(Accepted().value)] <= host.writes
      ensures fault.None? ==> Worked(Partition, recipe, facts, host, old(host.tick), host.tick)
      ensures Cooperative() && !recipe.target.filesystem.Zfs? ==> fault.None?
    {
      hide Cooperative, AcceptedDisk, ImageAccepted, PartName, AllOnTarget, Held, Written, HasSource, Trusted;
      hide Helpful, PartitionWorks, PartitionWrites;
      hide PartitionWorked;
      if recipe.target.filesystem.Zfs? {
        return Some(ZfsRoot);
      }
      var disk := TargetDisk();
      if disk.None? {
        return Some(DiskUnresolved);
      }
      var ok := Partitioned(disk.value);
      if !ok {
        return Some(CommandFailed);
      }
      layout := if recipe.target.bootloader.Grub2? then Grub2Layout(disk.value) else SystemdBootLayout(disk.value);
      rootDev := Block(layout.root);
      fault := None;
    }

    /** The layout the partition step made. */
    ghost predicate Laid()
      reads this`layout
    {
      Cleared() && layout == LayoutFor(recipe, Accepted().value)
    }

    lemma LayoutOnTarget()
      requires Laid()
      ensures OnTarget(recipe, Accepted().value, OnDev(layout.esp))
      ensures OnTarget(recipe, Accepted().value, OnDev(layout.root))
      ensures OnTarget(recipe, Accepted().value, Through(layout.root))
      ensures layout.boot != "" ==> OnTarget(recipe, Accepted().value, OnDev(layout.boot))
    {
      hide AcceptedDisk, ImageAccepted, PartName;
    }

    /** There is a separate /boot exactly for grub2. */
    lemma BootIs()
      requires Laid()
      ensures layout.boot == "" <==> !recipe.target.bootloader.Grub2?
    {
      hide AcceptedDisk, ImageAccepted;
    }

    method RunFormatBoot() returns (fault: Option<Fault>)
      requires Held() && Written() && Laid()
      modifies host`tick, host`writes
      ensures old(host.tick) <= host.tick
      ensures Held() && Written()
      ensures fault.Some? ==> !IsOrderFault(fault.value)
      ensures fault.None? ==> host.writes == old(host.writes) + WritesOf(FormatBoot)
      ensures fault.None? ==> Worked(FormatBoot, recipe, facts, host, old(host.tick), host.tick)
      ensures Cooperative() ==> fault.None?
    {
      hide Cooperative, AcceptedDisk, ImageAccepted, PartName, Held, Written, OnTarget;
      LayoutOnTarget();
      BootIs();
      var ok := Overwrite(Block(layout.esp), OnDev(layout.esp));
      if ok && layout.boot != "" {
        ok := Overwrite(Block(layout.boot), OnDev(layout.boot));
      }
      fault := if ok then None else Some(CommandFailed);
    }

    method ResolvePassphrase() returns (key: string, fault: Option<Fault>)
      modifies this`told, this`emitFailed
      ensures fault.Some? && IsOrderFault(fault.value) ==>
        var e := recipe.security.encryption;
        !WantsPassphrase(e) && !e.Tpm2Luks?
      ensures old(Held()) ==> Held()
      ensures Cooperative() && !old(emitFailed) && fault.Some? ==> IsOrderFault(fault.value)
      ensures fault.None? ==> Some(key) == KeySource()
      ensures told == old(told) +
        if fault.None? && recipe.security.encryption.Tpm2Luks? then [Disclosed(key)] else []
    {
      hide Held, Written, Has, Trusted, Known;
      key, fault := "", None;
      match recipe.security.encryption {
        case LuksPassphrase => key, fault := UserPassphrase();
        case Tpm2LuksPassphrase => key, fault := UserPassphrase();
        case Tpm2Luks =>
          if facts.recoveryKey.None? {
            return "", Some(FileUnreadable);
          }
          var ok := Emit(Disclosed(facts.recoveryKey.value));
          if !ok {
            return "", Some(EmitRefused);
          }
          key := facts.recoveryKey.value;
        case _ => fault := Some(NoPassphraseSource);
      }
    }

    /** The unlock secret the encryption mode asks for. */
    ghost function KeySource(): Option<string> {
      match recipe.security.encryption
      case Tpm2Luks => facts.recoveryKey
      case LuksPassphrase => PassphraseSource()
      case Tpm2LuksPassphrase => PassphraseSource()
      case _ => None
    }

    ghost function PassphraseSource(): Option<string> {
      if recipe.security.passphraseFile == "" then Some(recipe.security.passphrase)
      else if facts.passphraseFile.None? then None
      else Some(TrimNewlines(facts.passphraseFile.value))
    }

    method UserPassphrase() returns (key: string, fault: Option<Fault>)
      ensures fault.None? ==> Some(key) == PassphraseSource()
      ensures fault.Some? ==> !IsOrderFault(fault.value)
      ensures facts.passphraseFile.Some? ==> fault.None?
    {
      if recipe.security.passphraseFile != "" {
        if facts.passphraseFile.None? {
          return "", Some(FileUnreadable);
        }
        return TrimNewlines(facts.passphraseFile.value), None;
      }
      return recipe.security.passphrase, None;
    }

    method RunLuksFormat() returns (fault: Option<Fault>)
      requires Held() && Written() && Laid() && !closes && !unmounts && !secureRoot
      modifies host`tick, host`writes, host`mapper, host`keys, host`denied, this`told, this`emitFailed
      modifies this`luksKey, this`rootDev, this`cleanup, this`closes
      ensures old(host.tick) <= host.tick
      ensures host.denied == old(host.denied)
      ensures Held() && Written()
      ensures fault.Some? && IsOrderFault(fault.value) ==>
        var e := recipe.security.encryption;
        !WantsPassphrase(e) && !e.Tpm2Luks?
      ensures fault.None? ==> rootDev == Mapper && closes
      ensures fault.Some? ==> rootDev == old(rootDev) && !closes
      ensures fault.None? ==>
        host.mapper == Opened(layout.root) && host.writes == old(host.writes) + WritesOf(LuksFormat)
      ensures fault.None? ==> Worked(LuksFormat, recipe, facts, host, old(host.tick), host.tick)
      ensures Cooperative() && Encrypted(recipe) && fault.Some? ==> IsOrderFault(fault.value)
      ensures old(told) <= told
      ensures fault.None? ==> Says(LuksFormat, recipe, facts, Since(old(told), told))
      ensures recipe.security.encryption.Tpm2Luks? && host.writes != old(host.writes) ==>
        Some(luksKey) == facts.recoveryKey && told == old(told) + [Disclosed(luksKey)]
      ensures fault.None? ==> Some(luksKey) == KeySource() && host.Unlocks(layout.root, luksKey)
    {
      hide AcceptedDisk, ImageAccepted, PartName, AllOnTarget, OnTarget, Has, Trusted, Cooperative, Worked;
      var key;
      key, fault := ResolvePassphrase();
      if fault.Some? {
        return;
      }
      luksKey := key;
      fault := FormatAndOpen();
    }

    lemma LuksWorked(a: nat, b: nat, c: nat)
      requires Did(1, host.verdict, a, b) && (Did(1, host.verdict, b, c) || Did(2, host.verdict, b, c))
      ensures Worked(LuksFormat, recipe, facts, host, a, c)
    {}

    /** The container and its mapper, with the close registered as soon as it is open. */
    method FormatAndOpen() returns (fault: Option<Fault>)
      requires Held() && Written() && Laid() && !closes && !unmounts && !secureRoot
      modifies host`tick, host`writes, host`mapper, host`keys, host`denied, this`rootDev, this`cleanup, this`closes
      ensures old(host.tick) <= host.tick
      ensures host.denied == old(host.denied)
      ensures Held() && Written()
      ensures fault.Some? ==> !IsOrderFault(fault.value)
      ensures fault.None? ==> rootDev == Mapper && closes
      ensures fault.Some? ==> rootDev == old(rootDev) && !closes
      ensures fault.None? ==>
        host.mapper == Opened(layout.root) && host.writes == old(host.writes) + WritesOf(LuksFormat)
      ensures fault.None? ==> Worked(LuksFormat, recipe, facts, host, old(host.tick), host.tick)
      ensures Cooperative() && Encrypted(recipe) ==> fault.None?
      ensures fault.None? ==> host.Unlocks(layout.root, luksKey)
    {
      hide AcceptedDisk, ImageAccepted, PartName, AllOnTarget, OnTarget, Held, Written, BootMounts, Cooperative, Did;
      hide Worked;
      LayoutOnTarget();
      var ok := Overwrite(Block(layout.root), OnDev(layout.root));
      if !ok {
        return Some(CommandFailed);
      }
      host.SetKey(layout.root, luksKey);
      DidOne(host.verdict, old(host.tick));
      ghost var formatted := host.tick;
      ok := OpenContainer();
      if ok {
        LuksWorked(old(host.tick), formatted, host.tick);
      }
      fault := if ok then None else Some(CommandFailed);
    }

    /** The mapper on the root partition, with its close registered. */
    method OpenContainer() returns (ok: bool)
      requires Held() && !closes && !unmounts && !secureRoot && host.Unlocks(layout.root, luksKey)
      modifies host`tick, host`mapper, host`denied, this`rootDev, this`cleanup, this`closes
      ensures old(host.tick) <= host.tick
      ensures host.denied == old(host.denied)
      ensures Held() && closes == ok
      ensures if ok then rootDev == Mapper && host.mapper == Opened(layout.root) else rootDev == old(rootDev)
      ensures Cooperative() && Encrypted(recipe) ==> ok
      ensures ok ==>
        || Did(1, host.verdict, old(host.tick), host.tick)
        || Did(2, host.verdict, old(host.tick), host.tick)
    {
      hide TreeOn, OnlyStuck, Helpful, AllHappened, ThawsFailedAt, FinalizedAt;
      EntryUnused();
      ok := host.OpenMapper(layout.root, luksKey);
      StillTimed(old(host.denied), old(host.tick));
      if ok {
        rootDev := Mapper;
        cleanup := cleanup + [CloseMapper];
        closes := true;
      }
    }

    /** Before mount-target a mapper that nothing is mounted from is one the entry does not use. */
    lemma EntryUnused()
      requires Held() && !unmounts
      ensures Going() && NoneFrom(host.mounts, Mapper) ==> NoneFrom(entry, Mapper)
      ensures Clean() ==> host.mounts == entry
    {
      if Going() {
        forall m | m in entry && NoneFrom(host.mounts, Mapper) ensures m.dev != Mapper {
          assert m in host.mounts[..|entry|];
        }
      }
      if Clean() {
        NoBind(host.mounts);
      }
    }

    /** The device the root filesystem goes on: the accepted disk's root partition, or the
        mapper opened on it. */
    ghost predicate Rooted()
      reads this`layout, this`rootDev, host`mapper
    {
      Laid() && (rootDev == Block(layout.root) || (rootDev == Mapper && host.mapper == Opened(layout.root)))
    }

    ghost function RootWrite(): Write
      reads this`layout, this`rootDev
    {
      if rootDev.Mapper? then Through(layout.root) else OnDev(layout.root)
    }

    lemma RootOnTarget()
      requires Rooted()
      ensures Cleared() && (rootDev.Mapper? ==> host.mapper.Opened?)
      ensures OnTarget(recipe, Accepted().value, RootWrite()) && Reached(rootDev, host.mapper) == [RootWrite()]
    {
      hide AcceptedDisk, ImageAccepted, PartName;
      LayoutOnTarget();
    }

    lemma RootWorked(from: nat)
      requires Did(if recipe.target.filesystem.Btrfs? && recipe.target.btrfsSubvolumes then 8 else 1,
                   host.verdict, from, host.tick)
      ensures Worked(FormatRoot, recipe, facts, host, from, host.tick)
    {}

    method RunFormatRoot() returns (fault: Option<Fault>)
      requires Held() && Written() && Rooted() && !unmounts
      modifies host`tick, host`writes, host`mounts, host`denied
      ensures old(host.tick) <= host.tick
      ensures Held() && Written()
      ensures fault.Some? && IsOrderFault(fault.value) ==> fault.value.UnsupportedFilesystem?
      ensures fault == Some(UnsupportedFilesystem) <==>
        !recipe.target.filesystem.Btrfs? && !recipe.target.filesystem.Xfs? && !recipe.target.filesystem.Ext4?
      ensures fault == Some(UnsupportedFilesystem) ==> unchanged(host)
      ensures host.denied == old(host.denied) || (fault.Some? && Sticks(old(host.denied), ScratchUnmount, scratch))
      ensures fault.None? ==> host.writes == old(host.writes) + [RootWrite()]
      ensures fault.None? ==> Worked(FormatRoot, recipe, facts, host, old(host.tick), host.tick)
      ensures Cooperative() && fault.Some? ==> IsOrderFault(fault.value)
    {
      hide *;
      OrderFaults();
      RootOnTarget();
      if !recipe.target.filesystem.Btrfs? && !recipe.target.filesystem.Xfs? && !recipe.target.filesystem.Ext4? {
        return Some(UnsupportedFilesystem);
      }
      var ok := Overwrite(rootDev, RootWrite());
      DidOne(host.verdict, old(host.tick));
      if ok && recipe.target.filesystem.Btrfs? && recipe.target.btrfsSubvolumes {
        ok := Subvolumes();
        if ok {
          DidOn(1, 7, host.verdict, old(host.tick), old(host.tick) + 1, host.tick);
        }
      }
      if ok {
        RootWorked(old(host.tick));
      }
      fault := if ok then None else Some(CommandFailed);
    }

    /** One more denial, of a mount that still stands above the entry's. */
    ghost predicate Sticks(before: seq<Denial>, what: Release, path: Path)
      reads host`denied, host`mounts, host`tick
    {
      && |host.denied| == |before| + 1 && before <= host.denied
      && host.denied[|before|].what == what && host.denied[|before|].at + 1 == host.tick
      && (earlierDenied <= before && OnlyBinds(before[|earlierDenied|..]) ==> TopAt(host.mounts, path) >= |entry|)
    }

    lemma EntryBelow(ms: seq<Mount>, stuck: seq<Denial>)
      ensures OnlyStuck(ms, entry, stuck) || TreeOn(ms, entry, dir, stuck) ==> |ms| >= |entry|
    {}

    /** The subvolumes are made on a scratch mount of their own, unmounted whatever happens. */
    method Subvolumes() returns (ok: bool)
      requires Held() && Written() && !unmounts
      modifies host`tick, host`mounts, host`denied
      ensures old(host.tick) <= host.tick
      ensures Held() && Written()
      ensures host.denied == old(host.denied) || (!ok && Sticks(old(host.denied), ScratchUnmount, scratch))
      ensures ok ==> Did(7, host.verdict, old(host.tick), host.tick)
      ensures Cooperative() && (rootDev.Mapper? ==> host.mapper.Opened?) ==> ok
    {
      hide Kept, Timed, Going, Bookkept, Clean, Cooperative, Written, Sticks, AcceptedDisk, ImageAccepted;
      CooperativeHost();
      StillCooperative();
      KeptShape();
      ok := host.Run();             // mkdir
      if ok {
        ok := host.MountAt(rootDev, scratch);
      }
      if ok {
        ok := OnScratch(old(host.mounts));
      }
      TimedOn();
      AfterScratch();
    }

    twostate lemma AfterScratch()
      requires old(Held()) && !unmounts && host.Sane() && cleanup == Shape(closes, unmounts, secureRoot)
      requires unchanged(this`unmounts) && unchanged(this`closes) && unchanged(this`tookDown)
      requires unchanged(host`mapper) && unchanged(host`override)
      requires host.denied == old(host.denied) ==> unchanged(host`mounts)
      requires host.denied != old(host.denied) ==>
        && TopAt(host.mounts, scratch) == |old(host.mounts)|
        && host.tick > 0 && host.denied == old(host.denied) + [Denied(ScratchUnmount, host.tick - 1)]
      ensures Kept() && (Going() ==> Bookkept())
      ensures host.denied != old(host.denied) ==> Sticks(old(host.denied), ScratchUnmount, scratch)
    {
      hide TreeOn, OnlyStuck, Cooperative, Happened, ThawsFailedAt, FinalizedAt;
      EntryBelow(old(host.mounts), old(New()));
      NoBindLogged(old(host.denied));
    }

    /** The work on the scratch mount, and its unmount by the caller's own context. */
    method OnScratch(ghost below: seq<Mount>) returns (ok: bool)
      requires host.Sane() && host.mounts == below + [Mount(rootDev, scratch)]
      modifies host`tick, host`mounts, host`denied
      ensures host.Sane()
      ensures host.tick > old(host.tick)
      ensures
        || (host.mounts == below && host.denied == old(host.denied))
        || (&& !ok && TopAt(host.mounts, scratch) == |below| && !host.verdict(host.tick - 1)
            && host.denied == old(host.denied) + [Denied(ScratchUnmount, host.tick - 1)])
      ensures host.Willing() ==> ok
      ensures ok ==> Did(5, host.verdict, old(host.tick), host.tick)
    {
      hide WithoutTop;
      TopGone(below, Mount(rootDev, scratch));
      ok := CreateSubvolumes();
      var unmounted := host.Unmount(scratch, Some(ScratchUnmount));
      ok := ok && unmounted;
    }

    method CreateSubvolumes() returns (ok: bool)
      modifies host`tick
      ensures host.tick > old(host.tick) && (host.Willing() ==> ok)
      ensures ok ==> Did(4, host.verdict, old(host.tick), host.tick)
    {
      ok := true;
      for i := 0 to 3               // @, @home, @snapshots
        invariant ok && Did(i, host.verdict, old(host.tick), host.tick)
      {
        ok := host.Run();
        if !ok {
          return;
        }
      }
      ok := host.Run();             // set-default @
    }

    /** disk.MountTarget with this install's devices. */
    method MountTree(whose: Option<Release>) returns (ok: bool, stuck: bool)
      requires host.Sane()
      modifies host`tick, host`mounts, host`released, host`denied
      ensures host.Sane() && (ok ==> !stuck)
      ensures host.tick > old(host.tick) && (stuck ==> host.tick - 1 > old(host.tick) && !host.verdict(host.tick - 1))
      ensures host.denied == old(host.denied) + Logged(stuck, whose, host.tick - 1)
      ensures ok || stuck ==> TargetTree(host.mounts, old(host.mounts), dir)
      ensures !ok && !stuck ==> host.mounts == old(host.mounts)
      ensures host.Willing() && (rootDev.Mapper? ==> !host.mapper.NotOpen?) ==> ok
      ensures host.Willing() ==> !stuck
      ensures ok ==> host.mounts == old(host.mounts) + TargetMounts()
      ensures ok ==> Did(if layout.boot == "" then 4 else 6, host.verdict, old(host.tick), host.tick)
    {
      var boot := if layout.boot == "" then None else Some(Block(layout.boot));
      ok, stuck := host.MountTarget(rootDev, boot, Block(layout.esp), dir, whose);
    }

    /** With these mounts and denials the target's own tree is off. */
    ghost predicate Bare(ms: seq<Mount>, log: seq<Denial>)
      reads this`closes, host`mapper
    {
      && earlierDenied <= log
      && (OnlyBinds(log[|earlierDenied|..]) ==>
            && OnlyStuck(ms, entry, log[|earlierDenied|..])
            && (host.mapper.Opened? ==> closes) && (closes ==> NoneFrom(entry, Mapper)))
    }

    lemma BareNow()
      requires Held() && (!unmounts || tookDown)
      ensures Bare(host.mounts, host.denied)
    {
      hide OnlyStuck;
    }

    lemma StillBare()
      requires Bare(host.mounts, host.denied) && (!unmounts || tookDown)
      ensures Going() ==> Bookkept()
    {
      hide OnlyStuck;
    }

    /** The target's mounts went onto a bare table, and are registered or to be taken away. */
    lemma AfterMounting(before: seq<Mount>, log: seq<Denial>)
      requires Bare(before, log) && TargetTree(host.mounts, before, dir)
      requires
        || host.denied == log
        || (host.tick > 0 && host.denied == log + [Denied(TargetRollback, host.tick - 1)])
      requires host.denied == log ==> unmounts && !tookDown
      ensures (Going() ==> Bookkept()) && (Clean() ==> before == entry)
      ensures host.denied != log ==> Sticks(log, TargetRollback, dir)
    {
      hide TargetTree, TreeOn, OnlyStuck;
      MountedOn(before, log[|earlierDenied|..]);
      NoBindLogged(log);
    }

    /** With these mounts and denials the target's own tree is on. */
    ghost predicate Treed(ms: seq<Mount>, log: seq<Denial>)
      reads this`closes, host`mapper
    {
      && earlierDenied <= log
      && (OnlyBinds(log[|earlierDenied|..]) ==>
            && TreeOn(ms, entry, dir, log[|earlierDenied|..])
            && (host.mapper.Opened? ==> closes) && (closes ==> NoneFrom(entry, Mapper)))
    }

    lemma TreedNow()
      requires Held() && unmounts && !tookDown
      ensures Treed(host.mounts, host.denied) && (Clean() ==> TopAt(host.mounts, dir) >= 0)
    {
      hide TopAt;
    }

    lemma AfterComingOff(before: seq<Mount>, ok: bool)
      requires Treed(before, host.denied) && tookDown == ok && unmounts
      requires ok ==> TopAt(before, dir) >= 0 && host.mounts == WithoutTree(before, dir)
      requires !ok ==> if TopAt(before, dir) >= 0 then Thinned(host.mounts, before, dir) else host.mounts == before
      ensures (Going() ==> Bookkept()) && (ok && Clean() ==> host.mounts == entry)
    {
      hide TreeOn, OnlyStuck, WithoutTree, Thinned, TopAt;
      TreeIsOn(before, New());
      TreeComesOff(before, New());
      if Clean() {
        NoBind(host.mounts);
      }
    }

    /** The target's mounts went onto a table with what is stuck. */
    lemma MountedOn(between: seq<Mount>, stuck: seq<Denial>)
      ensures OnlyStuck(between, entry, stuck) ==> |between| >= |entry|
      ensures OnlyStuck(between, entry, stuck) && TargetTree(host.mounts, between, dir) ==>
        TreeOn(host.mounts, entry, dir, stuck)
      ensures TargetTree(host.mounts, between, dir) ==> TopAt(host.mounts, dir) == |between|
      ensures OnlyStuck(between, entry, []) ==> between == entry
    {
      hide TargetTree, TreeOn, OnlyStuck;
      if TargetTree(host.mounts, between, dir) {
        TargetTreeGone(host.mounts, between, dir);
        if OnlyStuck(between, entry, stuck) {
          TreeOnStuck(host.mounts, between, entry, dir, stuck);
        }
      }
      EntryBelow(between, stuck);
      if OnlyStuck(between, entry, []) {
        NothingStuck(between, entry);
      }
    }

    lemma KeptParts()
      requires Kept()
      ensures host.Sane() && host.override == entryOverride && cleanup == Shape(closes, unmounts, secureRoot)
      ensures (tookDown ==> unmounts && (Encrypted(recipe) ==> closes))
      ensures closes || host.mapper.NotOpen? || host.mapper == entryMapper
    {
      hide Shape;
    }

    lemma KeptAsParts()
      requires host.Sane() && host.override == entryOverride && cleanup == Shape(closes, unmounts, secureRoot)
      requires (tookDown ==> unmounts && (Encrypted(recipe) ==> closes))
      requires closes || host.mapper.NotOpen? || host.mapper == entryMapper
      ensures Kept()
    {
      hide Shape;
    }

    lemma TargetWorked(from: nat)
      requires Laid() && Did(if layout.boot == "" then 4 else 6, host.verdict, from, host.tick)
      ensures Worked(MountTarget, recipe, facts, host, from, host.tick)
    {
      hide Laid, Did;
      BootIs();
    }

    method RunMountTarget() returns (fault: Option<Fault>)
      requires Held() && Written() && Laid() && !unmounts && !secureRoot
      modifies host`tick, host`mounts, host`released, host`denied, this`cleanup, this`unmounts
      ensures old(host.tick) <= host.tick
      ensures Held() && Written()
      ensures fault.Some? ==> !IsOrderFault(fault.value) && !unmounts
      ensures fault.None? ==> unmounts
      ensures host.denied == old(host.denied) || (fault.Some? && Sticks(old(host.denied), TargetRollback, dir))
      ensures Cooperative() && (rootDev.Mapper? ==> host.mapper.Opened?) ==> fault.None?
      ensures fault.None? ==> Worked(MountTarget, recipe, facts, host, old(host.tick), host.tick)
      ensures fault.None? && Clean() ==> host.mounts == entry + TargetMounts()
    {
      hide *;
      CooperativeHost();
      HeldParts();
      KeptParts();
      BareNow();
      var ok, stuck := MountTree(Some(TargetRollback));
      LoggedIs(stuck, Some(TargetRollback), host.tick - 1);
      if ok {
        TargetWorked(old(host.tick));
        ShapeMounts(closes);
        cleanup := cleanup + [UnmountTarget];
        unmounts := true;
      }
      if stuck {
        OneLoggedNow(TargetRollback);
      }
      TimedOn();
      if ok || stuck {
        AfterMounting(old(host.mounts), old(host.denied));
      } else {
        StillBare();
      }
      OrderFaults();
      fault := if ok then None else Some(CommandFailed);
      KeptAsParts();
      HeldAsParts();
    }

    /** Time goes on, and a new denial has its command. */
    twostate lemma TimedOn()
      requires old(Timed()) && old(host.tick) <= host.tick
      requires unchanged(this`thawsFailed) && unchanged(this`thawAt) && unchanged(this`finalizedAt)
      requires host.denied != old(host.denied) ==> OneLogged()
      ensures Timed() && earlierDenied <= old(host.denied) <= host.denied
    {
      hide BothWays, ThawsFailedAt, FinalizedAt;
      StillTimed(old(host.denied), old(host.tick));
    }

    twostate lemma OneLoggedNow(what: Release)
      requires old(host.tick) < host.tick && !host.verdict(host.tick - 1) && !what.BindDetach?
      requires host.denied == old(host.denied) + [Denied(what, host.tick - 1)]
      ensures OneLogged()
    {}

    /** One more denial, of a release whose command failed in between. */
    twostate predicate OneLogged()
      reads host`denied, host`tick
    {
      && |host.denied| == |old(host.denied)| + 1 && old(host.denied) <= host.denied
      && !host.denied[|old(host.denied)|].what.BindDetach?
      && old(host.tick) <= host.denied[|old(host.denied)|].at < host.tick
      && !host.verdict(host.denied[|old(host.denied)|].at)
    }

    // ---------- the RAM redirect ----------

    /** One bind, unmounted lazily if need be; failing both ways is only warned about. */
    method ReleaseBind(path: Path) returns (ghost stuck: seq<Denial>)
      requires host.Sane() && TopAt(host.mounts, path) >= 0
      modifies host`tick, host`mounts, host`released, host`denied, this`told, this`emitFailed
      ensures host.Sane() && (old(emitFailed) ==> emitFailed) && host.denied == old(host.denied) + stuck
      ensures stuck == [] <==> host.verdict(old(host.tick)) || host.verdict(old(host.tick) + 1)
      ensures stuck != [] ==> stuck == [Denied(BindDetach(path), old(host.tick) + 1)]
      ensures host.tick == old(host.tick) + if host.verdict(old(host.tick)) then 1 else 2
      ensures stuck == [] ==>
        host.mounts == WithoutTree(old(host.mounts), path) && host.released == old(host.released) + [path]
      ensures stuck != [] ==> Thinned(host.mounts, old(host.mounts), path) && host.released == old(host.released)
      ensures host.Willing() ==> stuck == [] && emitFailed == old(emitFailed)
      ensures told == old(told) + if stuck != [] && !emitFailed then [Told] else []
    {
      hide WithoutTree, Thinned, TopAt;
      stuck := [];
      ghost var before := host.mounts;
      var ok := host.UnmountTree(path, None);
      if !ok {
        ghost var between := host.mounts;
        ThinnedSame(between, before, path);
        ok := host.UnmountTree(path, Some(BindDetach(path)));
        if !ok {
          ThinnedTwice(host.mounts, between, before, path);
          stuck := [Denied(BindDetach(path), old(host.tick) + 1)];
          var _ := Emit(Told);
        }
      }
    }

    /** Unmounts what was bound, last first, whatever sticks on the way. */
    method UndoBinds(mounted: seq<Path>, ghost below: seq<Mount>, ghost pile: seq<Mount>, ghost left: seq<Mount>)
      returns (ghost stuck: seq<Denial>)
      requires host.Sane() && host.mounts == below + pile + left && Piled(below + pile, below, pile, mounted)
      requires Excused(left, [], mounted)
      modifies host`tick, host`mounts, host`released, host`denied, this`told, this`emitFailed
      ensures host.Sane() && (old(emitFailed) ==> emitFailed) && old(host.tick) <= host.tick
      ensures OnlyStuck(host.mounts, below, stuck) && host.denied == old(host.denied) + stuck
      ensures AllBothWays(stuck, host.verdict, old(host.tick), host.tick, mounted)
      ensures stuck == [] ==> host.mounts == below && host.released == old(host.released) + Reversed(mounted)
      ensures Warned(old(told), told) && (!emitFailed ==> |told| == |old(told)| + |stuck|)
      ensures host.Willing() ==> stuck == [] && emitFailed == old(emitFailed)
    {
      hide Reversed, Outside, WithoutTree, Excused, TopAt, Thinned, Warned;
      WarnedOnce(told);
      stuck := [];
      NoneReversed();
      var i := |mounted|;
      ghost var rest := left;
      assert mounted[..|mounted|] == mounted && pile[..|pile|] == pile;
      while i > 0
        invariant 0 <= i <= |mounted| && host.Sane() && (old(emitFailed) ==> emitFailed) && old(host.tick) <= host.tick
        invariant host.mounts == below + pile[..i] + rest && Excused(rest, stuck, mounted[..i])
        invariant host.denied == old(host.denied) + stuck
        invariant AllBothWays(stuck, host.verdict, old(host.tick), host.tick, mounted)
        invariant Warned(old(told), told) && (!emitFailed ==> |told| == |old(told)| + |stuck|)
        invariant host.Willing() ==> stuck == [] && emitFailed == old(emitFailed)
        invariant stuck == [] ==> host.released + Reversed(mounted[..i]) == old(host.released) + Reversed(mounted)
      {
        i := i - 1;
        ghost var more, was, heard := [], host.released, told;
        WarnedOnce(heard);
        rest, more := UndoBind(mounted, i, below + pile[..i], pile[i], rest, stuck);
        ReversedSnoc(mounted, i);
        assert was + [mounted[i]] + Reversed(mounted[..i]) == was + ([mounted[i]] + Reversed(mounted[..i]));
        assert told == heard || told == heard + [Told];
        WarnedOn(old(told), heard, told);
        stuck := stuck + more;
      }
      assert mounted[..0] == [];
      assert host.mounts == below + rest && host.mounts[|below|..] == rest;
      if stuck == [] {
        NothingStuck(host.mounts, below);
      }
    }

    /** One turn of the loop: the bind at `i`, the pile below it and the rest above it. */
    method UndoBind(mounted: seq<Path>, i: nat, ghost under: seq<Mount>, ghost bind: Mount, ghost rest: seq<Mount>,
                    ghost stuck: seq<Denial>)
      returns (ghost left: seq<Mount>, ghost more: seq<Denial>)
      requires host.Sane() && i < |mounted| && bind.target == mounted[i]
      requires host.mounts == under + [bind] + rest && Excused(rest, stuck, mounted[..i + 1])
      modifies host`tick, host`mounts, host`released, host`denied, this`told, this`emitFailed
      ensures host.Sane() && (old(emitFailed) ==> emitFailed) && old(host.tick) <= host.tick
      ensures host.mounts == under + left && Excused(left, stuck + more, mounted[..i])
      ensures host.denied == old(host.denied) + more
      ensures AllBothWays(more, host.verdict, old(host.tick), host.tick, mounted)
      ensures told == old(told) + if more != [] && !emitFailed then [Told] else []
      ensures |more| <= 1
      ensures host.Willing() ==> more == [] && emitFailed == old(emitFailed)
      ensures more == [] ==> host.released == old(host.released) + [mounted[i]]
    {
      hide Outside, WithoutTree, Excused, TopAt, Thinned;
      PeelBind(under, bind, rest, mounted, i, stuck);
      more := ReleaseBind(mounted[i]);
      if more != [] {
        BindSticks(under, bind, rest, mounted, i, stuck, host.mounts, more[0]);
      }
      assert stuck + [] == stuck;
      left := host.mounts[|under|..];
      assert host.mounts == host.mounts[..|under|] + left;
    }

    /** enableNoPivotRoot: the override's earlier value, to be put back. */
    method EnableNoPivotRoot() returns (ok: bool, prev: Option<Path>)
      modifies host`tick, host`override
      ensures prev == old(host.override)
      ensures host.override == if ok then Some(Base(dir) + ["podman-override.conf"]) else prev
      ensures host.tick == old(host.tick) + 1 && ok == host.verdict(old(host.tick)) && (host.Willing() ==> ok)
    {
      prev := host.override;
      ok := host.Run();             // writing the file
      if ok {
        host.SetOverride(Some(Base(dir) + ["podman-override.conf"]));
      }
    }

    /** Abandons a redirect: everything bound so far is unmounted. */
    method Abandon(mounted: seq<Path>, ghost below: seq<Mount>, ghost pile: seq<Mount>,
                   ghost from: nat, ghost heard: seq<Note>)
      returns (ghost stuck: seq<Denial>)
      requires host.Sane() && Piled(host.mounts, below, pile, mounted) && from <= host.tick && Warned(heard, told)
      modifies host`tick, host`mounts, host`released, host`denied, this`told, this`emitFailed
      ensures host.Sane() && old(host.tick) <= host.tick
      ensures Warned(heard, told)
      ensures OnlyStuck(host.mounts, below, stuck) && host.denied == old(host.denied) + stuck
      ensures AllBothWays(stuck, host.verdict, from, host.tick, mounted)
      ensures stuck == [] ==> host.mounts == below && host.released == old(host.released) + Reversed(mounted)
    {
      hide Reversed, BelowStuck, BelowWaiting, Warned, BothWays;
      assert host.mounts == below + pile + [];
      stuck := UndoBinds(mounted, below, pile, []);
      SinceEarlier(stuck, host.verdict, old(host.tick), from, host.tick, mounted, mounted);
      WarnedOn(heard, old(told), told);
    }

    /** redirectBootcStorageToDisk, for RAM-backed paths in any number. On a failure at any
        point everything bound so far is unmounted again, last first. */
    method Redirect()
      returns (fault: Option<Fault>, mounted: seq<Path>, prev: Option<Path>,
               ghost pile: seq<Mount>, ghost stuck: seq<Denial>)
      requires host.Sane()
      modifies host`tick, host`mounts, host`released, host`denied, host`override, this`told, this`emitFailed
      ensures host.Sane() && (fault.Some? ==> !IsOrderFault(fault.value)) && mounted <= [Base(dir)] + facts.ramPaths
      ensures fault.None? ==>
        mounted == [Base(dir)] + facts.ramPaths && Piled(host.mounts, old(host.mounts), pile, mounted)
      ensures fault.None? ==> prev == old(host.override) && host.released == old(host.released) && stuck == []
      ensures fault.Some? ==> host.override == old(host.override) && OnlyStuck(host.mounts, old(host.mounts), stuck)
      ensures fault.Some? && stuck == [] ==>
        host.mounts == old(host.mounts) && host.released == old(host.released) + Reversed(mounted)
      ensures host.denied == old(host.denied) + stuck && old(host.tick) <= host.tick
      ensures AllBothWays(stuck, host.verdict, old(host.tick), host.tick, mounted)
      ensures fault.None? ==> Did(RedirectCommands(facts), host.verdict, old(host.tick), host.tick)
      ensures Warned(old(told), told) && (fault.None? ==> told == old(told) + [Told])
      ensures Cooperative() && !old(emitFailed) ==> fault.None? && !emitFailed
    {
      hide *;
      OrderFaults();
      WarnedOnce(told);
      NoneYet(host.verdict, host.tick, []);
      var base := Base(dir);
      mounted, prev, pile, stuck := [], host.override, [], [];
      NothingLeftOver(host.mounts);
      CooperativeHost();
      NoneReversed();
      PileOfOne(host.mounts, Mount(DevAt(host.mounts, base), base));
      var ok := host.Run();         // mkdir
      if !ok {
        return Some(CommandFailed), mounted, prev, pile, stuck;
      }
      ok := host.BindAt(base, base);
      if !ok {
        return Some(CommandFailed), mounted, prev, pile, stuck;
      }
      ghost var bound := host.tick;
      mounted, pile := [base], host.mounts[|old(host.mounts)|..];
      ok, mounted, pile := BindAll(base, old(host.mounts), pile);
      if ok {
        ok := Emit(Told);
        if !ok {
          stuck := Abandon(mounted, old(host.mounts), pile, old(host.tick), old(told));
          return Some(EmitRefused), mounted, prev, pile, stuck;
        }
        ghost var all := host.tick;
        ok, prev := EnableNoPivotRoot();
        RedirectWorked(old(host.tick), bound, all);
      }
      if !ok {
        stuck := Abandon(mounted, old(host.mounts), pile, old(host.tick), old(told));
        return Some(CommandFailed), mounted, prev, pile, stuck;
      }
      fault := None;
    }

    lemma RedirectWorked(from: nat, bound: nat, all: nat)
      requires bound == from + 2 && host.verdict(from) && host.verdict(from + 1)
      requires Did(1 + 3 * |facts.ramPaths|, host.verdict, bound, all)
      ensures host.verdict(all) ==> Did(RedirectCommands(facts), host.verdict, from, all + 1)
    {}

    method BindOne(base: Path, path: Path) returns (ok: bool, ghost bound: Mount)
      requires host.Sane()
      modifies host`tick, host`mounts
      ensures host.Sane() && bound.target == path
      ensures host.mounts == if ok then old(host.mounts) + [bound] else old(host.mounts)
      ensures host.tick > old(host.tick) && (host.Willing() ==> ok)
      ensures ok ==> Did(3, host.verdict, old(host.tick), host.tick)
    {
      bound := Mount(DevAt(host.mounts, base + ["bind"]), path);
      ok := host.Run();             // mkdir
      if !ok {
        return;
      }
      ok := host.Run();             // mkdir
      if !ok {
        return;
      }
      ok := host.BindAt(base + ["bind"], path);
    }

    /** The scratch directory and the binds over the RAM-backed paths, up to a failure. */
    method BindAll(base: Path, ghost below: seq<Mount>, ghost first: seq<Mount>)
      returns (ok: bool, mounted: seq<Path>, ghost pile: seq<Mount>)
      requires host.Sane() && Piled(host.mounts, below, first, [base])
      modifies host`tick, host`mounts
      ensures host.Sane() && Piled(host.mounts, below, pile, mounted) && mounted <= [base] + facts.ramPaths
      ensures ok ==> mounted == [base] + facts.ramPaths
      ensures host.tick > old(host.tick) && (host.Willing() ==> ok)
      ensures ok ==> Did(1 + 3 * |facts.ramPaths|, host.verdict, old(host.tick), host.tick)
    {
      hide Piled, Did;
      mounted, pile := [base], first;
      ok := host.Run();             // mkdir scratch
      if !ok {
        return;
      }
      DidOne(host.verdict, old(host.tick));
      for i := 0 to |facts.ramPaths|
        invariant Did(1 + 3 * i, host.verdict, old(host.tick), host.tick)
        invariant host.tick > old(host.tick) && host.Sane() && Piled(host.mounts, below, pile, mounted)
        invariant mounted == [base] + facts.ramPaths[..i]
      {
        ghost var was, then_ := host.mounts, host.tick;
        ghost var bound;
        assert ([base] + facts.ramPaths)[..i + 1] == [base] + facts.ramPaths[..i];
        ok, bound := BindOne(base, facts.ramPaths[i]);
        if !ok {
          return;
        }
        DidOn(1 + 3 * i, 3, host.verdict, old(host.tick), then_, host.tick);
        assert host.mounts[..|host.mounts| - 1] == was;
        PileGrows(host.mounts, below, pile, mounted, bound);
        pile := pile + [bound];
        mounted := mounted + [facts.ramPaths[i]];
      }
      ok := true;
    }

    // ---------- bootc-install ----------

    lemma GivenNow()
      ensures installedRef == Some(Refs.Given(bootcSourceRef, facts.nativeBootc)) ==> Given()
    {}

    /** ExtractSecureImageRoot: the tree that esp-stage and mok-stage take their files from. */
    method ExtractSecureRoot() returns (ok: bool)
      requires cleanup == Shape(closes, unmounts, false) && !secureRoot
      modifies host`tick, this`secureRoot, this`cleanup
      ensures old(host.tick) < host.tick <= old(host.tick) + 2
      ensures ok <==> host.verdict(old(host.tick)) && host.verdict(old(host.tick) + 1)
      ensures secureRoot == ok && cleanup == Shape(closes, unmounts, secureRoot)
      ensures ok ==> host.tick == old(host.tick) + 2
    {
      hide *;
      ShapeGrows(closes, unmounts);
      ok := host.Run();             // a temporary directory
      if ok {
        ok := host.Run();           // podman create, export, untar
      }
      if ok {
        secureRoot := true;
        cleanup := cleanup + [RemoveSecureRoot];
      }
    }

    /** The install itself, and the secure image's subtrees while the store is mounted. */
    method InstallImage(redirected: bool) returns (fault: Option<Fault>)
      requires host.Sane() && !secureRoot && (redirected ==> NoneFrom(facts.podmanMounts, Mapper))
      requires cleanup == Shape(closes, unmounts, secureRoot)
      modifies host`tick, host`mounts, host`deployed, this`secureRoot, this`cleanup, this`installedRef
      ensures host.Sane() && (fault.Some? ==> !IsOrderFault(fault.value))
      ensures host.mounts ==
        if redirected && host.tick > old(host.tick) + 1 then old(host.mounts) + facts.podmanMounts else old(host.mounts)
      ensures cleanup == Shape(closes, unmounts, secureRoot)
      ensures fault.None? ==> (secureRoot <==> SecureBootc(recipe))
      ensures (fault.None? ==> installedRef.Some?) && (installedRef == old(installedRef) || Given())
      ensures host.tick > old(host.tick) && (host.Willing() ==> fault.None?)
      ensures fault.None? ==> Did(InstallCommands(recipe), host.verdict, old(host.tick), host.tick)
      ensures Deployment(old(host.deployed)) && (fault.None? ==> host.deployed == installedRef)
    {
      hide *;
      host.AlwaysWorks();
      OrderFaults();
      DeploymentNow(old(host.deployed));
      var ok := host.Run();         // mkdir scratch
      if !ok {
        return Some(CommandFailed);
      }
      installedRef := Some(Refs.Given(bootcSourceRef, facts.nativeBootc));
      GivenNow();
      ok := host.Deploy(installedRef.value);   // bootc, or podman with bootc inside
      DeploymentNow(old(host.deployed));
      DidOne(host.verdict, old(host.tick));
      DidOne(host.verdict, old(host.tick) + 1);
      if redirected {
        host.Leave(facts.podmanMounts);
      }
      if !ok {
        return Some(CommandFailed);
      }
      DidOn(1, 1, host.verdict, old(host.tick), old(host.tick) + 1, host.tick);
      InstallCommandsAre();
      if SecureBootc(recipe) {
        ok := ExtractSecureRoot();
        if !ok {
          return Some(CommandFailed);
        }
        DidTwoMore(old(host.tick));
      }
      fault := None;
    }

    /** What is deployed was so before, or is what bootc was given. */
    ghost predicate Deployment(was: Option<string>)
      reads host`deployed, this`installedRef
    {
      host.deployed == was || host.deployed == installedRef
    }

    lemma DeploymentNow(was: Option<string>)
      ensures host.deployed == was || host.deployed == installedRef ==> Deployment(was)
    {}

    lemma InstallCommandsAre()
      ensures InstallCommands(recipe) == if SecureBootc(recipe) then 4 else 2
    {}

    lemma DidTwoMore(from: nat)
      requires Did(2, host.verdict, from, from + 2) && host.verdict(from + 2) && host.verdict(from + 3)
      ensures Did(4, host.verdict, from, from + 4)
    {}

    /** teardown: the override first, then the binds; what fails is only warned about. */
    method Teardown(mounted: seq<Path>, prev: Option<Path>, ghost below: seq<Mount>, ghost pile: seq<Mount>,
                    ghost left: seq<Mount>)
      returns (ghost stuck: seq<Denial>)
      requires host.Sane() && Piled(below + pile, below, pile, mounted) && host.mounts == below + pile + left
      requires Excused(left, [], mounted)
      modifies host`tick, host`mounts, host`released, host`denied, host`override, this`told, this`emitFailed
      ensures host.Sane() && host.override == prev && old(host.tick) <= host.tick
      ensures OnlyStuck(host.mounts, below, stuck) && host.denied == old(host.denied) + stuck
      ensures AllBothWays(stuck, host.verdict, old(host.tick), host.tick, mounted)
      ensures stuck == [] ==> host.mounts == below && host.released == old(host.released) + Reversed(mounted)
      ensures Warned(old(told), told) && old(host.tick) < host.tick
      ensures !emitFailed ==> |told| == |old(told)| + |stuck| + if host.verdict(host.tick - 1) then 0 else 1
      ensures host.Willing() ==> stuck == [] && emitFailed == old(emitFailed)
    {
      hide Reversed, Excused, Warned;
      host.SetOverride(prev);
      stuck := UndoBinds(mounted, below, pile, left);
      ghost var heard := told;
      WarnedOnce(heard);
      var ok := host.Run();         // RemoveAll
      if !ok {
        var _ := Emit(Told);
      }
      WarnedOn(old(told), heard, told);
    }

    /** The install between the redirect and its teardown. */
    method InstallWithin(bound: seq<Path>, prev: Option<Path>, ghost below: seq<Mount>, ghost pile: seq<Mount>)
      returns (fault: Option<Fault>, ghost stuck: seq<Denial>)
      requires host.Sane() && !secureRoot && PodmanStaysInside(facts) && bound == [Base(dir)] + facts.ramPaths
      requires cleanup == Shape(closes, unmounts, secureRoot) && Piled(host.mounts, below, pile, bound)
      modifies host`tick, host`mounts, host`released, host`denied, host`override, host`deployed
      modifies this`told, this`emitFailed
      modifies this`secureRoot, this`cleanup, this`installedRef
      ensures host.Sane() && (fault.Some? ==> !IsOrderFault(fault.value))
      ensures host.override == prev && OnlyStuck(host.mounts, below, stuck)
      ensures host.denied == old(host.denied) + stuck && old(host.tick) <= host.tick
      ensures AllBothWays(stuck, host.verdict, old(host.tick), host.tick, bound)
      ensures stuck == [] ==> host.mounts == below && host.released == old(host.released) + Reversed(bound)
      ensures cleanup == Shape(closes, unmounts, secureRoot)
      ensures fault.None? ==> (secureRoot <==> SecureBootc(recipe))
      ensures (fault.None? ==> installedRef.Some?) && (installedRef == old(installedRef) || Given())
      ensures Deployment(old(host.deployed)) && (fault.None? ==> host.deployed == installedRef)
      ensures fault.None? ==>
        var done := old(host.tick) + InstallCommands(recipe);
        done <= host.tick && Did(InstallCommands(recipe), host.verdict, old(host.tick), done)
      ensures Warned(old(told), told)
      ensures Cooperative() && !old(emitFailed) ==> fault.None? && stuck == [] && !emitFailed
    {
      hide *;
      CooperativeHost();
      PodmanIsExcused(facts, Base(dir));
      NothingIsExcused(bound);
      ghost var full := host.mounts;
      fault := InstallImage(true);
      DeploymentNow(old(host.deployed));
      if fault.None? {
        DidMeans(InstallCommands(recipe), old(host.tick), host.tick);
      }
      ghost var left, from := if host.mounts == full then [] else facts.podmanMounts, host.tick;
      PileIsOn(full, below, pile, bound);
      stuck := Teardown(bound, prev, below, pile, left);
      SinceEarlier(stuck, host.verdict, from, old(host.tick), host.tick, bound, bound);
    }

    lemma DidMeans(n: nat, from: nat, upTo: nat)
      requires Did(n, host.verdict, from, upTo)
      ensures upTo == from + n
    {}

    /** The whole step while the store is redirected. Afterwards the override is what it was,
        and above the earlier mounts only what would not come off is left; when everything came
        off it did so in the exact reverse of how it was bound. */
    method InstallRedirected() returns (fault: Option<Fault>, ghost mounted: seq<Path>, ghost stuck: seq<Denial>)
      requires host.Sane() && !secureRoot && PodmanStaysInside(facts)
      requires cleanup == Shape(closes, unmounts, secureRoot)
      modifies host`tick, host`mounts, host`released, host`denied, host`override, host`deployed
      modifies this`told, this`emitFailed
      modifies this`secureRoot, this`cleanup, this`installedRef
      ensures host.Sane() && (fault.Some? ==> !IsOrderFault(fault.value))
      ensures mounted <= [Base(dir)] + facts.ramPaths && (fault.None? ==> mounted == [Base(dir)] + facts.ramPaths)
      ensures host.override == old(host.override) && OnlyStuck(host.mounts, old(host.mounts), stuck)
      ensures host.denied == old(host.denied) + stuck && old(host.tick) <= host.tick
      ensures AllBothWays(stuck, host.verdict, old(host.tick), host.tick, mounted)
      ensures stuck == [] ==> host.mounts == old(host.mounts) && host.released == old(host.released) + Reversed(mounted)
      ensures cleanup == Shape(closes, unmounts, secureRoot)
      ensures fault.None? ==> (secureRoot <==> SecureBootc(recipe))
      ensures (fault.None? ==> installedRef.Some?) && (installedRef == old(installedRef) || Given())
      ensures Deployment(old(host.deployed)) && (fault.None? ==> host.deployed == installedRef)
      ensures fault.None? && facts.ramOnly ==> Worked(BootcInstall, recipe, facts, host, old(host.tick), host.tick)
      ensures Warned(old(told), told) && (fault.None? ==> |told| > |old(told)|)
      ensures Cooperative() && !old(emitFailed) ==> fault.None? && stuck == [] && !emitFailed
    {
      hide *;
      var bound, prev;
      ghost var pile;
      fault, bound, prev, pile, stuck := Redirect();
      mounted := bound;
      DeploymentNow(old(host.deployed));
      if fault.Some? {
        return;
      }
      ghost var redirected, heard := host.tick, told;
      fault, stuck := InstallWithin(bound, prev, old(host.mounts), pile);
      if fault.None? {
        DidOn(RedirectCommands(facts), InstallCommands(recipe), host.verdict, old(host.tick), redirected,
          redirected + InstallCommands(recipe));
        StoreWorked(old(host.tick), redirected + InstallCommands(recipe));
      }
      SinceEarlier(stuck, host.verdict, redirected, old(host.tick), host.tick, bound, bound);
      WarnedSince(old(told), heard, told);
    }

    lemma StoreWorked(from: nat, installed: nat)
      requires installed <= host.tick
      ensures facts.ramOnly && Did(RedirectCommands(facts) + InstallCommands(recipe), host.verdict, from, installed) ==>
        Worked(BootcInstall, recipe, facts, host, from, host.tick)
      ensures !facts.ramOnly && Did(InstallCommands(recipe), host.verdict, from, host.tick) ==>
        Worked(BootcInstall, recipe, facts, host, from, host.tick)
    {
      hide AllWork;
    }

    lemma InstallSays(before: seq<Note>)
      requires Warned(before, told)
      ensures (if facts.ramOnly then |told| > |before| else told == before) ==>
        Says(BootcInstall, recipe, facts, Since(before, told))
    {
      WarnedMeans(before, told);
    }

    /** The image store where it is, or redirected on a host that runs in RAM. */
    method InstallOnStore() returns (fault: Option<Fault>, ghost stuck: seq<Denial>)
      requires host.Sane() && !secureRoot && (facts.ramOnly ==> PodmanStaysInside(facts))
      requires cleanup == Shape(closes, unmounts, secureRoot)
      modifies host`tick, host`mounts, host`released, host`denied, host`override, host`deployed
      modifies this`told, this`emitFailed
      modifies this`secureRoot, this`cleanup, this`installedRef
      ensures host.Sane() && (fault.Some? ==> !IsOrderFault(fault.value)) && host.override == old(host.override)
      ensures OnlyStuck(host.mounts, old(host.mounts), stuck) && host.denied == old(host.denied) + stuck
      ensures AllBothWays(stuck, host.verdict, old(host.tick), host.tick, BindPaths(facts, dir))
      ensures old(host.tick) <= host.tick
      ensures if stuck == [] then host.mounts == old(host.mounts) else facts.ramOnly
      ensures cleanup == Shape(closes, unmounts, secureRoot)
      ensures fault.None? ==> (secureRoot <==> SecureBootc(recipe))
      ensures (fault.None? ==> installedRef.Some?) && (installedRef == old(installedRef) || Given())
      ensures Deployment(old(host.deployed)) && (fault.None? ==> host.deployed == installedRef)
      ensures fault.None? ==> Worked(BootcInstall, recipe, facts, host, old(host.tick), host.tick)
      ensures Warned(old(told), told)
      ensures fault.None? ==> Says(BootcInstall, recipe, facts, Since(old(told), told))
      ensures Cooperative() && !old(emitFailed) ==> fault.None? && stuck == [] && !emitFailed
    {
      hide PodmanStaysInside, Shape, Cooperative, OnlyStuck, Reversed, Given, Worked, Did, Deployment, Warned, Says;
      hide Since;
      CooperativeHost();
      stuck := [];
      NothingLeftOver(host.mounts);
      if facts.ramOnly {
        ghost var mounted;
        fault, mounted, stuck := InstallRedirected();
        assert forall p | p in mounted :: p in BindPaths(facts, dir);
      } else {
        fault := InstallImage(false);
        StoreWorked(old(host.tick), host.tick);
        WarnedOnce(told);
      }
      InstallSays(old(told));
    }

    method RunBootcInstall() returns (fault: Option<Fault>, ghost stuck: seq<Denial>)
      requires Held() && Written() && !secureRoot && (facts.ramOnly ==> PodmanStaysInside(facts))
      modifies host`tick, host`mounts, host`released, host`denied, host`override, host`deployed
      modifies this`told, this`emitFailed
      modifies this`secureRoot, this`cleanup, this`installedRef
      ensures old(host.tick) <= host.tick
      ensures Held() && Written()
      ensures fault.Some? && IsOrderFault(fault.value) ==> fault.value.SourceMissing?
      ensures fault == Some(SourceMissing) <==> bootcSourceRef == ""
      ensures fault == Some(SourceMissing) ==> unchanged(host)
      ensures OnlyStuck(host.mounts, old(host.mounts), stuck) && host.denied == old(host.denied) + stuck
      ensures AllBothWays(stuck, host.verdict, old(host.tick), host.tick, BindPaths(facts, dir))
      ensures stuck == [] ==> host.mounts == old(host.mounts)
      ensures fault.None? ==> (secureRoot <==> SecureBootc(recipe))
      ensures (fault.None? ==> installedRef.Some?) && (installedRef == old(installedRef) || Given())
      ensures Deployment(old(host.deployed)) && (fault.None? ==> host.deployed == installedRef)
      ensures fault.None? ==> Worked(BootcInstall, recipe, facts, host, old(host.tick), host.tick)
      ensures Warned(old(told), told)
      ensures fault.None? ==> Says(BootcInstall, recipe, facts, Since(old(told), told))
      ensures Cooperative() && bootcSourceRef != "" ==> fault.None?
      ensures (old(HasDisk()) ==> HasDisk()) && (old(Going()) ==> Going())
    {
      hide PodmanStaysInside, Shape, OnlyStuck, Given, Written, Cooperative, AcceptedDisk, ImageAccepted, Held;
      hide BothWays, Worked, Did, Warned, Says, Since;
      StillCooperative();
      if bootcSourceRef == "" {
        NothingLeftOver(host.mounts);
        WarnedOnce(told);
        return Some(SourceMissing), [];
      }
      KeptShape();
      fault, stuck := InstallOnStore();
      HeldAgain(stuck);
    }

    lemma KeptShape()
      requires Held()
      ensures host.Sane() && cleanup == Shape(closes, unmounts, secureRoot) && host.override == entryOverride
    {}

    /** A step that left nothing behind but stuck binds keeps the books. */
    twostate lemma HeldAgain(stuck: seq<Denial>)
      requires old(Held()) && host.Sane() && cleanup == Shape(closes, unmounts, secureRoot)
      requires unchanged(this`closes) && unchanged(this`unmounts) && unchanged(this`tookDown)
      requires unchanged(this`thawsFailed)
      requires unchanged(this`thawAt) && unchanged(this`finalizedAt)
      requires unchanged(host`mapper) && unchanged(host`override) && unchanged(host`frozen)
      requires host.denied == old(host.denied) + stuck && old(host.tick) <= host.tick
      requires AllBothWays(stuck, host.verdict, old(host.tick), host.tick, BindPaths(facts, dir))
      requires (stuck != [] ==> facts.ramOnly)
      requires OnlyStuck(host.mounts, old(host.mounts), stuck)
      requires Cooperative() ==> !emitFailed && stuck == []
      ensures Held() && (Clean() ==> old(Clean()) && stuck == [])
      ensures old(Going()) ==> Going()
    {
      hide Cooperative, TreeOn, OnlyStuck, Shape;
      TimedAgain(stuck);
      if Going() {
        StillGoing(stuck);
        if unmounts && !tookDown {
          StuckOnTree(host.mounts, old(host.mounts), entry, dir, old(New()), stuck);
        } else {
          StuckOnStuck(host.mounts, old(host.mounts), entry, old(New()), stuck);
        }
      }
      if old(Going()) {
        StillGoing(stuck);
      }
    }

    twostate lemma StillGoing(stuck: seq<Denial>)
      requires host.denied == old(host.denied) + stuck && earlierDenied <= old(host.denied)
      requires AllBothWays(stuck, host.verdict, old(host.tick), host.tick, BindPaths(facts, dir))
      ensures New() == old(New()) + stuck && (old(Going()) <==> Going())
    {
      if Going() {
        forall k | 0 <= k < |old(New())| ensures old(New())[k].what.BindDetach? {
          assert New()[k] == old(New())[k];
        }
      }
    }

    twostate lemma TimedAgain(stuck: seq<Denial>)
      requires old(Timed()) && host.denied == old(host.denied) + stuck && old(host.tick) <= host.tick
      requires unchanged(this`thawsFailed) && unchanged(this`thawAt) && unchanged(this`finalizedAt)
      requires AllBothWays(stuck, host.verdict, old(host.tick), host.tick, BindPaths(facts, dir))
      requires (stuck != [] ==> facts.ramOnly)
      ensures Timed()
    {
      forall k | |earlierDenied| <= k < |host.denied| ensures HappenedAt(host.denied[k], k, host.tick) {
        if k < |old(host.denied)| {
          assert host.denied[k] == old(host.denied)[k];
        } else {
          assert host.denied[k] == stuck[k - |old(host.denied)|];
        }
      }
    }

    // ---------- after the deployment ----------

    method RunTpmEnroll() returns (fault: Option<Fault>)
      requires Held() && Written() && Laid()
      modifies host`tick, host`writes, this`told, this`emitFailed
      ensures old(host.tick) <= host.tick
      ensures Held() && Written()
      ensures fault.Some? ==> !IsOrderFault(fault.value)
      ensures old(told) <= told
      ensures fault.None? ==> facts.uki && Says(TpmEnroll, recipe, facts, Since(old(told), told))
      ensures fault == Some(NoUki) ==> !facts.uki && told == old(told) + [Told]
      ensures fault.None? ==> host.writes == old(host.writes) + WritesOf(TpmEnroll)
      ensures fault.None? ==> Worked(TpmEnroll, recipe, facts, host, old(host.tick), host.tick)
      ensures Cooperative() && !old(emitFailed) ==> fault.None?
    {
      hide Held, Written, Has, Trusted, Known, AcceptedDisk, ImageAccepted, PartName, OnTarget;
      if !facts.uki {
        var warned := Emit(Told);
        return Some(if warned then NoUki else EmitRefused);
      }
      var ok := Commands(4);        // the key file, its mode, its content, objcopy
      if ok {
        LayoutOnTarget();
        ok := Overwrite(Block(layout.root), OnDev(layout.root));   // systemd-cryptenroll
      }
      fault := if ok then None else Some(CommandFailed);
    }

    /** Commands run one after the other until one fails. */
    method Commands(n: nat) returns (ok: bool)
      modifies host`tick
      ensures old(host.tick) <= host.tick
      ensures old(Held()) ==> Held()
      ensures Cooperative() ==> ok
      ensures ok ==> Did(n, host.verdict, old(host.tick), host.tick)
    {
      hide Cooperative, Held, Written, Has;
      ok := true;
      for i := 0 to n
        invariant old(Held()) ==> Held()
        invariant Cooperative() ==> ok
        invariant ok && Did(i, host.verdict, old(host.tick), host.tick)
      {
        ok := Command();
        if !ok {
          return;
        }
      }
    }

    /** esp-stage and mok-stage both need the secure image's subtrees. */
    method RunFromSecureRoot(commands: nat) returns (fault: Option<Fault>)
      requires Held() && Written()
      modifies host`tick
      ensures old(host.tick) <= host.tick
      ensures Held() && Written()
      ensures fault.Some? && IsOrderFault(fault.value) ==> fault.value.SecureRootMissing?
      ensures fault == Some(SecureRootMissing) <==> !secureRoot
      ensures fault == Some(SecureRootMissing) ==> unchanged(host)
      ensures fault.None? ==> Did(commands, host.verdict, old(host.tick), host.tick)
      ensures Cooperative() && secureRoot ==> fault.None?
    {
      hide Cooperative, Held, Written;
      if !secureRoot {
        return Some(SecureRootMissing);
      }
      var ok := Commands(commands);
      fault := if ok then None else Some(CommandFailed);
    }

    method RunFlatpaks() returns (fault: Option<Fault>)
      requires Held() && Written()
      modifies host`tick, this`told, this`emitFailed
      ensures old(host.tick) <= host.tick
      ensures Held() && Written()
      ensures fault.Some? ==> !IsOrderFault(fault.value)
      ensures old(told) <= told && (fault.None? ==> Says(Flatpaks, recipe, facts, Since(old(told), told)))
      ensures fault.None? ==> Worked(Flatpaks, recipe, facts, host, old(host.tick), host.tick)
      ensures Cooperative() && !old(emitFailed) ==> fault.None?
    {
      hide Cooperative, Held, Written, Has, Trusted, Known, AcceptedDisk, ImageAccepted, PartName, OnTarget;
      if recipe.system.flatpaks == [] && !(recipe.system.coreFlatpaks && CoreLabelOf(recipe, facts).CoreSet?) {
        return None;
      }
      var ok := Command();
      if !ok {
        return Some(CommandFailed);
      }
      ok := EmitMany(facts.unreachableApps);
      fault := if ok then None else Some(EmitRefused);
    }

    method RunSysconfig() returns (fault: Option<Fault>)
      requires Held() && Written()
      modifies host`tick, this`told, this`emitFailed
      ensures old(host.tick) <= host.tick
      ensures Held() && Written()
      ensures fault.Some? ==> !IsOrderFault(fault.value)
      ensures old(told) <= told && (fault.None? ==> Says(Sysconfig, recipe, facts, Since(old(told), told)))
      ensures fault.None? ==> Worked(Sysconfig, recipe, facts, host, old(host.tick), host.tick)
      ensures Cooperative() && !old(emitFailed) ==> fault.None?
    {
      hide Cooperative, Held, Written, Has, Trusted, Known, AcceptedDisk, ImageAccepted, PartName, OnTarget;
      var ok := Command();          // hostname
      if ok && recipe.system.user.Some? {
        ok := Command();            // useradd
        if ok {
          ok := EmitMany(facts.missingGroups);
          if !ok {
            return Some(EmitRefused);
          }
          ok := Command();          // the user's key
        }
      }
      if ok {
        ok := Commands(4);          // root's key, locale, timezone, keyboard
      }
      fault := if ok then None else Some(CommandFailed);
    }

    lemma HeldParts()
      requires Held()
      ensures Kept() && host.frozen == thawsFailed && Timed() && (Going() ==> Bookkept())
      ensures Cooperative() ==> !emitFailed && Clean()
    {
      hide Kept, Timed, Going, Bookkept, Cooperative, Clean;
    }

    lemma HeldAsParts()
      requires Kept() && host.frozen == thawsFailed && Timed() && (Going() ==> Bookkept())
      requires Cooperative() ==> !emitFailed && Clean()
      ensures Held()
    {
      hide Kept, Timed, Going, Bookkept, Cooperative, Clean;
    }

    lemma TimedParts()
      requires Timed()
      ensures began <= host.tick && AllHappened(host.denied, host.tick) && earlierDenied <= host.denied
      ensures thawsFailed ==> ThawsFailedAt(host.verdict, thawAt, began, host.tick)
      ensures finalizedAt.Some? ==> FinalizedAt(host.verdict, finalizedAt.value, began, host.tick)
    {
      hide Happened, ThawsFailedAt, FinalizedAt;
    }

    /** Finalize's own commands were those from `tick` on. */
    lemma TimedFinal(tick: nat)
      requires began <= tick <= host.tick && AllHappened(host.denied, tick)
      requires thawsFailed ==>
        && thawAt == tick + 3 && host.tick == tick + 5
        && host.verdict(tick + 2) && !host.verdict(tick + 3) && !host.verdict(tick + 4)
      requires finalizedAt.Some? ==>
        || FinalizedAt(host.verdict, finalizedAt.value, began, tick)
        || (finalizedAt.value == tick && host.tick == tick + 4 && forall k | tick <= k < tick + 4 :: host.verdict(k))
      ensures Timed()
    {
      hide AllHappened;
      StillHappened(host.denied, tick);
    }

    lemma FinalWorked(from: nat)
      ensures host.tick == from + 4 && (forall k | from <= k < host.tick :: host.verdict(k)) ==>
        Worked(Finalize, recipe, facts, host, from, host.tick)
    {}

    /** FinalizeFilesystem: a success is its four commands; the target stays frozen exactly when
        the freeze worked and then both thaws failed. */
    method RunFinalize() returns (fault: Option<Fault>)
      requires Held() && Written() && !thawsFailed
      modifies host`tick, host`frozen, this`thawsFailed, this`thawAt, this`finalizedAt
      ensures old(host.tick) <= host.tick
      ensures Held() && Written() && host.frozen == thawsFailed
      ensures fault.Some? ==> !IsOrderFault(fault.value) && finalizedAt == old(finalizedAt)
      ensures fault.None? ==> !thawsFailed && host.tick == old(host.tick) + 4 && finalizedAt == Some(old(host.tick))
      ensures fault.None? ==> Worked(Finalize, recipe, facts, host, old(host.tick), host.tick)
      ensures thawsFailed <==>
        && (forall k | old(host.tick) <= k < old(host.tick) + 3 :: host.verdict(k))
        && !host.verdict(old(host.tick) + 3) && !host.verdict(old(host.tick) + 4)
      ensures Cooperative() ==> fault.None?
    {
      hide *;
      OrderFaults();
      CooperativeHost();
      HeldParts();
      TimedParts();
      var ok, both := host.FinalizeFilesystem();
      thawsFailed, thawAt := both, old(host.tick) + 3;
      if ok {
        finalizedAt := Some(old(host.tick));
      }
      TimedFinal(old(host.tick));
      HeldAsParts();
      FinalWorked(old(host.tick));
      fault := if ok then None else Some(CommandFailed);
    }

    // ---------- retag-root ----------

    /** The root device is the root partition's open mapper exactly for an encrypted install. */
    ghost predicate Mappered()
      reads this`layout, this`rootDev, this`luksKey, host`mapper, host`keys
    {
      && (rootDev.Mapper? <==> Encrypted(recipe))
      && (Encrypted(recipe) ==> host.mapper == Opened(layout.root) && host.Unlocks(layout.root, luksKey))
    }

    /** Nothing but this install's own mounts and mapper keeps the root partition from being
        retyped. */
    ghost predicate Retypable()
      reads this`layout, host`mapper
    {
      && host.Retypes() && NoneFrom(entry, Block(layout.root))
      && (Encrypted(recipe) || host.mapper.NotOpen? || host.mapper.backing != layout.root)
    }

    lemma NoBindNow()
      requires Held() && tookDown
      ensures Clean() ==> host.mounts == entry
    {
      hide OnlyStuck;
      if Clean() {
        NoBind(host.mounts);
      }
    }

    lemma NoBind(ms: seq<Mount>)
      ensures OnlyStuck(ms, entry, []) ==> ms == entry
    {
      if OnlyStuck(ms, entry, []) {
        NothingStuck(ms, entry);
      }
    }

    /** The tree comes off, the mapper closes, the partition is retyped, and both come back.
        Whatever fails in between, what is still held has its undo registered. */
    method RunRetagRoot() returns (fault: Option<Fault>)
      requires Held() && Written() && Known() && Laid() && unmounts && !tookDown && (Encrypted(recipe) ==> closes)
      modifies host`tick, host`mounts, host`released, host`denied, host`mapper, host`writes
      modifies this`targetDisk, this`tookDown
      ensures old(host.tick) <= host.tick
      ensures Held() && Written() && Known() && host.denied == old(host.denied)
      ensures fault.Some? && IsOrderFault(fault.value) ==> fault.value.NoPartNum? && RootPartNum(layout).None?
      ensures fault.None? ==> !tookDown && (Clean() ==> host.mounts == entry + TargetMounts())
      ensures fault.None? ==> host.writes == old(host.writes) + WritesOf(RetagRoot)
      ensures fault.None? ==> Worked(RetagRoot, recipe, facts, host, old(host.tick), host.tick)
      ensures fault.None? && Encrypted(recipe) ==> host.mapper == Opened(layout.root)
      ensures !Encrypted(recipe) ==> host.mapper == old(host.mapper)
      ensures Cooperative() && old(Mappered()) && old(Retypable()) && RootPartNum(layout).Some? ==> fault.None?
      ensures Cooperative() && old(Mappered()) && RootPartNum(layout).Some? && host.NeverRetypes() ==> tookDown
    {
      hide AcceptedDisk, ImageAccepted, OnTarget, PartName, RootPartNum, Held, Written, Has, WritesOf, Helpful, Did;
      hide Worked;
      hide Clean, TargetMounts, BootMounts, Cooperative, Known, LayoutFor;
      CooperativeHost();
      StillCooperative();
      var num := RootPartNum(layout);
      if num.None? {
        return Some(NoPartNum);
      }
      var disk := TargetDisk();
      if disk.None? {
        return Some(DiskUnresolved);
      }
      var ok := TakeDown();
      if !ok {
        return Some(CommandFailed);
      }
      RetypesRoot();
      BootIs();
      ghost var down := host.tick;
      ok := SetRootType(disk.value, num.value);
      if ok {
        ok := Command();            // waiting for the partition's node
      }
      if !ok {
        return Some(CommandFailed);
      }
      fault := Remount();
      if fault.None? {
        RetagWorked(old(host.tick), down);
      }
    }

    lemma RetagWorked(from: nat, down: nat)
      requires Laid() && Did(if Encrypted(recipe) then 2 else 1, host.verdict, from, down)
      requires host.verdict(down) && host.verdict(down + 1) && host.retypes(down)
      requires
        var n := (if Encrypted(recipe) then 1 else 0) + if layout.boot == "" then 4 else 6;
        Did(n, host.verdict, down + 2, host.tick)
      ensures Worked(RetagRoot, recipe, facts, host, from, host.tick)
    {
      hide Laid;
      BootIs();
    }

    /** The tree unmounted and the mapper closed, to free the partition. */
    method TakeDown() returns (ok: bool)
      requires Held() && Written() && unmounts && !tookDown && (Encrypted(recipe) ==> closes)
      modifies host`tick, host`mounts, host`released, host`denied, host`mapper, this`tookDown
      ensures old(host.tick) <= host.tick
      ensures Held() && Written() && host.denied == old(host.denied)
      ensures ok ==> tookDown && (Clean() ==> host.mounts == entry) && (Encrypted(recipe) ==> host.mapper.NotOpen?)
      ensures Cooperative() && (Encrypted(recipe) ==> old(host.mapper).Opened?) ==> ok
      ensures !Encrypted(recipe) ==> host.mapper == old(host.mapper)
      ensures ok ==> Did(if Encrypted(recipe) then 2 else 1, host.verdict, old(host.tick), host.tick)
    {
      hide Timed, Going, Bookkept, Clean, Cooperative, Written, WithoutTree, Thinned, TopAt;
      hide AcceptedDisk, ImageAccepted, Treed;
      CooperativeHost();
      StillCooperative();
      TreedNow();
      ok := host.UnmountTree(dir, None);
      tookDown := ok;
      TimedOn();
      AfterComingOff(old(host.mounts), ok);
      if ok && Encrypted(recipe) {
        ok := CloseForRetype();
      }
    }

    method CloseForRetype() returns (ok: bool)
      requires Held() && tookDown && closes
      modifies host`tick, host`denied, host`mapper
      ensures old(host.tick) <= host.tick
      ensures Held() && host.denied == old(host.denied) && (ok ==> host.mapper.NotOpen?)
      ensures ok ==> Did(1, host.verdict, old(host.tick), host.tick)
      ensures Cooperative() && old(host.mapper).Opened? && Encrypted(recipe) ==> ok
    {
      hide AcceptedDisk, ImageAccepted, OnlyStuck, Helpful, Timed;
      NoBindNow();
      ok := host.LuksClose(None);
      TimedOn();
    }

    lemma TreeIsOn(ms: seq<Mount>, stuck: seq<Denial>)
      ensures TreeOn(ms, entry, dir, stuck) ==> TopAt(ms, dir) >= |entry|
    {}

    /** The table after a recursive unmount of the target, whether or not it worked. */
    lemma TreeComesOff(before: seq<Mount>, stuck: seq<Denial>)
      ensures
        TreeOn(before, entry, dir, stuck) && TopAt(before, dir) >= 0 && host.mounts == WithoutTree(before, dir) ==>

        OnlyStuck(host.mounts, entry, stuck)
      ensures TreeOn(before, entry, dir, stuck) && TopAt(before, dir) >= 0 && Thinned(host.mounts, before, dir) ==>
        TreeOn(host.mounts, entry, dir, stuck) && TopAt(host.mounts, dir) >= |entry|
    {
      hide TreeOn, OnlyStuck, WithoutTree, Thinned, TopAt;
      if TreeOn(before, entry, dir, stuck) && TopAt(before, dir) >= 0 {
        TreeOff(before, entry, dir, stuck);
        if Thinned(host.mounts, before, dir) {
          TreeThinned(host.mounts, before, entry, dir, stuck);
          TreeIsOn(host.mounts, stuck);
        }
      }
    }

    lemma RetypesRoot()
      requires Laid()
      ensures RootPartNum(layout) == Some(if recipe.target.bootloader.Grub2? then 3 else 2)
      ensures OnTarget(recipe, Accepted().value, Retype(Accepted().value, RootPartNum(layout).value))
      ensures PartName(Accepted().value, RootPartNum(layout).value) == layout.root
      ensures WritesOf(RetagRoot) == [Retype(Accepted().value, RootPartNum(layout).value)]
    {
      hide AcceptedDisk, ImageAccepted, PartName, RootPartNum;
      RootPartNumOfPartName(layout, if recipe.target.bootloader.Grub2? then 3 else 2);
    }

    /** Reopening the mapper on the root partition and mounting the tree again. */
    method Remount() returns (fault: Option<Fault>)
      requires Held() && Written() && unmounts && tookDown && (Encrypted(recipe) ==> closes)
      modifies host`tick, host`mounts, host`released, host`denied, host`mapper, this`tookDown
      ensures old(host.tick) <= host.tick
      ensures Held() && Written() && host.denied == old(host.denied)
      ensures fault.Some? ==> !IsOrderFault(fault.value)
      ensures fault.None? ==> !tookDown && (Clean() ==> host.mounts == entry + TargetMounts())
      ensures fault.None? && Encrypted(recipe) ==> host.mapper == Opened(layout.root)
      ensures
        (&& Cooperative() && (rootDev.Mapper? ==> Encrypted(recipe))
         && (Encrypted(recipe) ==> host.Unlocks(layout.root, luksKey))) ==> fault.None?
      ensures !Encrypted(recipe) ==> host.mapper == old(host.mapper)
      ensures fault.None? && (Encrypted(recipe) ==> old(host.mapper).NotOpen?) ==>
        var n := (if Encrypted(recipe) then 1 else 0) + if layout.boot == "" then 4 else 6;
        Did(n, host.verdict, old(host.tick), host.tick)
    {
      hide Held, Written, Cooperative, Did;
      if Encrypted(recipe) {
        var ok := Reopen();
        if !ok {
          return Some(CommandFailed);
        }
      }
      ghost var reopened := host.tick;
      fault := MountAgain();
      if fault.None? && (Encrypted(recipe) ==> old(host.mapper).NotOpen?) {
        DidOne(host.verdict, old(host.tick));
        var opens, mounts := if Encrypted(recipe) then 1 else 0, if layout.boot == "" then 4 else 6;
        DidOn(opens, mounts, host.verdict, old(host.tick), reopened, host.tick);
      }
    }

    method Reopen() returns (ok: bool)
      requires Held() && unmounts && tookDown && closes
      modifies host`tick, host`denied, host`mapper
      ensures old(host.tick) <= host.tick
      ensures Held() && host.denied == old(host.denied) && (ok ==> host.mapper == Opened(layout.root))
      ensures ok && old(host.mapper).NotOpen? ==> Did(1, host.verdict, old(host.tick), host.tick)
      ensures Cooperative() && Encrypted(recipe) && host.Unlocks(layout.root, luksKey) ==> ok
    {
      hide AcceptedDisk, ImageAccepted, OnlyStuck, Helpful, AllHappened, ThawsFailedAt, FinalizedAt;
      NoBindNow();
      ok := host.OpenMapper(layout.root, luksKey);
      StillTimed(old(host.denied), old(host.tick));
    }

    method MountAgain() returns (fault: Option<Fault>)
      requires Held() && unmounts && tookDown
      modifies host`tick, host`mounts, host`released, host`denied, this`tookDown
      ensures old(host.tick) <= host.tick
      ensures Held() && host.denied == old(host.denied)
      ensures fault.Some? ==> !IsOrderFault(fault.value)
      ensures fault.None? ==> !tookDown && (Clean() ==> host.mounts == entry + TargetMounts())
      ensures fault.None? ==> Did(if layout.boot == "" then 4 else 6, host.verdict, old(host.tick), host.tick)
      ensures Cooperative() && (rootDev.Mapper? ==> host.mapper.Opened?) ==> fault.None?
    {
      hide Timed, Going, Bookkept, Clean, Cooperative, TargetTree, TargetMounts, AcceptedDisk, ImageAccepted, Bare;
      CooperativeHost();
      StillCooperative();
      BareNow();
      var ok, stuck := MountTree(None);
      if ok || stuck {
        tookDown := false;
      }
      TimedOn();
      if ok || stuck {
        AfterMounting(old(host.mounts), old(host.denied));
      } else {
        StillBare();
      }
      fault := if ok then None else Some(CommandFailed);
    }

    // ---------- the cleanup stack ----------

    /** The table the cleanup gives back, but for what is stuck: the entry's, unless retag-root took
        the tree down for good and something was mounted at the target before. */
    ghost function Left(): seq<Mount>
      reads this`tookDown
    {
      if tookDown then LateTable(entry, dir) else entry
    }

    ghost predicate GivenBack()
      requires earlierDenied <= host.denied
      reads this`tookDown, host`mounts, host`denied
    {
      OnlyStuck(host.mounts, Left(), New()) || (New() != [] && OnlyStuck(host.mounts, entry, New()))
    }

    /** unwind: every undo, last registered first. What no release failed to give back is
        given back: no mapper is open, and the mount table is the entry's but for a late undo. */
    method Unwind(ghost failed: Option<StepName>) returns (faults: nat)
      requires Held() && Stands(cleanup) && Traced(|cleanup|, failed)
      modifies host`tick, host`mounts, host`released, host`denied, host`mapper, this`secureRoot, this`cleanup
      ensures cleanup == [] && old(host.denied) <= host.denied && Timed() && Stands([]) && Traced(0, failed)
      ensures Going() ==> GivenBack() && !host.mapper.Opened?
      ensures Going() && tookDown && Encrypted(recipe) ==> NoneFrom(entry, Mapper)
      ensures old(cleanup) == [] ==> unchanged(host)
      ensures host.tick == old(host.tick) + |old(cleanup)|
      ensures faults <= |old(cleanup)|
      ensures faults == 0 ==> AllWork(host.verdict, old(host.tick), host.tick) && host.denied == old(host.denied)
      ensures Cooperative() ==> Clean()
      ensures Cooperative() && old(AllHeld(|cleanup|)) ==> faults == 0
    {
      hide *;
      KeptShape();
      HeldParts();
      CooperativeHost();
      assert cleanup == Shape(closes, unmounts, secureRoot);
      assert cleanup[..|cleanup|] == cleanup;
      KeptPrefix();
      RemainingAll();
      faults := 0;
      OneWorks(host.verdict, host.tick);
      var i := |cleanup|;
      while i > 0
        invariant 0 <= i <= |cleanup| && cleanup == old(cleanup) == Shape(closes, unmounts, old(secureRoot))
        invariant host.Sane() && Timed() && old(host.denied) <= host.denied && Stands(cleanup[..i])
        invariant Traced(i, failed) && host.tick == old(host.tick) + |cleanup| - i && faults <= |cleanup| - i
        invariant faults == 0 ==> AllWork(host.verdict, old(host.tick), host.tick) && host.denied == old(host.denied)
        invariant Going() ==> Remaining(i)
        invariant Going() ==> old(Going())
        invariant i == |cleanup| ==> unchanged(host)
        invariant Cooperative() ==> Clean()
        invariant Cooperative() && old(AllHeld(|cleanup|)) ==> AllHeld(i) && faults == 0
      {
        i := i - 1;
        ghost var now := host.tick;
        OneWorks(host.verdict, now);
        var ok := Release(i, cleanup[i], failed);
        WasGoing();
        if !ok {
          faults := faults + 1;
        } else if faults == 0 {
          WorkOn(host.verdict, old(host.tick), now, host.tick);
        }
      }
      assert cleanup[..0] == [];
      if Going() {
        NothingRemains();
      }
      cleanup := [];
    }

    /** Every denial so far is where it can be with `left` undos still to come. */
    ghost predicate Traced(left: nat, failed: Option<StepName>)
      reads host`denied, host`tick
    {
      AllTraced(host.denied, left, failed, host.tick)
    }

    ghost predicate AllTraced(log: seq<Denial>, left: nat, failed: Option<StepName>, tick: nat) {
      forall k | |earlierDenied| <= k < |log| :: ComesLast(log[k], failed, left, tick)
    }

    lemma StillTraced(left: nat, failed: Option<StepName>, log: seq<Denial>, tick: nat)
      requires AllTraced(log, left + 1, failed, tick) && host.tick == tick + 1 && earlierDenied <= log
      requires
        || host.denied == log
        || (&& |host.denied| == |log| + 1 && log <= host.denied && left <= 1
            && (host.denied[|log|].what.TreeUndo? || host.denied[|log|].what.MapperUndo?)
            && host.denied[|log|].at == tick)
      ensures Traced(left, failed)
    {
      forall k | |earlierDenied| <= k < |host.denied| ensures ComesLast(host.denied[k], failed, left, host.tick) {
        if k < |log| {
          assert ComesLast(log[k], failed, left + 1, tick);
        }
      }
    }

    lemma GoingTraced(left: nat, failed: Option<StepName>)
      requires Going()
      ensures Traced(left, failed)
    {
      forall k | |earlierDenied| <= k < |host.denied| ensures ComesLast(host.denied[k], failed, left, host.tick) {
        assert New()[k - |earlierDenied|].what.BindDetach?;
      }
    }

    /** The step's own release was denied just now, with at most the mapper's close to come. */
    lemma OneMoreTraced(before: seq<Denial>, left: nat, failed: Option<StepName>)
      requires earlierDenied <= before <= host.denied && |host.denied| == |before| + 1 && left <= 1
      requires OnlyBinds(before[|earlierDenied|..]) && ComesLast(host.denied[|before|], failed, left, host.tick)
      ensures Traced(left, failed)
    {
      forall k | |earlierDenied| <= k < |host.denied| ensures ComesLast(host.denied[k], failed, left, host.tick) {
        if k < |before| {
          assert before[|earlierDenied|..][k - |earlierDenied|].what.BindDetach?;
        }
      }
    }

    lemma KeptPrefix()
      requires Timed()
      ensures earlierDenied <= host.denied
    {}

    twostate lemma WasGoing()
      requires earlierDenied <= old(host.denied) <= host.denied
      ensures Going() ==> old(Going())
    {
      if Going() {
        forall k | 0 <= k < |old(New())| ensures old(New())[k].what.BindDetach? {
          assert New()[k] == old(New())[k];
        }
      }
    }

    lemma RemainingAll()
      requires Held()
      ensures Going() ==> Remaining(|cleanup|) && (tookDown && Encrypted(recipe) ==> NoneFrom(entry, Mapper))
    {
      hide TreeOn, OnlyStuck, LateTable;
      ShapeHolds(closes, unmounts, secureRoot);
      assert cleanup[..|cleanup|] == cleanup;
    }

    /** What is still held has its undo among the first `i`. */
    ghost predicate Remaining(i: nat)
      requires earlierDenied <= host.denied
      reads this`cleanup, this`tookDown, host`mounts, host`mapper, host`denied
    {
      && i <= |cleanup|
      && (if UnmountTarget !in cleanup[..i] then GivenBack()
          else if tookDown then OnlyStuck(host.mounts, entry, New())
          else TreeOn(host.mounts, entry, dir, New()))
      && (host.mapper.Opened? ==> CloseMapper in cleanup[..i] && NoneFrom(entry, Mapper))
    }

    /** Everything registered among the first `i` is held. */
    ghost predicate AllHeld(i: nat)
      reads this`cleanup, host`mounts, host`mapper
    {
      && i <= |cleanup|
      && (CloseMapper in cleanup[..i] ==> host.mapper.Opened?)
      && (UnmountTarget in cleanup[..i] ==> TopAt(host.mounts, dir) >= 0)
    }

    lemma NothingRemains()
      requires earlierDenied <= host.denied && Remaining(0)
      ensures GivenBack() && !host.mapper.Opened?
    {
      hide GivenBack;
      assert cleanup[..0] == [];
    }

    /** One undo; it fails on a resource that is not held, and that leaves nothing behind. */
    method Release(ghost i: nat, undo: Undo, ghost failed: Option<StepName>) returns (ok: bool)
      requires i < |cleanup| && cleanup[i] == undo && host.Sane()
      requires exists a, b, c :: cleanup == Shape(a, b, c)
      requires Timed() && Stands(cleanup[..i + 1]) && (Going() ==> Remaining(i + 1))
      requires Traced(i + 1, failed)
      modifies host`tick, host`mounts, host`released, host`denied, host`mapper, this`secureRoot
      ensures host.Sane() && Timed() && Stands(cleanup[..i]) && old(host.denied) <= host.denied
      ensures Going() ==> Remaining(i)
      ensures Traced(i, failed) && host.tick == old(host.tick) + 1 && (ok ==> host.verdict(old(host.tick)))
      ensures ok ==> host.denied == old(host.denied)
      ensures host.Willing() && old(Clean()) ==> Clean() && (old(AllHeld(i + 1)) ==> ok && AllHeld(i))
    {
      hide Stands, Timed, Going, Remaining, AllHeld, Shape, AcceptedDisk, ImageAccepted, Helpful, Traced;
      match undo {
        case CloseMapper => ok := ReleaseMapper(i, failed);
        case UnmountTarget => ok := ReleaseTree(i, failed);
        case RemoveSecureRoot => ok := ReleaseSecureRoot(i, failed);
      }
    }

    /** An undo settles what it was for: it is gone, or its release was denied and it remains. */
    lemma StillStands(pending: seq<Undo>, undo: Undo, log: seq<Denial>, ms: seq<Mount>, mapper: MapperState)
      requires AllStand(log, ms, mapper, pending + [undo]) && undo !in pending && earlierDenied <= log
      requires !undo.UnmountTarget? ==> host.mounts == ms
      requires !undo.CloseMapper? ==> host.mapper == mapper
      requires
        || host.denied == log
        || (&& |host.denied| == |log| + 1 && log <= host.denied
            && Stuck(host.denied[|log|], host.mounts, host.mapper, pending))
      ensures Stands(pending)
    {
      hide TopAt;
      forall k | |earlierDenied| <= k < |host.denied| ensures Stuck(host.denied[k], host.mounts, host.mapper, pending) {
        if k < |log| {
          assert Stuck(log[k], ms, mapper, pending + [undo]);
        }
      }
    }

    lemma StillHappened(log: seq<Denial>, tick: nat)
      requires AllHappened(log, tick) && tick <= host.tick
      ensures AllHappened(log, host.tick)
    {
      forall k | |earlierDenied| <= k < |log| ensures HappenedAt(log[k], k, host.tick) {
        assert HappenedAt(log[k], k, tick);
      }
    }

    /** The run goes on: commands fail later, and a new denial has its command. */
    lemma StillTimed(log: seq<Denial>, tick: nat)
      requires began <= tick <= host.tick && AllHappened(log, tick)
      requires thawsFailed ==> ThawsFailedAt(host.verdict, thawAt, began, tick)
      requires finalizedAt.Some? ==> FinalizedAt(host.verdict, finalizedAt.value, began, tick)
      requires
        || host.denied == log
        || (|host.denied| == |log| + 1 && log <= host.denied && HappenedAt(host.denied[|log|], |log|, host.tick))
      ensures Timed()
    {
      forall k | |earlierDenied| <= k < |host.denied| ensures HappenedAt(host.denied[k], k, host.tick) {
        if k < |log| {
          assert HappenedAt(log[k], k, tick);
        }
      }
    }

    method ReleaseMapper(ghost i: nat, ghost failed: Option<StepName>) returns (ok: bool)
      requires i < |cleanup| && cleanup[i] == CloseMapper && host.Sane()
      requires exists a, b, c :: cleanup == Shape(a, b, c)
      requires Timed() && Stands(cleanup[..i + 1]) && (Going() ==> Remaining(i + 1))
      requires Traced(i + 1, failed)
      modifies host`tick, host`denied, host`mapper
      ensures host.Sane() && Timed() && Stands(cleanup[..i]) && old(host.denied) <= host.denied
      ensures Going() ==> Remaining(i)
      ensures Traced(i, failed) && host.tick == old(host.tick) + 1 && (ok ==> host.verdict(old(host.tick)))
      ensures ok ==> host.denied == old(host.denied)
      ensures host.Willing() && old(Clean()) ==> Clean() && (old(AllHeld(i + 1)) ==> ok && AllHeld(i))
    {
      hide AllStand, AcceptedDisk, ImageAccepted, Helpful, LateTable, OnlyStuck, TreeOn, AllHappened, ThawsFailedAt;
      hide AllTraced;
      hide FinalizedAt;
      KeptPrefix();
      assert cleanup[..i + 1] == cleanup[..i] + [CloseMapper];
      assert CloseMapper in cleanup[..i + 1] && UnmountTarget !in cleanup[..i];
      NoneFromLeft();
      ok := host.LuksClose(Some(MapperUndo));
      StillStands(cleanup[..i], cleanup[i], old(host.denied), old(host.mounts), old(host.mapper));
      StillTimed(old(host.denied), old(host.tick));
      StillTraced(i, failed, old(host.denied), old(host.tick));
      NoBindLogged(old(host.denied));
    }

    /** A denial that is not of a bind ends the promise. */
    lemma NoBindLogged(log: seq<Denial>)
      requires earlierDenied <= log <= host.denied
      requires host.denied != log ==> |host.denied| == |log| + 1 && !host.denied[|log|].what.BindDetach?
      ensures Going() ==> host.denied == log
    {
      if host.denied != log {
        assert New()[|log| - |earlierDenied|] == host.denied[|log|];
      }
    }

    lemma NoneFromLeft()
      requires earlierDenied <= host.denied
      ensures NoneFrom(entry, Mapper) && Clean() && GivenBack() ==> NoneFrom(host.mounts, Mapper)
    {
      hide TopAt, WithoutTree, OnlyStuck;
      if TopAt(entry, dir) >= 0 && NoneFrom(entry, Mapper) {
        UnmountKeepsNone(entry, dir, Mapper);
      }
      if Clean() && GivenBack() {
        assert New() == [];
        NothingStuck(host.mounts, Left());
      }
    }

    method ReleaseTree(ghost i: nat, ghost failed: Option<StepName>) returns (ok: bool)
      requires i < |cleanup| && cleanup[i] == UnmountTarget && host.Sane()
      requires exists a, b, c :: cleanup == Shape(a, b, c)
      requires Timed() && Stands(cleanup[..i + 1]) && (Going() ==> Remaining(i + 1))
      requires Traced(i + 1, failed)
      modifies host`tick, host`mounts, host`released, host`denied
      ensures host.Sane() && Timed() && Stands(cleanup[..i]) && old(host.denied) <= host.denied
      ensures Going() ==> Remaining(i)
      ensures Traced(i, failed) && host.tick == old(host.tick) + 1 && (ok ==> host.verdict(old(host.tick)))
      ensures ok ==> host.denied == old(host.denied)
      ensures host.Willing() && old(Clean()) ==> Clean() && (old(AllHeld(i + 1)) ==> ok && AllHeld(i))
    {
      hide AllStand, AcceptedDisk, ImageAccepted, TreeOn, OnlyStuck, WithoutTree, Thinned, TopAt, Helpful;
      hide AllHappened, AllTraced;
      hide ThawsFailedAt, FinalizedAt, LateTable;
      KeptPrefix();
      assert cleanup[..i + 1] == cleanup[..i] + [UnmountTarget];
      assert UnmountTarget in cleanup[..i + 1] && UnmountTarget !in cleanup[..i];
      StandsGoing(cleanup[..i + 1]);
      ghost var before, stuck := host.mounts, New();
      TreeIsOn(before, stuck);
      ok := host.UnmountTree(dir, Some(TreeUndo));
      TreeComesOff(before, stuck);
      ComesOffLate(before, stuck);
      if host.denied != old(host.denied) {
        ThinnedSame(host.mounts, before, dir);
      }
      NoBindLogged(old(host.denied));
      StillStands(cleanup[..i], cleanup[i], old(host.denied), before, old(host.mapper));
      StillTimed(old(host.denied), old(host.tick));
      StillTraced(i, failed, old(host.denied), old(host.tick));
    }

    /** While the target's unmount is pending only binds have been denied. */
    lemma StandsGoing(pending: seq<Undo>)
      requires earlierDenied <= host.denied && Stands(pending) && UnmountTarget in pending
      ensures Going()
    {
      forall k | 0 <= k < |New()| ensures New()[k].what.BindDetach? {
        assert Stuck(host.denied[|earlierDenied| + k], host.mounts, host.mapper, pending);
      }
    }

    /** The same unmount when the tree was already off. */
    lemma ComesOffLate(before: seq<Mount>, stuck: seq<Denial>)
      ensures OnlyStuck(before, entry, stuck) && TopAt(before, dir) < 0 ==> LateTable(entry, dir) == entry
      ensures OnlyStuck(before, entry, stuck) && TopAt(before, dir) >= 0 && host.mounts == WithoutTree(before, dir) ==>
        OnlyStuck(host.mounts, LateTable(entry, dir), stuck) || (stuck != [] && OnlyStuck(host.mounts, entry, stuck))
    {
      hide OnlyStuck, WithoutTree;
      if OnlyStuck(before, entry, stuck) {
        LateTop(before, stuck);
        if TopAt(before, dir) >= 0 {
          LateUndo(before, entry, dir, stuck);
          if stuck == [] {
            NothingStuck(before, entry);
          }
        }
      }
    }

    lemma LateTop(before: seq<Mount>, stuck: seq<Denial>)
      requires OnlyStuck(before, entry, stuck)
      ensures TopAt(entry, dir) >= 0 ==> TopAt(before, dir) >= 0
    {
      var k := TopAt(entry, dir);
      if k >= 0 {
        assert before[..|entry|][k] == entry[k];
      }
    }

    method ReleaseSecureRoot(ghost i: nat, ghost failed: Option<StepName>) returns (ok: bool)
      requires i < |cleanup| && cleanup[i] == RemoveSecureRoot && host.Sane()
      requires exists a, b, c :: cleanup == Shape(a, b, c)
      requires Timed() && Stands(cleanup[..i + 1]) && (Going() ==> Remaining(i + 1))
      requires Traced(i + 1, failed)
      modifies host`tick, this`secureRoot
      ensures host.Sane() && Timed() && Stands(cleanup[..i]) && old(host.denied) <= host.denied
      ensures Going() ==> Remaining(i)
      ensures Traced(i, failed) && host.tick == old(host.tick) + 1 && (ok ==> host.verdict(old(host.tick)))
      ensures ok ==> host.denied == old(host.denied)
      ensures secureRoot == (old(secureRoot) && !ok)
      ensures host.Willing() && old(Clean()) ==> Clean() && (old(AllHeld(i + 1)) ==> ok && AllHeld(i))
    {
      hide AllStand, AcceptedDisk, ImageAccepted, TreeOn, OnlyStuck, Helpful, LateTable, AllHappened, ThawsFailedAt;
      hide AllTraced;
      hide FinalizedAt;
      KeptPrefix();
      assert cleanup[..i + 1] == cleanup[..i] + [RemoveSecureRoot];
      ok := host.Run();
      if ok {
        secureRoot := false;
      }
      StillStands(cleanup[..i], cleanup[i], old(host.denied), old(host.mounts), old(host.mapper));
      StillTimed(old(host.denied), old(host.tick));
      StillTraced(i, failed, old(host.denied), old(host.tick));
    }

    // ---------- whole runs ----------

    /** What Validate makes sure of. */
    ghost predicate ValidRecipe() {
      Installable(recipe)
    }

    ghost predicate Sound()
      reads this`targetDisk, this`cleanup, this`closes, this`unmounts, this`tookDown, this`secureRoot, this`emitFailed
      reads this`thawsFailed, this`thawAt, this`finalizedAt
      reads host`tick, host`mounts, host`mapper, host`override, host`frozen, host`denied, host`writes
    {
      Held() && Written() && Known()
    }

    /** bootc was given nothing, or the source that preflight chose and verified; and it was given
        something before retag-root took the tree down. */
    ghost predicate Trusted()
      reads this`bootcSourceRef, this`installedRef, this`tookDown, cosign, host`deployed
    {
      && (installedRef.Some? ==> Given() && Verified(bootcSourceRef)) && (tookDown ==> installedRef.Some?)
      && (host.deployed == entryDeployed || host.deployed == installedRef)
    }

    /** Every release this run was denied is of something that is still there, and none of the
        undos still to come concerns it. */
    ghost predicate Stands(pending: seq<Undo>)
      reads this`tookDown, host`denied, host`mounts, host`mapper
    {
      AllStand(host.denied, host.mounts, host.mapper, pending)
    }

    ghost predicate AllStand(log: seq<Denial>, ms: seq<Mount>, mapper: MapperState, pending: seq<Undo>)
      reads this`tookDown
    {
      forall k | |earlierDenied| <= k < |log| :: Stuck(log[k], ms, mapper, pending)
    }

    ghost predicate Stuck(d: Denial, ms: seq<Mount>, mapper: MapperState, pending: seq<Undo>)
      reads this`tookDown
    {
      Remains(d, host.verdict, |entry|, tookDown, ms, mapper, dir, scratch) && Settled(d.what, pending)
    }

    lemma GoingStands(pending: seq<Undo>)
      requires Going()
      ensures Stands(pending)
    {
      forall k | |earlierDenied| <= k < |host.denied| ensures Stuck(host.denied[k], host.mounts, host.mapper, pending) {
        assert New()[k - |earlierDenied|].what.BindDetach?;
      }
    }

    /** The first release that is denied for good. */
    lemma OneMore(before: seq<Denial>, pending: seq<Undo>)
      requires earlierDenied <= before <= host.denied && |host.denied| == |before| + 1
      requires OnlyBinds(before[|earlierDenied|..]) && Stuck(host.denied[|before|], host.mounts, host.mapper, pending)
      ensures Stands(pending)
    {
      forall k | |earlierDenied| <= k < |host.denied| ensures Stuck(host.denied[k], host.mounts, host.mapper, pending) {
        if k < |before| {
          assert before[|earlierDenied|..][k - |earlierDenied|].what.BindDetach?;
        }
      }
    }

    /** The steps before this one are those of lower rank, with all it relies on. */
    ghost predicate Ready(step: StepName)
      reads this`done
    {
      && step !in done && (forall d <- done :: Rank(d) < Rank(step))
      && forall n :: Needs(recipe, step, n) ==> n in done
    }

    method Perform(step: StepName) returns (fault: Option<Fault>)
      requires ValidRecipe() && Sound() && Has() && Ready(step) && Included(recipe, step)
      requires Going()
      requires facts.ramOnly ==> PodmanStaysInside(facts)
      modifies this, host, cosign
      ensures old(host.tick) <= host.tick
      ensures Sound() && Trusted() && (tookDown ==> step.RetagRoot? && fault.Some?)
      ensures thawsFailed ==> step.Finalize? && fault.Some?
      ensures Stands(cleanup) && Traced(|cleanup|, Some(step)) && (fault.None? ==> Going())
      ensures fault.Some? ==> !IsOrderFault(fault.value)
      ensures fault.None? ==> Worked(step, recipe, facts, host, old(host.tick), host.tick)
      ensures old(told) <= told && (fault.None? && !emitFailed ==> Says(step, recipe, facts, Since(old(told), told)))
      ensures fault.Some? ==> done == old(done)
      ensures at == old(at) && turns == old(turns)
      ensures fault.None? ==> Has() && done == old(done) + {step}
      ensures IsPreflight(step) ==> unchanged(host) && cleanup == old(cleanup)
      ensures fault.None? && !step.Partition? ==>
        host.writes == old(host.writes) + WritesOf(step) && partitioning == old(partitioning)
      ensures fault.None? && step.Partition? ==> host.writes == old(host.writes) + partitioning && WholeDiskFirst()
      ensures Cooperative() && (step.RetagRoot? ==> host.Retypes() && Free()) ==> fault.None?
      ensures Cooperative() && step.RetagRoot? && host.NeverRetypes() ==> tookDown
    {
      hide *;
      Kinds(step);
      NotTaken();
      if IsPreflight(step) {
        fault := PerformPreflight(step);
      } else if IsDiskStep(step) {
        fault := PerformDiskStep(step);
      } else if step.BootcInstall? {
        fault := PerformBootcInstall();
      } else if step.RetagRoot? {
        fault := PerformRetagRoot();
      } else {
        fault := PerformLateStep(step);
      }
      if Going() {
        GoingStands(cleanup);
        GoingTraced(|cleanup|, Some(step));
      }
    }

    lemma Kinds(step: StepName)
      requires Included(recipe, step)
      ensures IsPreflight(step) ==> !step.Partition? && !step.RetagRoot? && !step.Finalize?
      ensures IsDiskStep(step) ==> !step.RetagRoot? && !step.Finalize? && (step.LuksFormat? ==> Encrypted(recipe))
      ensures !IsPreflight(step) && !IsDiskStep(step) && !step.BootcInstall? && !step.RetagRoot? ==> IsLateStep(step)
      ensures step.EspStage? || step.MokStage? ==> SecureBootc(recipe)
      ensures !IsDiskStep(step) ==> !step.Partition?
    {}

    // What a step finds, and how it leaves things for the next one.

    lemma Apart()
      requires Sound()
      ensures Held() && Written() && Known()
    {
      hide Held, Written, Known;
    }

    lemma Parts()
      requires Sound() && Has()
      ensures Held() && Written() && Known() && HasSource() && HasFinal() && HasDisk()
      ensures HasChecks() && HasLayout() && HasKey() && HasMapper() && HasTree()
      ensures Trusted() && !tookDown && !thawsFailed && (Cooperative() ==> !emitFailed && Clean())
    {
      hide Kept, Timed, Bookkept, Going, Written, Known, Laid, TargetMounts, Verified, Given;
      hide Cooperative, Clean;
    }

    lemma Together()
      requires Held() && Written() && Known()
      ensures Sound()
    {
      hide Held, Written, Known;
    }

    lemma AllTogether()
      requires HasSource() && HasFinal() && HasChecks() && HasLayout() && HasKey() && HasMapper() && HasTree()
      ensures Has()
    {
      hide HasSource, HasFinal, HasChecks, HasLayout, HasKey, HasMapper, HasTree;
    }

    /** What the earlier steps come to for this one. */
    lemma ReadyFor(step: StepName)
      requires Ready(step) && Has()
      ensures step.PreflightImage? ==> |cosign.calls| == firstCall
      ensures step.PreflightImage? ==> installedRef.None? && !secureRoot && NotDeployed()
      ensures step.Partition? ==> Cleared() && NothingYet()
      ensures step.LuksFormat? ==> NothingYet() && !secureRoot
      ensures step.MountTarget? ==> !unmounts && !secureRoot && (rootDev.Mapper? ==> host.mapper.Opened?)
      ensures step.FormatRoot? ==>
        MountTarget !in done && Rooted() && !unmounts && !secureRoot && WritesOf(FormatRoot) == [RootWrite()]
      ensures step.BootcInstall? ==>
        && (installedRef.None? || Given()) && !secureRoot && NotDeployed()
        && PreflightImage in done && bootcSourceRef != "" && Verified(bootcSourceRef)
      ensures step.RetagRoot? ==>
        unmounts && MountTarget in done && (Encrypted(recipe) ==> closes) && Mappered() && installedRef.Some?
      ensures step.LuksFormat? || step.FormatBoot? || step.TpmEnroll? || step.RetagRoot? || step.MountTarget? ==>
        Laid() && Partition in done
      ensures (step.EspStage? || step.MokStage?) && SecureBootc(recipe) ==> secureRoot
    {
      hide AcceptedDisk, Verified, Given, Clean, TargetMounts, LayoutFor, ImageAccepted;
      assert step !in done;
    }

    /** Neither the mapper nor the tree is there yet. */
    ghost predicate NothingYet()
      reads this`done, this`closes, this`unmounts, this`tookDown
    {
      LuksFormat !in done && MountTarget !in done && !closes && !unmounts && !tookDown
    }

    ghost predicate NotDeployed()
      reads this`done, host`deployed
    {
      BootcInstall !in done && host.deployed == entryDeployed
    }

    lemma ValidSettings()
      requires ValidRecipe()
      ensures recipe.target.filesystem.Btrfs? || recipe.target.filesystem.Xfs? || recipe.target.filesystem.Ext4?
      ensures Encrypted(recipe) ==> recipe.security.encryption.Tpm2Luks? || WantsPassphrase(recipe.security.encryption)
      ensures recipe.image.ref != ""
    {}

    lemma WritesNothing(step: StepName)
      requires !step.FormatBoot? && !step.LuksFormat? && !step.FormatRoot? && !step.TpmEnroll? && !step.RetagRoot?
      ensures WritesOf(step) == []
    {
      hide AcceptedDisk, ImageAccepted;
    }

    lemma CooperativeHost()
      ensures Cooperative() ==> host.Willing() && (Encrypted(recipe) ==> NoneFrom(entry, Mapper))
    {}

    lemma NotTaken()
      requires Has()
      ensures !tookDown && !thawsFailed
    {}

    lemma StillCooperative()
      requires Held()
      ensures Cooperative() ==> !emitFailed && Clean()
    {}

    /** A release denied on a mount that still stands, with no undo to come for it. */
    lemma SticksStand(before: seq<Denial>, what: Release, path: Path, step: StepName)
      requires earlierDenied <= before && OnlyBinds(before[|earlierDenied|..]) && Held() && !unmounts && !tookDown
      requires Sticks(before, what, path)
      requires !secureRoot
      requires
        || (what.ScratchUnmount? && path == scratch && step.FormatRoot?)
        || (what.TargetRollback? && path == dir && step.MountTarget?)
      ensures Stands(cleanup) && Traced(|cleanup|, Some(step))
    {
      hide Stands, Traced, Timed, Bookkept, Cooperative, TopAt, Clean, OnlyBinds;
      KeptShape();
      ShapeHolds(closes, unmounts, secureRoot);
      OneMore(before, cleanup);
      OneMoreTraced(before, |cleanup|, Some(step));
    }

    lemma GoingMeans()
      ensures Going() <==> earlierDenied <= host.denied && OnlyBinds(host.denied[|earlierDenied|..])
    {}

    ghost predicate WholeDiskFirst()
      reads this`partitioning
    {
      Accepted().Some? && partitioning != [] && partitioning[0] == OnDev(Accepted().value)
    }

    /** A step that sets nothing for later ones is done. */
    method Pass(step: StepName)
      requires Has()
      requires step.FormatBoot? || step.FormatRoot? || (IsLateStep(step) && !step.Finalize?)
      modifies this`done
      ensures Has() && done == old(done) + {step}
    {
      hide Verified, Given, Clean, TargetMounts, Laid, AcceptedDisk, ImageAccepted;
      done := done + {step};
    }

    method MarkCheck(step: StepName)
      requires Has()
      requires
        || (step.PreflightUefi? && facts.uefi) || (step.PreflightTools? && facts.toolsPresent)
        || (step.PreflightDisk? && Accepted().Some?)
      modifies this`done
      ensures Has() && done == old(done) + {step}
    {
      hide Verified, Given, Clean, TargetMounts, Laid, AcceptedDisk, ImageAccepted;
      done := done + {step};
    }

    method MarkImage()
      requires HasFinal() && HasDisk() && ImageAccepted(recipe, facts, cosign, firstCall)
      requires bootcSourceRef != "" && Verified(bootcSourceRef) && installedRef.None? && !secureRoot
      requires NotDeployed()
      modifies this`done
      ensures Has() && done == old(done) + {PreflightImage}
    {
      hide Verified, Given, Clean, TargetMounts, Laid, AcceptedDisk, ImageAccepted;
      done := done + {PreflightImage};
    }

    method MarkPartition(ghost before: seq<Write>)
      requires HasSource() && HasFinal() && HasChecks() && NothingYet() && Laid() && rootDev == Block(layout.root)
      requires Accepted().Some? && before + [OnDev(Accepted().value)] <= host.writes
      modifies this`done, this`partitioning
      ensures Has() && done == old(done) + {Partition} && host.writes == before + partitioning && WholeDiskFirst()
    {
      hide Verified, Given, Clean, TargetMounts, Laid, AcceptedDisk, ImageAccepted;
      partitioning := host.writes[|before|..];
      done := done + {Partition};
    }

    method MarkMapper()
      requires HasSource() && HasFinal() && HasChecks() && Laid() && MountTarget !in done && !unmounts && !tookDown
      requires Partition in done && Encrypted(recipe) && rootDev == Mapper && closes
      requires host.mapper == Opened(layout.root) && host.Unlocks(layout.root, luksKey)
      modifies this`done
      ensures Has() && done == old(done) + {LuksFormat}
    {
      hide Verified, Given, Clean, TargetMounts, Laid, AcceptedDisk, ImageAccepted, LayoutFor;
      done := done + {LuksFormat};
    }

    method MarkTree()
      requires HasSource() && HasFinal() && HasChecks() && HasLayout() && HasKey() && HasMapper()
      requires unmounts && !tookDown && (Clean() ==> host.mounts == entry + TargetMounts())
      modifies this`done
      ensures Has() && done == old(done) + {MountTarget}
    {
      hide Verified, Given, Clean, TargetMounts, Laid, AcceptedDisk, ImageAccepted;
      done := done + {MountTarget};
    }

    method MarkInstalled()
      requires HasFinal() && HasDisk() && PreflightImage in done && bootcSourceRef != "" && Verified(bootcSourceRef)
      requires installedRef.Some? && host.deployed == installedRef && Given() && (secureRoot <==> SecureBootc(recipe))
      modifies this`done
      ensures Has() && done == old(done) + {BootcInstall}
    {
      hide Verified, Given, Clean, TargetMounts, Laid, AcceptedDisk, ImageAccepted;
      done := done + {BootcInstall};
    }

    method MarkRetagged()
      requires HasSource() && HasFinal() && HasChecks() && HasLayout() && HasKey() && MountTarget in done
      requires unmounts && !tookDown
      requires Encrypted(recipe) ==> host.mapper == Opened(layout.root)
      requires Clean() ==> host.mounts == entry + TargetMounts()
      modifies this`done
      ensures Has() && done == old(done) + {RetagRoot}
    {
      hide Verified, Given, Clean, TargetMounts, Laid, AcceptedDisk, ImageAccepted;
      done := done + {RetagRoot};
    }

    method MarkFinalized()
      requires HasSource() && HasDisk() && !thawsFailed && finalizedAt.Some?
      modifies this`done
      ensures Has() && done == old(done) + {Finalize}
    {
      hide Verified, Given, Clean, TargetMounts, Laid, AcceptedDisk, ImageAccepted;
      done := done + {Finalize};
    }

    /** A step that has nothing to say. */
    lemma Silent(step: StepName)
      ensures step.Partition? || step.FormatBoot? || step.FormatRoot? || step.MountTarget? || step.EspStage?
              || step.RetagRoot? || step.Finalize? || step.MokStage? ==>
        Says(step, recipe, facts, Since(told, told))
    {}

    method PerformPreflight(step: StepName) returns (fault: Option<Fault>)
      requires ValidRecipe() && Sound() && Has() && Ready(step) && IsPreflight(step)
      modifies cosign, this`told, this`emitFailed, this`bootcSourceRef, this`targetDisk, this`done
      ensures Sound() && Trusted()
      ensures fault.Some? ==> !IsOrderFault(fault.value)
      ensures fault.None? ==> Worked(step, recipe, facts, host, old(host.tick), host.tick)
      ensures old(told) <= told && (fault.None? && !emitFailed ==> Says(step, recipe, facts, Since(old(told), told)))
      ensures fault.Some? ==> done == old(done)
      ensures fault.None? ==> Has() && done == old(done) + {step}
      ensures fault.None? ==> host.writes == old(host.writes) + WritesOf(step)
      ensures Cooperative() ==> fault.None?
    {
      hide *;
      Checks(step);
      PreflightWorked(step, recipe, facts, host, host.tick);
      WritesNothing(step);
      if step.PreflightImage? {
        fault := PerformImageCheck();
      } else {
        fault := PerformMachineCheck(step);
      }
    }

    lemma Checks(step: StepName)
      ensures IsPreflight(step) <==>
        step.PreflightUefi? || step.PreflightTools? || step.PreflightImage? || step.PreflightDisk?
    {}

    method PerformImageCheck() returns (fault: Option<Fault>)
      requires ValidRecipe() && Sound() && Has() && Ready(PreflightImage)
      modifies cosign, this`told, this`emitFailed, this`bootcSourceRef, this`done
      ensures Sound() && Trusted()
      ensures fault.Some? ==> !IsOrderFault(fault.value)
      ensures old(told) <= told
      ensures fault.None? && !emitFailed ==> Says(PreflightImage, recipe, facts, Since(old(told), told))
      ensures fault.Some? ==> done == old(done)
      ensures fault.None? ==> Has() && done == old(done) + {PreflightImage}
      ensures Cooperative() ==> fault.None?
    {
      hide *;
      Parts();
      ReadyFor(PreflightImage);
      ValidSettings();
      fault := RunPreflightImage();
      Together();
      NothingInstalled();
      if fault.None? {
        MarkImage();
      }
    }

    lemma NothingInstalled()
      requires NotDeployed()
      ensures installedRef.None? && !tookDown ==> Trusted()
    {}

    method PerformMachineCheck(step: StepName) returns (fault: Option<Fault>)
      requires Sound() && Has() && (step.PreflightUefi? || step.PreflightTools? || step.PreflightDisk?)
      modifies this`told, this`emitFailed, this`targetDisk, this`done
      ensures Sound() && Trusted()
      ensures fault.Some? ==> !IsOrderFault(fault.value)
      ensures old(told) <= told && (fault.None? && !emitFailed ==> Says(step, recipe, facts, Since(old(told), told)))
      ensures fault.Some? ==> done == old(done)
      ensures fault.None? ==> Has() && done == old(done) + {step}
      ensures Cooperative() ==> fault.None?
    {
      hide *;
      Parts();
      if step.PreflightUefi? {
        fault := RunPreflightUefi();
      } else if step.PreflightTools? {
        fault := RunPreflightTools();
      } else {
        fault := RunPreflightDisk();
      }
      Together();
      if fault.None? {
        MarkCheck(step);
      }
    }

    predicate IsDiskStep(step: StepName) {
      step.Partition? || step.FormatBoot? || step.LuksFormat? || step.FormatRoot? || step.MountTarget?
    }

    method PerformDiskStep(step: StepName) returns (fault: Option<Fault>)
      requires ValidRecipe() && Sound() && Has() && Ready(step) && IsDiskStep(step)
      requires (step.LuksFormat? ==> Encrypted(recipe))
      modifies host`tick, host`writes, host`mounts, host`mapper, host`keys, host`released, host`denied
      modifies this`told, this`emitFailed, this`targetDisk, this`layout, this`rootDev, this`luksKey
      modifies this`cleanup, this`closes, this`unmounts, this`done, this`partitioning
      ensures old(host.tick) <= host.tick
      ensures Sound() && Trusted()
      ensures fault.Some? ==> !IsOrderFault(fault.value)
      ensures fault.None? ==> Worked(step, recipe, facts, host, old(host.tick), host.tick)
      ensures old(told) <= told && (fault.None? && !emitFailed ==> Says(step, recipe, facts, Since(old(told), told)))
      ensures fault.Some? ==> done == old(done)
      ensures fault.None? ==> Has() && done == old(done) + {step}
      ensures fault.None? && !step.Partition? ==>
        host.writes == old(host.writes) + WritesOf(step) && partitioning == old(partitioning)
      ensures fault.None? && step.Partition? ==> host.writes == old(host.writes) + partitioning && WholeDiskFirst()
      ensures old(Going()) ==> Stands(cleanup) && Traced(|cleanup|, Some(step)) && (fault.None? ==> Going())
      ensures Cooperative() ==> fault.None?
    {
      hide *;
      DiskSteps(step);
      if step.Partition? {
        fault := PerformPartition();
      } else if step.LuksFormat? {
        fault := PerformLuksFormat();
      } else if step.MountTarget? {
        fault := PerformMountTarget();
      } else {
        fault := PerformFormat(step);
      }
      if Going() {
        GoingStands(cleanup);
        GoingTraced(|cleanup|, Some(step));
      }
    }

    lemma DiskSteps(step: StepName)
      ensures IsDiskStep(step) <==>
        step.Partition? || step.FormatBoot? || step.LuksFormat? || step.FormatRoot? || step.MountTarget?
    {}

    method PerformPartition() returns (fault: Option<Fault>)
      requires ValidRecipe() && Sound() && Has() && Ready(Partition)
      modifies host`tick, host`writes, this`targetDisk, this`layout, this`rootDev, this`done, this`partitioning
      ensures old(host.tick) <= host.tick
      ensures Sound() && Trusted()
      ensures fault.Some? ==> !IsOrderFault(fault.value)
      ensures fault.None? ==> Worked(Partition, recipe, facts, host, old(host.tick), host.tick)
      ensures old(told) <= told
      ensures fault.None? && !emitFailed ==> Says(Partition, recipe, facts, Since(old(told), told))
      ensures fault.Some? ==> done == old(done)
      ensures fault.None? ==> Has() && done == old(done) + {Partition}
      ensures fault.None? ==> host.writes == old(host.writes) + partitioning && WholeDiskFirst()
      ensures Cooperative() ==> fault.None?
    {
      hide *;
      Silent(Partition);
      Parts();
      ReadyFor(Partition);
      ValidSettings();
      fault := RunPartition();
      Together();
      if fault.None? {
        HasBeenLaid();
        MarkPartition(old(host.writes));
      }
    }

    lemma HasBeenLaid()
      requires Cleared()
      ensures Accepted().Some? && (layout == LayoutFor(recipe, Accepted().value) ==> Laid())
    {}

    method PerformLuksFormat() returns (fault: Option<Fault>)
      requires ValidRecipe() && Sound() && Has() && Ready(LuksFormat) && Encrypted(recipe)
      modifies host`tick, host`writes, host`mapper, host`keys, host`denied, this`told, this`emitFailed
      modifies this`luksKey, this`rootDev, this`cleanup, this`closes, this`done
      ensures old(host.tick) <= host.tick
      ensures Sound() && Trusted()
      ensures fault.Some? ==> !IsOrderFault(fault.value)
      ensures fault.None? ==> Worked(LuksFormat, recipe, facts, host, old(host.tick), host.tick)
      ensures old(told) <= told
      ensures fault.None? && !emitFailed ==> Says(LuksFormat, recipe, facts, Since(old(told), told))
      ensures fault.Some? ==> done == old(done)
      ensures fault.None? ==> Has() && done == old(done) + {LuksFormat}
      ensures fault.None? ==> host.writes == old(host.writes) + WritesOf(LuksFormat)
      ensures host.denied == old(host.denied)
      ensures Cooperative() ==> fault.None?
    {
      hide *;
      Parts();
      ReadyFor(LuksFormat);
      NotThere();
      ValidSettings();
      fault := RunLuksFormat();
      Together();
      if fault.None? {
        MarkMapper();
      }
    }

    lemma NotThere()
      requires NothingYet()
      ensures LuksFormat !in done && MountTarget !in done && !closes && !unmounts && !tookDown
    {}

    method PerformMountTarget() returns (fault: Option<Fault>)
      requires ValidRecipe() && Sound() && Has() && Ready(MountTarget)
      modifies host`tick, host`mounts, host`released, host`denied, this`cleanup, this`unmounts, this`done
      ensures old(host.tick) <= host.tick
      ensures Sound() && Trusted()
      ensures fault.Some? ==> !IsOrderFault(fault.value)
      ensures fault.None? ==> Worked(MountTarget, recipe, facts, host, old(host.tick), host.tick)
      ensures old(told) <= told
      ensures fault.None? && !emitFailed ==> Says(MountTarget, recipe, facts, Since(old(told), told))
      ensures fault.Some? ==> done == old(done)
      ensures fault.None? ==> Has() && done == old(done) + {MountTarget}
      ensures fault.None? ==> host.writes == old(host.writes) + WritesOf(MountTarget)
      ensures
        || host.denied == old(host.denied)
        || (fault.Some? && (old(Going()) ==> Stands(cleanup) && Traced(|cleanup|, Some(MountTarget))))
      ensures Cooperative() ==> fault.None?
    {
      hide *;
      Silent(MountTarget);
      Parts();
      GoingMeans();
      ReadyFor(MountTarget);
      WritesNothing(MountTarget);
      fault := RunMountTarget();
      Together();
      if host.denied != old(host.denied) && old(Going()) {
        SticksStand(old(host.denied), TargetRollback, dir, MountTarget);
      }
      if fault.None? {
        MarkTree();
      }
    }

    lemma NoTreeYet()
      requires MountTarget !in done && !unmounts && !tookDown
      ensures HasTree()
    {
      hide TargetMounts;
    }

    method PerformFormat(step: StepName) returns (fault: Option<Fault>)
      requires ValidRecipe() && Sound() && Has() && Ready(step) && (step.FormatBoot? || step.FormatRoot?)
      modifies host`tick, host`writes, host`mounts, host`denied, this`done
      ensures old(host.tick) <= host.tick
      ensures Sound() && Trusted()
      ensures fault.Some? ==> !IsOrderFault(fault.value)
      ensures fault.None? ==> Worked(step, recipe, facts, host, old(host.tick), host.tick)
      ensures old(told) <= told && (fault.None? && !emitFailed ==> Says(step, recipe, facts, Since(old(told), told)))
      ensures fault.Some? ==> done == old(done)
      ensures fault.None? ==> Has() && done == old(done) + {step}
      ensures fault.None? ==> host.writes == old(host.writes) + WritesOf(step)
      ensures
        || host.denied == old(host.denied)
        || (fault.Some? && (old(Going()) ==> Stands(cleanup) && Traced(|cleanup|, Some(step))))
      ensures Cooperative() ==> fault.None?
    {
      hide *;
      Silent(step);
      Parts();
      GoingMeans();
      ReadyFor(step);
      ValidSettings();
      if step.FormatBoot? {
        fault := RunFormatBoot();
      } else {
        fault := RunFormatRoot();
      }
      Together();
      if host.denied != old(host.denied) && old(Going()) {
        SticksStand(old(host.denied), ScratchUnmount, scratch, FormatRoot);
      }
      if fault.None? {
        if step.FormatRoot? {
          NoTreeYet();
          AllTogether();
        }
        Pass(step);
      }
    }

    method PerformBootcInstall() returns (fault: Option<Fault>)
      requires ValidRecipe() && Sound() && Has() && Ready(BootcInstall)
      requires facts.ramOnly ==> PodmanStaysInside(facts)
      modifies host`tick, host`mounts, host`released, host`denied, host`override, host`deployed
      modifies this`told, this`emitFailed, this`secureRoot, this`installedRef, this`cleanup, this`done
      ensures old(host.tick) <= host.tick
      ensures Sound() && Trusted() && !tookDown && !thawsFailed
      ensures fault.Some? ==> !IsOrderFault(fault.value)
      ensures fault.None? ==> Worked(BootcInstall, recipe, facts, host, old(host.tick), host.tick)
      ensures old(told) <= told
      ensures fault.None? && !emitFailed ==> Says(BootcInstall, recipe, facts, Since(old(told), told))
      ensures fault.Some? ==> done == old(done)
      ensures fault.None? ==> Has() && done == old(done) + {BootcInstall}
      ensures fault.None? ==> host.writes == old(host.writes) + WritesOf(BootcInstall)
      ensures old(Going()) ==> Going()
      ensures Cooperative() ==> fault.None?
    {
      hide *;
      Parts();
      ReadyFor(BootcInstall);
      WritesNothing(BootcInstall);
      NotYetDeployed();
      ghost var stuck;
      fault, stuck := RunBootcInstall();
      Together();
      WarnedMeans(old(told), told);
      StillTrusted();
      if fault.None? {
        MarkInstalled();
      }
    }

    lemma NotYetDeployed()
      requires NotDeployed()
      ensures host.deployed == entryDeployed
    {}

    lemma StillTrusted()
      requires Deployment(entryDeployed) && Verified(bootcSourceRef) && !tookDown && (installedRef.None? || Given())
      ensures Trusted()
    {
      hide Verified, Given;
    }

    method PerformRetagRoot() returns (fault: Option<Fault>)
      requires ValidRecipe() && Sound() && Has() && Ready(RetagRoot)
      modifies host`tick, host`mounts, host`released, host`denied, host`mapper, host`writes
      modifies this`targetDisk, this`tookDown, this`done
      ensures old(host.tick) <= host.tick
      ensures Sound() && Trusted() && (tookDown ==> fault.Some?)
      ensures fault.Some? ==> !IsOrderFault(fault.value)
      ensures fault.None? ==> Worked(RetagRoot, recipe, facts, host, old(host.tick), host.tick)
      ensures old(told) <= told
      ensures fault.None? && !emitFailed ==> Says(RetagRoot, recipe, facts, Since(old(told), told))
      ensures fault.Some? ==> done == old(done)
      ensures fault.None? ==> Has() && done == old(done) + {RetagRoot}
      ensures fault.None? ==> host.writes == old(host.writes) + WritesOf(RetagRoot)
      ensures host.denied == old(host.denied)
      ensures Cooperative() && host.Retypes() && Free() ==> fault.None?
      ensures Cooperative() && host.NeverRetypes() ==> tookDown
    {
      hide *;
      Silent(RetagRoot);
      Parts();
      ReadyFor(RetagRoot);
      RetagReady();
      RetypesRoot();
      fault := RunRetagRoot();
      Together();
      TrustedOnceInstalled();
      if fault.None? {
        MarkRetagged();
      }
    }

    lemma RetagReady()
      requires Has() && Held() && Ready(RetagRoot)
      ensures host.Retypes() && Free() ==> Retypable()
    {
      hide Verified, Given, TargetMounts, Timed, Bookkept, Clean, Cooperative, AcceptedDisk, ImageAccepted, Shape;
    }

    lemma TrustedOnceInstalled()
      requires HasSource() && installedRef.Some?
      ensures Trusted()
    {
      hide Verified, Given;
    }

    predicate IsLateStep(step: StepName) {
      step.TpmEnroll? || step.EspStage? || step.Flatpaks? || step.Sysconfig? || step.Finalize? || step.MokStage?
    }

    lemma LateSteps(step: StepName)
      ensures IsLateStep(step) <==>
        step.TpmEnroll? || step.EspStage? || step.Flatpaks? || step.Sysconfig? || step.Finalize? || step.MokStage?
    {}

    method PerformLateStep(step: StepName) returns (fault: Option<Fault>)
      requires ValidRecipe() && Sound() && Has() && Ready(step) && IsLateStep(step)
      requires step.EspStage? || step.MokStage? ==> SecureBootc(recipe)
      modifies host`tick, host`writes, host`frozen, this`told, this`emitFailed
      modifies this`thawsFailed, this`thawAt, this`finalizedAt, this`done
      ensures old(host.tick) <= host.tick
      ensures Sound() && Trusted() && !tookDown && (thawsFailed ==> step.Finalize? && fault.Some?)
      ensures fault.Some? ==> !IsOrderFault(fault.value)
      ensures fault.None? ==> Worked(step, recipe, facts, host, old(host.tick), host.tick)
      ensures old(told) <= told && (fault.None? && !emitFailed ==> Says(step, recipe, facts, Since(old(told), told)))
      ensures fault.Some? ==> done == old(done)
      ensures fault.None? ==> Has() && done == old(done) + {step}
      ensures fault.None? ==> host.writes == old(host.writes) + WritesOf(step)
      ensures Cooperative() ==> fault.None?
    {
      hide *;
      Silent(step);
      LateSteps(step);
      Parts();
      ReadyFor(step);
      if step.TpmEnroll? {
        fault := RunTpmEnroll();
      } else {
        WritesNothing(step);
        if step.Flatpaks? {
          fault := RunFlatpaks();
        } else if step.Sysconfig? {
          fault := RunSysconfig();
        } else if step.Finalize? {
          fault := RunFinalize();
        } else {
          fault := RunFromSecureRoot(if step.EspStage? then 8 else 2);
          if fault.None? {
            StageWorked(step, recipe, facts, host, old(host.tick), host.tick);
          }
        }
      }
      Together();
      if fault.None? {
        if step.Finalize? {
          MarkFinalized();
        } else {
          Pass(step);
        }
      }
    }

    /** What a run promises. Unless a release of those that `Denial` lists failed, no mapper this
        run opened is open and the mount table is the entry's, or the entry's after a late undo;
        the override is always restored; the target is frozen only if both thaws failed; every
        write stayed on the disk that preflight-disk accepted, and without one there was none;
        and bootc was given only the recipe's selected source, which is as it was verified
        exactly when a native bootc's argument survives its stripping. */
    ghost predicate LeftClean()
      reads this`cleanup, this`tookDown, this`thawsFailed, this`thawAt, this`finalizedAt
      reads this`bootcSourceRef, this`installedRef, cosign, host`deployed
      reads host`tick, host`mounts, host`mapper, host`override, host`frozen, host`denied, host`writes
    {
      && Timed() && Stands([]) && (Going() ==> GivenBack() && !host.mapper.Opened?)
      && (Clean() ==> host.mounts == Left())
      && (Going() && tookDown && Encrypted(recipe) ==> NoneFrom(entry, Mapper))
      && host.override == entryOverride && host.frozen == thawsFailed
      && earlierWrites <= host.writes && AllOnTarget(recipe, Accepted(), host.writes[|earlierWrites|..])
      && (host.writes != earlierWrites ==> Cleared())
      && (installedRef.Some? ==> Verified(bootcSourceRef) && GivenAsVerified(recipe, facts, cosign, installedRef.value))
      && (tookDown ==> installedRef.Some?)
      && (host.deployed == entryDeployed || host.deployed == installedRef)
      && cleanup == []
    }

    lemma TrustedAsVerified()
      requires Trusted() && installedRef.Some?
      ensures Verified(bootcSourceRef) && GivenAsVerified(recipe, facts, cosign, installedRef.value)
    {
      hide SourceRef, Refs.Immutable, Refs.Given, Refs.Survives, Refs.RepositoryName;
      if recipe.image.cosignPubKey != "" {
        Refs.GivenAsVerifiedExactlyWhen(bootcSourceRef, facts.nativeBootc);
      }
    }

    lemma AllIsHeld()
      requires Held()
      ensures Has() && Clean() ==> AllHeld(|cleanup|)
    {
      hide OnlyStuck, AcceptedDisk, ImageAccepted;
      ShapeHolds(closes, unmounts, secureRoot);
      assert cleanup[..|cleanup|] == cleanup;
    }

    lemma CleanGivesBack()
      requires Timed()
      ensures earlierDenied <= host.denied
      ensures Clean() && (Going() ==> GivenBack()) ==> host.mounts == Left()
    {
      hide OnlyStuck, LateTable, ThawsFailedAt, FinalizedAt;
      if Clean() && GivenBack() {
        assert New() == [];
        NothingStuck(host.mounts, Left());
      }
    }

    /** What a run does once its steps are over. */
    method CleanUp(ghost failed: Option<StepName>) returns (faults: nat)
      requires Sound() && Trusted() && Stands(cleanup) && Traced(|cleanup|, failed)
      modifies host`tick, host`mounts, host`released, host`denied, host`mapper, this`secureRoot, this`cleanup
      ensures LeftClean() && Traced(0, failed) && tookDown == old(tookDown)
      ensures old(cleanup) == [] ==> unchanged(host)
      ensures host.tick == old(host.tick) + |old(cleanup)|
      ensures faults <= |old(cleanup)|
      ensures faults == 0 ==> AllWork(host.verdict, old(host.tick), host.tick) && host.denied == old(host.denied)
      ensures Cooperative() ==> Clean()
      ensures Cooperative() && old(Has()) ==> faults == 0
    {
      hide Stands, AcceptedDisk, ImageAccepted, AllOnTarget, OnlyStuck, Verified, GivenAsVerified, LateTable, Timed;
      hide Traced, AllWork;
      hide Kept, Bookkept, Going, Cooperative, Has, AllHeld, Left, GivenBack;
      KeptShape();
      StillCooperative();
      if installedRef.Some? {
        TrustedAsVerified();
      }
      AllIsHeld();
      faults := Unwind(failed);
      CleanGivesBack();
    }

    /** What these steps destroy, the partitioning aside, when they all succeed. */
    ghost function PlanOf(steps: seq<StepName>): seq<Write> {
      if steps == [] then [] else PlanOf(steps[..|steps| - 1]) + WritesOf(steps[|steps| - 1])
    }

    lemma {:induction false} NothingPlannedYet(steps: seq<StepName>)
      requires forall s <- steps :: Rank(s) <= Rank(Partition)
      ensures PlanOf(steps) == []
    {
      if steps != [] {
        NothingPlannedYet(steps[..|steps| - 1]);
        assert steps[|steps| - 1] in steps;
      }
    }

    /** Exactly the planned writes have been made, the whole disk's before all others. */
    ghost predicate Planned(steps: seq<StepName>)
      reads this`partitioning, host`writes
    {
      && host.writes == earlierWrites + partitioning + PlanOf(steps)
      && (if Partition in steps then WholeDiskFirst() else partitioning == [])
    }

    lemma PlanKnown(steps: seq<StepName>)
      requires Planned(steps)
      ensures host.writes == earlierWrites + partitioning + PlanOf(steps)
      ensures if Partition in steps then WholeDiskFirst() else partitioning == []
    {
      hide PlanOf, WholeDiskFirst;
    }

    lemma PartitionPlansNothing()
      ensures WritesOf(Partition) == []
    {}

    lemma PlanSnoc(steps: seq<StepName>, s: StepName)
      ensures PlanOf(steps + [s]) == PlanOf(steps) + WritesOf(s)
    {
      hide WritesOf;
      assert (steps + [s])[..|steps|] == steps;
    }

    /** One more step of the plan. */
    lemma PlanTurn(i: nat, was: seq<Write>, first: seq<Write>)
      requires i < |Assembled(recipe)|
      requires var prefix, step := Assembled(recipe)[..i], Assembled(recipe)[i];
        && was == earlierWrites + first + PlanOf(prefix)
        && (Partition !in prefix ==> first == [])
        && (!step.Partition? ==> host.writes == was + WritesOf(step) && partitioning == first)
        && (!step.Partition? && Partition in prefix ==> WholeDiskFirst())
        && (step.Partition? ==> host.writes == was + partitioning && WholeDiskFirst())
      ensures Planned(Assembled(recipe)[..i + 1])
    {
      hide WritesOf, Assembled, WholeDiskFirst, PlanOf;
      var steps := Assembled(recipe);
      var prefix, step := steps[..i], steps[i];
      assert steps[..i + 1] == prefix + [step];
      PlanSnoc(prefix, step);
      if step.Partition? {
        PartitionPlansNothing();
        OnlyOnce(recipe, i);
        EarlierRanks(i);
        NothingPlannedYet(prefix);
      }
    }

    lemma EarlierRanks(i: nat)
      requires i < |Assembled(recipe)|
      ensures forall s <- Assembled(recipe)[..i] :: Rank(s) <= Rank(Assembled(recipe)[i])
    {
      hide Assembled, Rank;
      AssembledExactly(recipe);
    }

    lemma NothingPassed(dry: bool)
      ensures Passed([], dry) == {}
    {}

    /** The steps among these that ran. */
    ghost function Passed(steps: seq<StepName>, dry: bool): set<StepName> {
      set s: StepName | s in steps && (dry ==> IsPreflight(s))
    }

    lemma ReadyAt(i: nat, dry: bool)
      requires ValidRecipe() && i < |Assembled(recipe)|
      requires done == Passed(Assembled(recipe)[..i], dry) && (dry ==> IsPreflight(Assembled(recipe)[i]))
      ensures Ready(Assembled(recipe)[i]) && Included(recipe, Assembled(recipe)[i])
      ensures done + {Assembled(recipe)[i]} == Passed(Assembled(recipe)[..i + 1], dry)
    {
      hide Assembled, ValidTarget;
      var steps := Assembled(recipe);
      AssembledExactly(recipe);
      var s := steps[i];
      assert s in steps;
      assert steps[..i + 1] == steps[..i] + [s];
      forall d | d in done ensures Rank(d) < Rank(s) {
        var k :| 0 <= k < i && steps[k] == d;
      }
      forall n | Needs(recipe, s, n) ensures n in done {
        NeedsComeFirst(recipe, i, n);
      }
    }

    lemma SkippedAt(i: nat)
      requires i < |Assembled(recipe)| && !IsPreflight(Assembled(recipe)[i])
      ensures Passed(Assembled(recipe)[..i + 1], true) == Passed(Assembled(recipe)[..i], true)
    {
      hide Assembled;
      var steps := Assembled(recipe);
      assert steps[..i + 1] == steps[..i] + [steps[i]];
    }

    lemma NothingPlanned()
      requires host.writes == earlierWrites && partitioning == []
      ensures Planned([])
    {
      NothingPlannedYet([]);
    }

    lemma Appointed()
      ensures forall s :: s in Assembled(recipe) <==> Included(recipe, s)
    {
      hide Assembled;
      AssembledExactly(recipe);
    }

    /** Pipeline.Run over the assembled steps, for a valid recipe and any failures; `failed` is
        the step that failed, if one did. No step fails for want of something an earlier one
        should have set, and only a failed retag-root leaves the tree down. */
    method Run(dry: bool) returns (fault: Option<Fault>, failed: Option<StepName>, faults: nat)
      requires ValidRecipe() && Sound() && Has() && Trusted() && Going() && done == {} && Clean() && cleanup == []
      requires host.writes == earlierWrites && partitioning == [] && at == [began] && host.tick == began
      requires told == [] && turns == []
      requires facts.ramOnly ==> PodmanStaysInside(facts)
      modifies this, host, cosign
      ensures LeftClean() && Traced(0, failed)
      ensures (tookDown ==> failed == Some(RetagRoot)) && (thawsFailed ==> failed == Some(Finalize))
      ensures failed.Some? ==> fault.Some? && Included(recipe, failed.value)
      ensures fault.Some? ==> !IsOrderFault(fault.value)
      ensures dry ==> unchanged(host)
      ensures fault.None? ==> done == Passed(Assembled(recipe), dry)
      ensures fault.None? && !dry ==> Planned(Assembled(recipe)) && installedRef.Some? && finalizedAt.Some?
      ensures fault.None? && !dry ==> host.deployed == installedRef
      ensures Reported(recipe, facts, dry, fault, failed, told, turns) && (fault.None? ==> !emitFailed)
      ensures |turns| <= |Assembled(recipe)|
      ensures !dry ==>
        && Timeline(Assembled(recipe)[..|turns|], recipe, facts, host, at, began)
        && at != [] && at[|at| - 1] <= host.tick
      ensures fault.None? && !dry ==>
        && host.tick == at[|at| - 1] + Undos(recipe)
        && (faults == 0 ==> AllWork(host.verdict, at[|at| - 1], host.tick))
      ensures fault.None? ==> Cleared()
      ensures Cooperative() ==> Clean() && (host.Retypes() && Free() ==> fault.None? && faults == 0)
      ensures Cooperative() && host.NeverRetypes() && Included(recipe, RetagRoot) && !dry ==> tookDown
    {
      hide *;
      OrderFaults();
      Parts();
      GoingStands(cleanup);
      GoingTraced(|cleanup|, None);
      TimelineStarts();
      SoFarStarts(recipe, facts, dry);
      assert Assembled(recipe)[..0] == [];
      var first := Emit(Started);
      assert first ==> told == [Started];
      Together();
      fault, failed := if first then None else Some(EmitRefused), None;
      if first {
        fault, failed := RunSteps(dry);
      }
      faults := CleanUp(failed);
    }

    /** runSteps: the assembled steps in turn, up to the first that fails. */
    method RunSteps(dry: bool) returns (fault: Option<Fault>, failed: Option<StepName>)
      requires ValidRecipe() && Sound() && Has() && Trusted() && Going() && done == {} && Clean() && cleanup == []
      requires host.writes == earlierWrites && partitioning == [] && at == [began] && host.tick == began
      requires told == [Started] && turns == [] && !emitFailed
      requires facts.ramOnly ==> PodmanStaysInside(facts)
      modifies this, host, cosign
      ensures Sound() && Trusted() && Stands(cleanup) && Traced(|cleanup|, failed) && (fault.None? ==> Has())
      ensures (tookDown ==> failed == Some(RetagRoot)) && (thawsFailed ==> failed == Some(Finalize))
      ensures failed.Some? <==> fault.Some?
      ensures failed.Some? ==> Included(recipe, failed.value)
      ensures fault.Some? ==> !IsOrderFault(fault.value)
      ensures dry ==> unchanged(host) && cleanup == []
      ensures fault.None? ==> done == Passed(Assembled(recipe), dry) && Cleared() && !emitFailed
      ensures fault.None? && !dry ==> Planned(Assembled(recipe)) && installedRef.Some? && finalizedAt.Some?
      ensures fault.None? && !dry ==> host.deployed == installedRef && |cleanup| == Undos(recipe)
      ensures Reported(recipe, facts, dry, fault, failed, told, turns) && |turns| <= |Assembled(recipe)|
      ensures !dry ==>
        && Timeline(Assembled(recipe)[..|turns|], recipe, facts, host, at, began)
        && at != [] && at[|at| - 1] <= host.tick && (fault.None? ==> at[|at| - 1] == host.tick)
      ensures Cooperative() && host.Retypes() && Free() ==> fault.None?
      ensures Cooperative() && host.NeverRetypes() && Included(recipe, RetagRoot) && !dry ==> tookDown
    {
      hide *;
      OrderFaults();
      NothingPlanned();
      NothingPassed(dry);
      Parts();
      GoingStands(cleanup);
      GoingTraced(|cleanup|, None);
      var steps := Assemble(recipe);
      assert steps[..0] == [];
      TimelineStarts();
      SoFarStarts(recipe, facts, dry);
      fault, failed := None, None;
      var i := 0;
      while i < |steps| && fault.None?
        invariant 0 <= i <= |steps| && Sound() && Trusted() && Stands(cleanup) && (fault.None? ==> Going())
        invariant Traced(|cleanup|, failed)
        invariant fault.None? ==> Has() && done == Passed(steps[..i], dry)
        invariant fault.Some? ==> !IsOrderFault(fault.value)
        invariant dry ==> unchanged(host) && cleanup == []
        invariant fault.None? && !dry ==> Planned(steps[..i])
        invariant |turns| <= |steps| && (fault.None? ==> |turns| == i && failed.None? && !emitFailed)
        invariant !dry ==> at != [] && at[|at| - 1] <= host.tick && (fault.None? ==> at[|at| - 1] == host.tick)
        invariant !dry ==> Timeline(steps[..|turns|], recipe, facts, host, at, began)
        invariant if fault.None? then SoFar(recipe, facts, dry, i, told, turns)
                  else Reported(recipe, facts, dry, fault, failed, told, turns)
        invariant (tookDown ==> failed == Some(RetagRoot)) && (thawsFailed ==> failed == Some(Finalize))
        invariant (failed.Some? <==> fault.Some?) && (failed.Some? ==> failed.value in steps)
        invariant Cooperative() && host.Retypes() && Free() ==> fault.None?
        invariant Cooperative() && host.NeverRetypes() && !dry ==> tookDown || (fault.None? && RetagRoot !in steps[..i])
      {
        assert steps[..i + 1] == steps[..i] + [steps[i]];
        ghost var past, said, spoken := at, told, turns;
        fault := Turn(steps[i], i, dry);
        if fault.None? && !dry {
          TimelineSnoc(steps[..i], steps[i], recipe, facts, host, past, began, host.tick);
        }
        if fault.Some? {
          failed := Some(steps[i]);
          FarReported(recipe, facts, dry, i, said, told, turns, fault);
        } else {
          SoFarOn(recipe, facts, dry, i, said, spoken, turns[|turns| - 1]);
          GoingTraced(|cleanup|, failed);
        }
        i := i + 1;
      }
      assert steps[..|steps|] == steps;
      Appointed();
      if fault.None? && !dry {
        InstalledWhenDone();
        UndosWhenDone();
      }
      if fault.None? {
        CheckedWhenDone(dry);
        FarReported(recipe, facts, dry, |steps|, told, told, turns, None);
      }
    }

    lemma TimelineStarts()
      requires at == [began]
      ensures Timeline([], recipe, facts, host, at, began)
    {}

    lemma CheckedWhenDone(dry: bool)
      requires ValidRecipe() && Has() && done == Passed(Assembled(recipe), dry)
      ensures Cleared()
    {
      hide Assembled, HasSource, HasLayout, HasKey, HasMapper, HasTree, AcceptedDisk, ImageAccepted;
      AssembledExactly(recipe);
      var steps := Assembled(recipe);
      assert PreflightUefi in steps && PreflightTools in steps && PreflightDisk in steps;
      assert Included(recipe, PreflightImage) && PreflightImage in steps;
    }

    lemma UndosWhenDone()
      requires ValidRecipe() && Sound() && Has() && done == Passed(Assembled(recipe), false)
      ensures |cleanup| == Undos(recipe)
    {
      hide Assembled, HasChecks, HasLayout, HasMapper, HasFinal, Verified, Given, Timed, Cooperative, Bookkept, Going;
      AssembledExactly(recipe);
      assert Included(recipe, MountTarget) && MountTarget in Assembled(recipe);
      assert Included(recipe, BootcInstall) && BootcInstall in Assembled(recipe);
      assert LuksFormat in done <==> Encrypted(recipe);
    }

    lemma InstalledWhenDone()
      requires ValidRecipe() && Has() && done == Passed(Assembled(recipe), false)
      ensures installedRef.Some? && host.deployed == installedRef && finalizedAt.Some?
    {
      hide Assembled, HasDisk, Verified, Given;
      AssembledExactly(recipe);
      assert Included(recipe, BootcInstall) && BootcInstall in Assembled(recipe);
      assert Included(recipe, Finalize) && Finalize in Assembled(recipe);
    }

    lemma SkipsIn(before: seq<Note>, step: StepName, dry: bool)
      requires dry && !IsPreflight(step)
      ensures SaysIn(step, recipe, facts, dry, [Skipped(step)])
      ensures Since(before, before + [Skipped(step)]) == [Skipped(step)]
    {}

    lemma SaysInTurn(before: seq<Note>, step: StepName, dry: bool)
      requires before <= told && Says(step, recipe, facts, Since(before, told)) && (dry ==> IsPreflight(step))
      ensures SaysIn(step, recipe, facts, dry, Since(before, told)) && told == before + Since(before, told)
    {
      hide Says;
    }

    /** The step's own turn: what it does, and the check for an event that was refused meanwhile. */
    method Attempt(step: StepName, ghost i: nat, dry: bool) returns (fault: Option<Fault>)
      requires i < |Assembled(recipe)| && step == Assembled(recipe)[i] && (dry ==> IsPreflight(step))
      requires ValidRecipe() && Sound() && Has() && Trusted() && Going() && done == Passed(Assembled(recipe)[..i], dry)
      requires facts.ramOnly ==> PodmanStaysInside(facts)
      modifies this, host, cosign
      ensures old(host.tick) <= host.tick
      ensures Sound() && Trusted() && Stands(cleanup) && Traced(|cleanup|, Some(step)) && (fault.None? ==> Going())
      ensures fault.None? ==> Has() && done == Passed(Assembled(recipe)[..i + 1], dry)
      ensures fault.Some? ==> !IsOrderFault(fault.value)
      ensures dry ==> unchanged(host) && cleanup == old(cleanup)
      ensures fault.Some? ==> at == old(at) && turns == old(turns)
      ensures fault.None? && !dry ==>
        at == old(at) + [host.tick] && Worked(step, recipe, facts, host, old(host.tick), host.tick)
      ensures fault.None? ==> !emitFailed && SaysIn(step, recipe, facts, dry, Since(old(told), told))
      ensures fault.None? ==>
        turns == old(turns) + [Since(old(told), told)] && told == old(told) + Since(old(told), told)
      ensures old(told) <= told
      ensures old(Planned(Assembled(recipe)[..i])) && fault.None? && !dry ==> Planned(Assembled(recipe)[..i + 1])
      ensures (tookDown ==> step.RetagRoot? && fault.Some?) && (thawsFailed ==> step.Finalize? && fault.Some?)
      ensures Cooperative() && (step.RetagRoot? ==> host.Retypes() && Free()) ==> fault.None?
      ensures Cooperative() && step.RetagRoot? && host.NeverRetypes() && !dry ==> tookDown
    {
      hide *;
      OrderFaults();
      ReadyAt(i, dry);
      ghost var was, first := host.writes, partitioning;
      if Planned(Assembled(recipe)[..i]) {
        PlanKnown(Assembled(recipe)[..i]);
      }
      fault := Perform(step);
      Apart();
      if old(Planned(Assembled(recipe)[..i])) && fault.None? {
        PlanTurn(i, was, first);
      }
      StillCooperative();
      if fault.None? && emitFailed {
        fault := Some(EmitRefused);
      }
      if fault.None? {
        at, turns := old(at) + [host.tick], old(turns) + [Since(old(told), told)];
        SaysInTurn(old(told), step, dry);
      }
    }

    /** One turn of runSteps' loop. */
    method Turn(step: StepName, ghost i: nat, dry: bool) returns (fault: Option<Fault>)
      requires i < |Assembled(recipe)| && step == Assembled(recipe)[i]
      requires ValidRecipe() && Sound() && Has() && Trusted() && Going() && done == Passed(Assembled(recipe)[..i], dry)
      requires facts.ramOnly ==> PodmanStaysInside(facts)
      modifies this, host, cosign
      ensures old(host.tick) <= host.tick
      ensures Sound() && Trusted() && Stands(cleanup) && Traced(|cleanup|, Some(step)) && (fault.None? ==> Going())
      ensures fault.None? ==> Has() && done == Passed(Assembled(recipe)[..i + 1], dry)
      ensures fault.Some? ==> !IsOrderFault(fault.value)
      ensures dry ==> unchanged(host) && cleanup == old(cleanup)
      ensures fault.Some? ==> at == old(at) && turns == old(turns)
      ensures fault.None? && !dry ==>
        at == old(at) + [host.tick] && Worked(step, recipe, facts, host, old(host.tick), host.tick)
      ensures fault.None? ==> !emitFailed
      ensures fault.None? ==>
        var notes := Since(old(told) + [Begun(step)], told);
        && SaysIn(step, recipe, facts, dry, notes) && turns == old(turns) + [notes]
        && told == old(told) + [Begun(step)] + notes
      ensures told == old(told) || old(told) + [Begun(step)] <= told
      ensures old(Planned(Assembled(recipe)[..i])) && fault.None? && !dry ==> Planned(Assembled(recipe)[..i + 1])
      ensures (tookDown ==> step.RetagRoot? && fault.Some?) && (thawsFailed ==> step.Finalize? && fault.Some?)
      ensures Cooperative() && (step.RetagRoot? ==> host.Retypes() && Free()) ==> fault.None?
      ensures Cooperative() && step.RetagRoot? && host.NeverRetypes() && !dry ==> tookDown
    {
      hide *;
      OrderFaults();
      Parts();
      StillCooperative();
      NotTaken();
      GoingStands(cleanup);
      GoingTraced(|cleanup|, Some(step));
      var begun := Emit(Begun(step));
      Together();
      if !begun {
        return Some(EmitRefused);
      }
      if dry && !IsPreflight(step) {
        ghost var heard := told;
        var skipped := Emit(Skipped(step));
        Together();
        SkippedAt(i);
        SkipsIn(heard, step, dry);
        if skipped {
          turns := old(turns) + [[Skipped(step)]];
        }
        return if skipped then None else Some(EmitRefused);
      }
      fault := Attempt(step, i, dry);
    }
  }

  lemma OrderFaults()
    ensures forall f: Fault :: IsOrderFault(f) <==>
      || f.ZfsRoot? || f.UnsupportedFilesystem? || f.NoPassphraseSource? || f.SourceMissing?
      || f.SecureRootMissing? || f.NoPartNum?
  {}

  lemma ShapeHolds(closes: bool, unmounts: bool, removes: bool)
    ensures closes <==> CloseMapper in Shape(closes, unmounts, removes)
    ensures unmounts <==> UnmountTarget in Shape(closes, unmounts, removes)
  {}

  lemma ShapeMounts(closes: bool)
    ensures Shape(closes, true, false) == Shape(closes, false, false) + [UnmountTarget]
  {}

  lemma LoggedIs(failed: bool, whose: Option<Release>, at: nat)
    ensures Logged(failed, whose, at) == if failed && whose.Some? then [Denied(whose.value, at)] else []
  {}

  lemma ShapeGrows(closes: bool, unmounts: bool)
    ensures Shape(closes, unmounts, true) == Shape(closes, unmounts, false) + [RemoveSecureRoot]
  {}

  lemma PodmanIsExcused(f: Facts, base: Path)
    requires PodmanStaysInside(f)
    ensures Excused(f.podmanMounts, [], [base] + f.ramPaths) && NoneFrom(f.podmanMounts, Mapper)
  {
    var paths := [base] + f.ramPaths;
    forall m | m in f.podmanMounts ensures BelowWaiting(m, paths) {
      var p :| p in f.ramPaths && StrictlyUnder(p, m.target);
      var k :| 0 <= k < |f.ramPaths| && f.ramPaths[k] == p;
      assert paths[k + 1] == p;
    }
  }

  lemma NoneYet(verdict: nat -> bool, tick: nat, paths: seq<Path>)
    ensures forall upTo: nat, ps: seq<Path> :: AllBothWays([], verdict, tick, upTo, ps)
  {}

  lemma SinceEarlier(ds: seq<Denial>,
                     verdict: nat -> bool, from: nat, earlier: nat, upTo: nat, paths: seq<Path>, more: seq<Path>)
    requires AllBothWays(ds, verdict, from, upTo, paths) && earlier <= from && forall p | p in paths :: p in more
    ensures AllBothWays(ds, verdict, earlier, upTo, more)
  {
    forall k | 0 <= k < |ds| ensures BothWays(ds[k], verdict, earlier, upTo, more) {
      assert BothWays(ds[k], verdict, from, upTo, paths);
    }
  }

  lemma PileIsOn(ms: seq<Mount>, below: seq<Mount>, pile: seq<Mount>, paths: seq<Path>)
    requires Piled(ms, below, pile, paths)
    ensures ms == below + pile
  {}

  lemma PileOfOne(below: seq<Mount>, m: Mount)
    ensures Piled(below + [m], below, (below + [m])[|below|..], [m.target])
  {}

  lemma NothingIsExcused(paths: seq<Path>)
    ensures Excused([], [], paths)
  {}

  lemma NothingLeftOver(ms: seq<Mount>)
    ensures OnlyStuck(ms, ms, [])
  {}
}

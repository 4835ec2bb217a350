/** Which steps a recipe gets, and in what order (internal/steps/assemble.go and
    preflight.go). */
module Assembly {
  import opened Rec = Recipe

  datatype StepName =
    | PreflightUefi | PreflightTools | PreflightImage | PreflightDisk
    | Partition | FormatBoot | LuksFormat | FormatRoot | MountTarget | BootcInstall
    | TpmEnroll | EspStage | RetagRoot | Flatpaks | Sysconfig | Finalize | MokStage

  predicate Encrypted(r: Recipe) {
    !r.security.encryption.Unencrypted?
  }

  predicate EnrollsTpm(r: Recipe) {
    r.security.encryption.Tpm2Luks? || r.security.encryption.Tpm2LuksPassphrase?
  }

  predicate SecureBootc(r: Recipe) {
    r.image.family.Bootc? && r.security.mok.Enroll?
  }

  predicate IsPreflight(s: StepName) {
    s.PreflightUefi? || s.PreflightTools? || s.PreflightImage? || s.PreflightDisk?
  }

  function If(c: bool, s: StepName): seq<StepName> {
    if c then [s] else []
  }

  function PreflightSteps(r: Recipe): seq<StepName> {
    [PreflightUefi, PreflightTools] + If(r.image.family.Bootc?, PreflightImage) + [PreflightDisk]
  }

  function DiskSteps(r: Recipe): seq<StepName> {
    [Partition, FormatBoot] + If(Encrypted(r), LuksFormat) + [FormatRoot, MountTarget, BootcInstall]
  }

  function BootSteps(r: Recipe): seq<StepName> {
    If(EnrollsTpm(r), TpmEnroll) + If(SecureBootc(r), EspStage) + If(!r.target.bootloader.Grub2?, RetagRoot)
  }

  function LastSteps(r: Recipe): seq<StepName> {
    [Flatpaks, Sysconfig, Finalize] + If(SecureBootc(r), MokStage)
  }

  function Assembled(r: Recipe): seq<StepName> {
    PreflightSteps(r) + DiskSteps(r) + BootSteps(r) + LastSteps(r)
  }

  /** Assemble and bootcSteps grow the list append by append. */
  method Assemble(r: Recipe) returns (steps: seq<StepName>)
    ensures steps == Assembled(r)
  {
    steps := [PreflightUefi, PreflightTools];
    if r.image.family.Bootc? {
      steps := steps + [PreflightImage];
    }
    steps := steps + [PreflightDisk];
    var work := [Partition, FormatBoot];
    if Encrypted(r) {
      work := work + [LuksFormat];
    }
    work := work + [FormatRoot, MountTarget, BootcInstall];
    var boot := BootStepsOf(r);
    var last := [Flatpaks, Sysconfig, Finalize];
    if SecureBootc(r) {
      last := last + [MokStage];
    }
    steps := steps + work + boot + last;
  }

  method BootStepsOf(r: Recipe) returns (steps: seq<StepName>)
    ensures steps == BootSteps(r)
  {
    steps := [];
    if EnrollsTpm(r) {
      steps := steps + [TpmEnroll];
    }
    if SecureBootc(r) {
      steps := steps + [EspStage];
    }
    if !r.target.bootloader.Grub2? {
      steps := steps + [RetagRoot];
    }
  }

  // ---------- what each step relies on ----------

  predicate Included(r: Recipe, s: StepName) {
    match s
    case PreflightImage => r.image.family.Bootc?
    case LuksFormat => Encrypted(r)
    case TpmEnroll => EnrollsTpm(r)
    case EspStage => SecureBootc(r)
    case RetagRoot => !r.target.bootloader.Grub2?
    case MokStage => SecureBootc(r)
    case _ => true
  }

  /** Step `s` relies on `n`: on the disk, the layout, the root device, the image source, the
      secure image root or the mounted target it leaves; or must only come after it. */
  predicate Needs(r: Recipe, s: StepName, n: StepName) {
    match s
    case Partition => IsPreflight(n)
    case FormatBoot => n.PreflightDisk? || n.Partition?
    case LuksFormat => n.PreflightDisk? || n.Partition?
    case FormatRoot => n.PreflightDisk? || n.Partition? || (n.LuksFormat? && Encrypted(r))
    case MountTarget => n.PreflightDisk? || n.Partition? || n.FormatRoot? || (n.LuksFormat? && Encrypted(r))
    case BootcInstall => n.PreflightImage? || n.MountTarget?
    case TpmEnroll => n.PreflightDisk? || n.Partition? || n.LuksFormat? || n.BootcInstall?
    case EspStage => n.MountTarget? || n.BootcInstall?
    case RetagRoot =>
      || n.PreflightDisk? || n.Partition? || n.MountTarget? || n.BootcInstall?
      || (n.LuksFormat? && Encrypted(r)) || (n.TpmEnroll? && EnrollsTpm(r)) || (n.EspStage? && SecureBootc(r))
    case Flatpaks => n.MountTarget? || n.BootcInstall?
    case Sysconfig => n.MountTarget? || n.BootcInstall?
    case Finalize => n.MountTarget? || n.BootcInstall? || n.Sysconfig?
    case MokStage => n.BootcInstall?
    case _ => false
  }

  function Rank(s: StepName): (n: nat)
    ensures n < 17
  {
    match s
    case PreflightUefi => 0
    case PreflightTools => 1
    case PreflightImage => 2
    case PreflightDisk => 3
    case Partition => 4
    case FormatBoot => 5
    case LuksFormat => 6
    case FormatRoot => 7
    case MountTarget => 8
    case BootcInstall => 9
    case TpmEnroll => 10
    case EspStage => 11
    case RetagRoot => 12
    case Flatpaks => 13
    case Sysconfig => 14
    case Finalize => 15
    case MokStage => 16
  }

  /** The ranks rise strictly. */
  predicate Rising(steps: seq<StepName>) {
    forall i, j | 0 <= i < j < |steps| :: Rank(steps[i]) < Rank(steps[j])
  }

  /** `steps` holds, in rank order, exactly the included steps with ranks from `lo` to below `hi`. */
  ghost predicate Exactly(r: Recipe, steps: seq<StepName>, lo: nat, hi: nat) {
    Rising(steps) && forall s :: s in steps <==> Included(r, s) && lo <= Rank(s) < hi
  }

  lemma ExactlyAppend(r: Recipe, a: seq<StepName>, b: seq<StepName>, lo: nat, mid: nat, hi: nat)
    requires lo <= mid <= hi && Exactly(r, a, lo, mid) && Exactly(r, b, mid, hi)
    ensures Exactly(r, a + b, lo, hi)
  {
    hide Rank, Included;
    forall i, j | 0 <= i < j < |a + b| ensures Rank((a + b)[i]) < Rank((a + b)[j]) {
      var x, y := (a + b)[i], (a + b)[j];
      assert i < |a| ==> x in a;
      assert j >= |a| ==> y in b;
    }
  }

  lemma ExactlyOne(r: Recipe, s: StepName)
    ensures Exactly(r, If(Included(r, s), s), Rank(s), Rank(s) + 1)
  {}

  /** Starting from the steps below s's rank, appending s if it is included. */
  lemma ExactlyNext(r: Recipe, steps: seq<StepName>, lo: nat, s: StepName)
    requires lo <= Rank(s) && Exactly(r, steps, lo, Rank(s))
    ensures Exactly(r, steps + If(Included(r, s), s), lo, Rank(s) + 1)
  {
    hide Exactly, Rank, Included;
    ExactlyOne(r, s);
    ExactlyAppend(r, steps, If(Included(r, s), s), lo, Rank(s), Rank(s) + 1);
  }

  lemma ExactlyNone(r: Recipe, lo: nat)
    ensures Exactly(r, [], lo, lo)
  {}

  lemma PreflightExactly(r: Recipe)
    ensures Exactly(r, PreflightSteps(r), 0, 4)
  {
    hide Exactly;
    var image := If(r.image.family.Bootc?, PreflightImage);
    ExactlyNone(r, 0);
    ExactlyNext(r, [], 0, PreflightUefi);
    assert [] + [PreflightUefi] == [PreflightUefi];
    ExactlyNext(r, [PreflightUefi], 0, PreflightTools);
    assert [PreflightUefi] + [PreflightTools] == [PreflightUefi, PreflightTools];
    ExactlyNext(r, [PreflightUefi, PreflightTools], 0, PreflightImage);
    ExactlyNext(r, [PreflightUefi, PreflightTools] + image, 0, PreflightDisk);
  }

  lemma DiskExactly(r: Recipe)
    ensures Exactly(r, DiskSteps(r), 4, 10)
  {
    hide Exactly;
    var first := [Partition, FormatBoot] + If(Encrypted(r), LuksFormat);
    ExactlyNone(r, 4);
    ExactlyNext(r, [], 4, Partition);
    assert [] + [Partition] == [Partition];
    ExactlyNext(r, [Partition], 4, FormatBoot);
    assert [Partition] + [FormatBoot] == [Partition, FormatBoot];
    ExactlyNext(r, [Partition, FormatBoot], 4, LuksFormat);
    ExactlyNext(r, first, 4, FormatRoot);
    ExactlyNext(r, first + [FormatRoot], 4, MountTarget);
    ExactlyNext(r, first + [FormatRoot] + [MountTarget], 4, BootcInstall);
    assert first + [FormatRoot] + [MountTarget] + [BootcInstall] == first + [FormatRoot, MountTarget, BootcInstall];
  }

  lemma BootExactly(r: Recipe)
    ensures Exactly(r, BootSteps(r), 10, 13)
  {
    hide Exactly;
    var tpm := If(EnrollsTpm(r), TpmEnroll);
    ExactlyNone(r, 10);
    ExactlyNext(r, [], 10, TpmEnroll);
    assert [] + tpm == tpm;
    ExactlyNext(r, tpm, 10, EspStage);
    ExactlyNext(r, tpm + If(SecureBootc(r), EspStage), 10, RetagRoot);
  }

  lemma LastExactly(r: Recipe)
    ensures Exactly(r, LastSteps(r), 13, 17)
  {
    hide Exactly;
    ExactlyNone(r, 13);
    ExactlyNext(r, [], 13, Flatpaks);
    assert [] + [Flatpaks] == [Flatpaks];
    ExactlyNext(r, [Flatpaks], 13, Sysconfig);
    assert [Flatpaks] + [Sysconfig] == [Flatpaks, Sysconfig];
    ExactlyNext(r, [Flatpaks, Sysconfig], 13, Finalize);
    assert [Flatpaks, Sysconfig] + [Finalize] == [Flatpaks, Sysconfig, Finalize];
    ExactlyNext(r, [Flatpaks, Sysconfig, Finalize], 13, MokStage);
  }

  /** The assembled list holds exactly the included steps, each once, in rank order. */
  lemma AssembledExactly(r: Recipe)
    ensures Exactly(r, Assembled(r), 0, 17)
  {
    hide Exactly, PreflightSteps, DiskSteps, BootSteps, LastSteps;
    PreflightExactly(r);
    DiskExactly(r);
    BootExactly(r);
    LastExactly(r);
    ExactlyAppend(r, PreflightSteps(r), DiskSteps(r), 0, 4, 10);
    ExactlyAppend(r, PreflightSteps(r) + DiskSteps(r), BootSteps(r), 0, 10, 13);
    ExactlyAppend(r, PreflightSteps(r) + DiskSteps(r) + BootSteps(r), LastSteps(r), 0, 13, 17);
  }

  /** Which recipes get the steps that not all get. */
  lemma WhoGetsWhat(r: Recipe)
    ensures PreflightImage in Assembled(r) <==> r.image.family.Bootc?
    ensures LuksFormat in Assembled(r) <==> !r.security.encryption.Unencrypted?
    ensures TpmEnroll in Assembled(r) <==>
      r.security.encryption.Tpm2Luks? || r.security.encryption.Tpm2LuksPassphrase?
    ensures EspStage in Assembled(r) <==> r.image.family.Bootc? && r.security.mok.Enroll?
    ensures MokStage in Assembled(r) <==> r.image.family.Bootc? && r.security.mok.Enroll?
    ensures RetagRoot in Assembled(r) <==> !r.target.bootloader.Grub2?
  {
    hide Assembled;
    AssembledExactly(r);
  }

  /** For every recipe of the bootc family each assembled step comes once, after every step
      it relies on; the TPM and ESP steps come before the retag. */
  lemma NeedsComeFirst(r: Recipe, i: nat, n: StepName)
    requires r.image.family.Bootc? && i < |Assembled(r)| && Needs(r, Assembled(r)[i], n)
    ensures n in Assembled(r)[..i]
    ensures Assembled(r)[i] !in Assembled(r)[..i]
  {
    hide Assembled;
    AssembledExactly(r);
    var steps := Assembled(r);
    var s := steps[i];
    assert s in steps && Included(r, s);
    NeedsAreIncluded(r, s, n);
    var k :| 0 <= k < |steps| && steps[k] == n;
    assert k < i;
    assert steps[..i][k] == n;
  }

  lemma NeedsAreIncluded(r: Recipe, s: StepName, n: StepName)
    requires r.image.family.Bootc? && Included(r, s) && Needs(r, s, n)
    ensures Included(r, n) && Rank(n) < Rank(s)
  {}

  lemma OnlyOnce(r: Recipe, i: nat)
    requires i < |Assembled(r)|
    ensures Assembled(r)[i] !in Assembled(r)[..i]
  {
    hide Assembled, Rank;
    AssembledExactly(r);
  }
}

# Firn, modelled and proved

Firn installs a bootc image onto a disk. A recipe is validated, assembled into a list of
steps, and run by an engine that reports progress, unwinds a cleanup stack on every exit and
allows one install per machine. Two frontends, one in the terminal and one graphical, watch
the progress stream. This project models that behaviour in Dafny and proves what it is for:
that an install leaves nothing behind whatever fails, that it destroys only the disk it
accepted, and that what is shown and installed is what happened and what was verified.

`dafny verify dfyconfig.toml` checks everything. Code that changes state step by step is
modelled as classes and methods with loops; each such method is proved to do what a function
on values says, and the results about whole runs and interleavings are proved of those
functions.

| files | subject |
|---|---|
| `Text`, `Progress`, `Faults` | strings with Go's meaning, the event model, error trees |
| `Engine`, `EngineProofs`, `EngineTheorems`, `Pipeline` | the step engine: as functions, what every run of it does, and the imperative engine itself |
| `InstallLock` | any number of runs interleaved on one lock |
| `Recipe`, `Formats`, `Assembly` | validation; which steps a recipe gets and in what order |
| `Mounts`, `Host`, `Binds`, `Steps`, `WholeInstall`, `LostMount` | the host (mount table, LUKS mapper, freeze, environment override), every install step on it, and whole runs with every command free to fail |
| `DiskTree`, `PartitionNames` | which disk may be installed to, and partition names |
| `ImageRefs`, `ImageSelection` | image references, and which image is inspected, verified and installed |
| `Channel`, `Ndjson` | the two progress emitters; pipeline, view and drain interleaved |
| `InstallView`, `GuiInstall`, `Reducers` | the frontends' views of one event stream, and their comparison |
| `GuiApp`, `GuiRuns` | the graphical installer's main-thread state and everything that can interleave with it |
| `Sha512Crypt`, `Keyboard`, `Names` | password hashing, the keyboard file, suggested names |

## Main results

- **Whole installs** (`WholeInstall.Install`, `Steps.Env.Run`). For every recipe validation
  accepts, whatever was mounted before and whichever commands and emissions fail: success means
  that every step of the list made all its commands, one step after the other, that each of them
  worked (but for a first partitioning that a forced one made good, and the teardown of a redirect
  off a RAM-backed root), that the image bootc was given is on the target, and that everything the
  steps tell was accepted; a failure names the first step that is not done, and those before it did the same. A
  generated recovery key is told before anything is encrypted with it. The environment override is
  what it was; and when no release was denied, no LUKS mapper the run opened is open and the mount
  table is what it was. When nothing but a redirect's binds stuck,
  above that table lies only what is at or below a stuck bind. `Host.Release` lists the releases
  that can be denied, and a denial costs a failed command: a bind's needs the plain unmount and
  then the lazy one to fail, and only on a host that runs in RAM; the subvolume scratch unmount
  and mount-target's own rollback, that their step fails; the undos of the target and of the
  mapper are the run's last commands (and the mapper's can also be refused because something
  denied earlier still uses it). What a denied release was for is still there, above the mounts
  there were before (a bind may have gone with the tree it lies in). The one other exception is
  a retag-root that failed between its unmount and its remount on a machine with something
  mounted at the target before. The target is left frozen only by a finalize that failed, with
  the thaw and the recovery thaw right after the freeze failing, and a run that succeeds has
  made finalize's four commands. Nothing is written before the machine, disk and image checks have
  passed, and every write reaches the disk `preflight-disk` accepted - what
  goes through the mapper, by the partition below it - and the retype addresses exactly the root
  partition. No step ever fails for want of something an earlier one should have set. bootc is
  given the recipe's selected source and nothing else; for a signed recipe that is the reference
  of cosign's last, successful call, and bootc gets it as it was verified exactly when it is
  wrapped in podman or the repository name survives the stripping of a native bootc's argument.
  When nothing fails the run completes, its cleanup reports no error, and its writes are the
  planned ones in order.
- **The engine** (`EngineTheorems`). The accepted stream of every run is a prefix of one shape;
  after the first refused event the emitter is not used again; a step's error ends the run, and
  `Run` returns nil exactly when every step ran without one, no undo failed and Done was accepted;
  the returned error holds every error there was and its message shows each; undos run once each,
  in reverse, before the lock is dropped. In every interleaving of any number of runs at most one
  is inside, a free lock is taken, and no run ever waits for another (`InstallLock`).
- **The consumers.** What leaves the channel is what was accepted, in order, and every schedule
  of pipeline, view and drain ends (`Channel`); the terminal view reads once at a time, holds up
  exactly while a recovery key waits and reports what ended the stream (`InstallView`); the two
  frontends show the same fraction, which is the weighted one and never moves back (`Reducers`);
  the graphical installer runs one pipeline at a time, keeps a choice of disk exactly while a scan
  finds it usable, and a recovery key until it is taken, and signals can always end it (`GuiRuns`).
- **Properties that are false of the code**, each with the exact condition under which they hold
  and an input on which they fail. Unless a release is denied, every run gives the mount table
  back exactly when the table is not at risk (`WholeInstall.AtRisk`): for a grub2 recipe, when
  nothing was mounted at the target, when an encrypted recipe finds a mapper in use, or when a
  signed recipe's own digest is malformed. `WholeInstall.Install` has one half; for every other
  valid recipe and table `WholeInstall.EarlierMountIsLost` has the run that loses the mount, and
  `LostMount.EarlierTargetIsLost` is one, from a recipe to the table it leaves. A verified
  reference whose repository name looks like a transport is not what a native bootc is given
  (`ImageRefs.GivenAsVerifiedExactlyWhen`, `ImageRefs.ShortNameIsNotInstalledAsVerified`), and a
  tagged name that looks like one selects another repository
  (`ImageRefs.OwnRepositoryExactlyWhen`, `ImageSelection.ShortTaggedNameIsAnotherImage`). The
  terminal view does not clamp negative byte counts (`Reducers.AgreeExactlyWhen`,
  `Reducers.NegativeBytesDisagree`). A keyboard spec whose printed line exceeds the scanner's
  buffer does not read back (`Keyboard.RoundTripExactlyWhen`, `Keyboard.LongLayoutIsLost`). An
  NDJSON write that fails half-way leaves a partial line, which the next line is glued to
  (`Ndjson.GluedExactlyWhen`, `Ndjson.HalfLineIsGlued`).

## Model

| member | source | states |
|---|---|---|
| WholeInstall.Install | internal/steps/bootc.go:69-188 | from a loaded recipe to the end of its run, whatever commands and emissions fail and whatever was mounted: an invalid recipe touches nothing; otherwise success means that every step of the assembled list made all its commands, one step after the other, and each of them worked but for those of the partitioning that have a remedy and of a RAM redirect's teardown, that bootc was among them and the image it was given is on the target, and that everything was told and accepted; a failure names the first step that is not done, and those before it did the same; the override is given back; each denied release has its failed command - a bind's both unmounts, a step's own in the step that failed, an undo's at the run's end - and its object above the earlier mounts; with nothing but binds stuck no mapper is open and above the earlier table is only what lies at or below them, unless retag-root failed half-way over an earlier mount; frozen only by a finalize whose two thaws failed; no write before the machine, disk and image checks passed, all writes on the accepted disk; bootc gets the selected source, as verified exactly when it survives the stripping; a dry run changes nothing; and an obliging host makes the run succeed |
| WholeInstall.EarlierMountIsLost | internal/steps/bootc.go:481-519 | for every valid recipe and every table at risk - a retag-root, a mount at the target, for an encrypted recipe no mapper in use, and for a signed one no malformed digest of its own - the run in which only the retype fails takes that mount away, without any release being denied |
| WholeInstall.FactsHelp | internal/steps/preflight.go:25-124 | every recipe that is not refused for its image has a machine on which nothing is refused |
| LostMount.EarlierTargetIsLost | internal/steps/bootc.go:481-519 | one such install: a valid recipe, an accepted disk, a target mount left by an earlier run, and an empty table afterwards with no release denied |
| Steps.Env.Run | internal/pipeline/pipeline.go:257-331 | the assembled steps under every command and emitter failure: how far the run got, what each step told and that each finished step made all its commands and they worked; success only when every event was accepted, with the image deployed and every undo run; nothing held is left but what a denied release, with its failed command, was for; the freeze is finalize's and has its three commands; the write guarantees, no ordering fault, exactly the planned writes and finalize's four commands on success, and success with an error-free cleanup when nothing fails |
| Steps.Env.Turn | internal/pipeline/pipeline.go:304-331 | one turn of the loop: its step_start, then what the step tells, or the notice that a dry run skips it; success only with every event accepted and, but in a dry run, all the step's commands made and worked |
| Steps.Env.Emit | internal/pipeline/pipeline.go:102-114 | an event is told exactly if nothing was refused before and the emitter takes it; the first refusal sticks |
| Steps.KeyIsDisclosed | internal/steps/bootc.go:108-151 | in every run that got past luks-format the generated recovery key has been told |
| Steps.Env.RunPreflightDisk | internal/steps/preflight.go:98-124 | only a device that resolves and that no refusal rule rejects becomes the target disk; else the fault is the reason that rejects it |
| Steps.Env.RunPreflightImage | internal/steps/preflight.go:56-96 | refused exactly when the image cannot be had, or a signed one has no digest or was not verified in three tries; else the source is the selected one, verified when the recipe has a key, each retry is warned about, and with the core Flatpaks wanted the label of that image is known and not malformed |
| Steps.Env.ReadCoreFlatpaks | internal/steps/preflight.go:131-156 | unknown labels and a malformed label are faults of their own, before any disk write |
| Steps.Env.TargetDisk | internal/steps/bootc.go:53-67 | every later disk step gets the accepted device, stored or resolved again |
| Steps.Env.Partitioned | internal/disk/partition.go:157-194 | sfdisk works at once, or forced and then with partprobe, exactly then the step works; the whole disk is written first, and the retry and the wipes of the stale partitions that are there are all it writes besides |
| Steps.Env.RunPartition | internal/steps/bootc.go:69-92 | the layout is the accepted disk's, the root device its root partition; zfs is refused before any command, and nothing else but a failed command fails it |
| Steps.Env.RunFormatBoot | internal/steps/bootc.go:94-102 | writes the ESP and then the separate /boot if the layout has one, nothing else; success only if every command worked |
| Steps.Env.ResolvePassphrase | internal/steps/bootc.go:108-131 | the key is the mode's own: file without its newlines, inline text or generated key, which is told and accepted first; a mode without a source is the only ordering fault |
| Steps.Env.RunLuksFormat | internal/steps/bootc.go:133-151 | the mode's own key formats the root partition and opens the mapper on that very partition; a generated key was told before anything is written; an open mapper always has its close registered, and a failure leaves none of this run's open; success only if every command worked |
| Steps.Env.RunFormatRoot | internal/steps/bootc.go:153-175 | formats the accepted disk's root partition, or the mapper opened on it, and nothing else, with every command working; another filesystem is refused before any command; the scratch mount is gone unless its unmount failed |
| Steps.Env.RunMountTarget | internal/steps/bootc.go:177-188 | success leaves exactly root, /boot and ESP on the entry table with the undo registered and every command worked; failure leaves the entry table unless the rollback failed |
| Steps.Env.Redirect | internal/steps/bootc.go:348-439 | for RAM paths in any number, every failing exit unmounts what was bound, in exact reverse, and leaves the override alone; what is left is a bind whose plain and lazy unmounts both failed, or lies below one |
| Steps.Env.ReleaseBind | internal/steps/bootc.go:359-370 | the bind is stuck exactly when its unmount failed plainly and then lazily; otherwise it is gone with all below it |
| Steps.Env.UndoBinds | internal/steps/bootc.go:357-370 | the binds come off last first with whatever was mounted below them; whatever fails plainly and lazily is warned about, the loop goes on, and above the earlier mounts only what lies at or below such a path is left |
| Steps.Env.EnableNoPivotRoot | internal/steps/bootc.go:445-462 | the override points into the scratch base and its earlier value is returned to be put back |
| Steps.Env.InstallRedirected | internal/steps/bootc.go:190-269 | every exit of the redirected install restores the override; the mounts are what they were, taken down in the exact reverse of the binds, but for what is at or below a bind whose plain and lazy unmounts both failed |
| Steps.Env.InstallImage | internal/bootcimg/bootcimg.go:200-262 | success means that bootc, natively or in podman, has installed exactly the given reference, and that a secure image's tree was extracted for the later steps; a failure of either is the step's |
| Host.Host.Deploy | internal/bootcimg/bootcimg.go:232-262 | an image is on the target only when the command that installs it succeeded, and it is the one that was given |
| Steps.Env.RunBootcInstall | internal/steps/bootc.go:190-269 | as InstallRedirected for both kinds of host; a missing source is its only ordering fault, and then nothing is touched; success means that bootc was given the source, stripped once more for a native bootc, and has installed it |
| Steps.Env.RunTpmEnroll | internal/steps/bootc.go:539-576 | the token is written to the LUKS partition, never the mapper; without a UKI it warns and fails |
| Steps.Env.RunFinalize | internal/steps/bootc.go:688-690 | success is finalize's four commands; the target stays frozen exactly when trim, remount and freeze worked and the thaw and the recovery thaw failed |
| Steps.Env.RunRetagRoot | internal/steps/bootc.go:481-519 | unmount, close, retype the root partition, reopen the mapper on it with the same key, remount the same tree: dying anywhere in between leaves only resources whose undo is registered, and whether the tree is off is known |
| Steps.Env.RetypesRoot | internal/steps/bootc.go:522-530 | the number the retype uses names the partition that was formatted |
| Steps.Env.Unwind | internal/pipeline/pipeline.go:136-146 | running the stack from the top, one command an undo, gives back every held resource unless an undo is denied on one, and then it is still there; no fault means that every undo worked; an undo of a tree that is already off takes an earlier mount with it |
| Steps.Env.ReadyAt | internal/steps/assemble.go:15-22 | at each turn of the run the step's inputs have been set by the steps before it |
| Binds.PeelBind | internal/steps/bootc.go:357-371 | one reverse unmount leaves the rest of the pile as it is, and above it only mounts at or below a stuck path or below a bind still to come |
| Binds.BindSticks | internal/steps/bootc.go:364-368 | the same when the unmount failed both ways and removed any of the mounts below |
| Binds.StuckOnTree | internal/steps/bootc.go:364-370 | binds that stick over the mounted target leave its tree in place, above the entry's mounts |
| Binds.LateUndo | internal/pipeline/pipeline.go:136-146 | an unmount of a target whose tree is already off takes only what is stuck, or the mount that was there before |
| Steps.ValidIsInstallable | internal/recipe/validate.go:110-143 | what the steps assume of a recipe follows from its validation |
| Mounts.TargetTreeGone | internal/disk/mount.go:141-146 | a recursive unmount of the target removes the whole target tree and nothing of the entry table |
| Mounts.ThinnedSame | internal/steps/bootc.go:364-368 | trying a recursive unmount again after it failed half-way removes exactly what the first try would have |
| Mounts.ThinnedTree | internal/disk/mount.go:141-146 | a recursive unmount of the target that failed half-way leaves its tree and the entry table |
| Mounts.ThinRange | internal/disk/mount.go:141-146 | a recursive unmount that fails may have taken anything from nothing to all that is below |
| Mounts.TopGone | internal/disk/mount.go:133-138 | a plain unmount undoes the last mount at its path |
| Mounts.DevAtIs | internal/steps/bootc.go:380-403 | what a bind shows is on the device of the last mount on the way to it |
| Host.Host.MountTarget | internal/disk/mount.go:42-69 | mounts exactly root, /boot and ESP, or rolls back to the earlier table unless the rollback fails |
| Host.Host.MountBootAndEsp | internal/disk/mount.go:75-96 | /boot before the ESP, both below the target, keeping what was mounted |
| Host.Host.OpenMapper | internal/luks/luks.go:61-77 | a stale mapper is closed first; success means the mapper is open on the given device, with its key and nothing mounted from it |
| Host.Host.UnmountTree | internal/disk/mount.go:141-146 | success takes the topmost mount and everything later below it; failure keeps the topmost mount and everything outside |
| Host.Host.LuksClose | internal/luks/luks.go:80-85 | closing needs an open mapper that nothing is mounted from |
| Host.Host.FinalizeFilesystem | internal/disk/format.go:133-155 | frozen afterwards exactly when trim, remount and freeze succeeded and both thaws failed |
| Assembly.Assemble | internal/steps/assemble.go:24-99 | the conditional appends build the preflight, disk, boot and last steps in order |
| Assembly.AssembledExactly | internal/steps/assemble.go:24-99 | the list holds exactly the steps the recipe asks for, each once, in one fixed order |
| Assembly.WhoGetsWhat | internal/steps/assemble.go:24-100 | which recipes get the image check, the encryption, the TPM, secure boot and retag steps |
| Assembly.NeedsComeFirst | internal/steps/assemble.go:24-99 | every step comes after all it relies on; tpm-enroll and esp-stage before retag-root |
| Recipe.Validate | internal/recipe/validate.go:110-143 | reports exactly the issues of the rules in order, and none exactly for well-formed recipes |
| Recipe.ValidExactlyWhen | internal/recipe/validate.go:110-143 | an empty issue list is equivalent to the schema stated as one condition |
| Recipe.ReportedExactlyWhen | internal/recipe/validate.go:110-365 | each issue, a code on a field, is reported exactly when the rule it stands for is broken |
| Recipe.TextRules | internal/recipe/validate.go:86-140 | which characters the rules on references, names and the disk path forbid or demand |
| Recipe.UserValid | internal/recipe/validate.go:287-315 | no user issue exactly for a valid name, full name, groups and SSH keys and exactly one password source |
| Formats.ValidateSSHAuthorizedKeys | internal/recipe/validate.go:351-364 | accepted exactly if every line is a key; a fault names the first line that is not, or that there is none exactly when every line is blank |
| Formats.AppendedKeys | internal/recipe/validate.go:351-364 | two accepted key texts joined by a newline are accepted, one final newline or not |
| Formats.LocaleExactlyWhen | internal/recipe/validate.go:87 | a locale is valid exactly if it is two or three lower-case letters, an underscore, two capitals, and perhaps a dot and a codeset of letters, digits and dashes |
| Formats.TimezoneExactlyWhen | internal/recipe/validate.go:88 | a time zone is valid exactly if it is one or more non-empty names of the listed characters joined by slashes, the first without digits |
| Formats.KeyLineExactlyWhen | internal/recipe/validate.go:91 | a key line is valid exactly if it is a key type, blanks, a text of the base64 characters with at most three paddings, and nothing more or a blank and a comment without line ends |
| Formats.KeyTypeExactlyWhen | internal/recipe/validate.go:91 | the key types are two by name, and the ecdsa-sha2- and sk-...@openssh.com families with a non-empty middle of lower-case letters, digits and dashes |
| EngineTheorems.RunTranscript | internal/pipeline/pipeline.go:257-302 | every run's accepted stream is Start, deprecations, step_start 0, 1, … with bodies, one cleanup warning for each failed undo of the steps that began, the summary of what they noted and one terminal event, cut only where the emitter first refused |
| EngineTheorems.NilExactlyWhenDone | internal/pipeline/pipeline.go:257-302 | Run returns nil exactly when Done was accepted, as the last event |
| EngineTheorems.RunKeepsErrors | internal/pipeline/pipeline.go:257-302 | the error that a step returns ends the run and is in the error tree, as is every failed undo's and the emitter's; a run succeeds exactly when every step began, none returned an error, no undo failed and nothing was refused |
| EngineTheorems.TerminalCode | internal/pipeline/pipeline.go:198-221 | the Error event names the last step begun if it returned an error and else none, tells the whole returned error, and carries the first code in join order; cleanup failures never change a coded step failure |
| EngineTheorems.RunActs | internal/pipeline/pipeline.go:257-302 | a winner locks, runs exactly the steps with a section in its stream, runs every undo they registered once in reverse, then unlocks; a loser runs nothing; a dry run takes no lock |
| EngineTheorems.UndidsReversed | internal/pipeline/pipeline.go:136-146 | the undos run are the registered ones in exact reverse |
| EngineTheorems.DryRunsOnlyPreflight | internal/pipeline/pipeline.go:304-331 | a dry run runs preflight steps only |
| EngineTheorems.LoserStream | internal/pipeline/pipeline.go:178-196 | a run that finds the lock held ends in install_in_progress with no step |
| EngineProofs.EmitFacts | internal/pipeline/pipeline.go:102-114 | one Emit delivers the event and its deprecations or latches the first failure, after which the emitter is not called |
| EngineProofs.RunStepsFacts | internal/pipeline/pipeline.go:304-331 | the loop's stream, trace, undos and notes from any step on, and its error and name: those of the first step that returned an error, or none |
| EngineProofs.ExecFacts | internal/pipeline/pipeline.go:92-134 | what a step's Run emits, registers, notes and returns, read off its behaviour and the events that were accepted |
| EngineProofs.TurnFacts | internal/pipeline/pipeline.go:304-331 | a turn returns the step's own error with its prefix, and nothing else while the emitter is good |
| Faults.JoinAllCode | internal/pipeline/pipeline.go:215-221 | joining errors one by one keeps the first code in order |
| Faults.JoinAllHolds | internal/pipeline/pipeline.go:274-290 | joining errors one by one loses none |
| Faults.MessageShows | internal/pipeline/pipeline.go:215-221 | every error that the returned error holds is shown in its message |
| Pipeline.Env.Emit | internal/pipeline/pipeline.go:102-114 | the sticky emitter in place does what the engine functions say |
| Pipeline.Env.SendDeprecations | cmd/firn/install.go:32-44 | the deprecation loop stops at the first refused warning |
| Pipeline.Env.Unwind | internal/pipeline/pipeline.go:136-146 | the loop runs every undo from the top and collects the failures in that order |
| Pipeline.RunSteps | internal/pipeline/pipeline.go:304-331 | the imperative step loop does what the engine functions say, for every step list and failure |
| Pipeline.Run | internal/pipeline/pipeline.go:257-302 | the imperative run does what the engine functions say |
| InstallLock.AtMostOneInside | internal/pipeline/pipeline.go:178-196 | in every interleaving at most one non-dry run is in its steps or cleanup, and it holds the lock |
| InstallLock.EndedRunsAreRuns | internal/pipeline/pipeline.go:257-302 | whatever runs beside it, every ended run did what an undisturbed run does |
| InstallLock.NobodyInsideIsFree | internal/pipeline/pipeline.go:178-196 | the lock is never left behind |
| InstallLock.LosersDoNothing | internal/pipeline/pipeline.go:178-196 | a loser runs no step and no undo |
| InstallLock.FreeLockIsTaken | internal/pipeline/pipeline.go:178-196 | in every interleaving a run that tries the lock gets it exactly when no run is inside, and else finds it held |
| InstallLock.EveryRunCanEnd | internal/pipeline/pipeline.go:161-302 | no run waits for another: wherever all of them are, each can go on to its end by itself, and that end is an undisturbed run's |
| DiskTree.AcceptedExactlyWhen | internal/disk/disk.go:185-211 | a disk is accepted exactly when / is not on it and in its whole tree every mountpoint is empty, no fstype is linux_raid_member or LVM2_member, and no label starts as an installer's |
| DiskTree.ReportsFirst | internal/disk/disk.go:185-256 | the reason names the first node in pre-order, by lsblk's own fields: its first mountpoint, its membership or its label, mounts before memberships before labels |
| DiskTree.RefusalSurvivesGrowth | internal/disk/disk.go:216-226 | adding descendants never turns a refusal into acceptance |
| DiskTree.WalkFindsFirst | internal/disk/disk.go:216-226 | the walk answers with the first node in pre-order that has an answer |
| DiskTree.LabelsDistinctPreOrder | internal/disk/disk.go:89-101 | Labels is the duplicate-free pre-order list |
| DiskTree.Resolve | internal/disk/disk.go:138-153 | a resolved device is the listed one under the target's canonical path, or under a plain target itself; none is found only if none is listed or the link is unreadable or leads nowhere |
| PartitionNames.RootPartNumOfPartName | internal/steps/bootc.go:522-530 | the number read back is the number the partition was named with |
| PartitionNames.PartNameInjective | internal/disk/partition.go:48-64 | different numbers name different partitions, none of them the disk |
| PartitionNames.AcrossDisks | internal/disk/partition.go:48-64 | partitions of different disks have different names, exactly unless one disk is named like the other, which ends in a digit, with a p behind it |
| PartitionNames.LayoutNames | internal/disk/partition.go:82-128 | the partitions are numbered in the order of the partitioner's script |
| ImageRefs.PinnedDigest | internal/bootcimg/verify.go:217-230 | pinning keeps the repository, carries exactly the digest, and overrides an earlier pin |
| ImageRefs.DigestExactlyWhen | internal/bootcimg/verify.go:19-19 | a digest is valid exactly when it is sha256 and 64 small hexadecimal digits |
| ImageRefs.RegistryExactlyWhen | internal/bootcimg/verify.go:235-246 | a reference is a registry's exactly when it is neither empty nor a bare docker transport and names no local one |
| ImageRefs.BareExactly | internal/bootcimg/bootcimg.go:94-104 | what stands before a colon is taken for a transport with a scheme, and without one unless it has a dot or a slash or a port and a path follow |
| ImageRefs.InstalledAsVerifiedExactlyWhen | internal/bootcimg/bootcimg.go:94-104 | a pinned reference survives the transport stripping exactly when its repository name is not taken for a transport |
| ImageRefs.GivenAsVerifiedExactlyWhen | internal/bootcimg/bootcimg.go:113-146 | what bootc is told is the pinned reference exactly when podman wraps it or its repository name survives |
| ImageRefs.OwnRepositoryExactlyWhen | internal/bootcimg/verify.go:66-79 | the repository that is inspected and pinned for name:tag is the name exactly when it is not taken for a transport |
| ImageRefs.ShortNameIsNotInstalledAsVerified | internal/bootcimg/bootcimg.go:94-104 | the counterexample: a bare name is reduced to its hexadecimal digest |
| ImageSelection.ChooseUnsigned | internal/bootcimg/verify.go:80-128 | which reference, labels and pin an unsigned recipe gets, and exactly when it is refused |
| ImageSelection.ChooseSigned | internal/bootcimg/verify.go:130-161 | which pinned reference and labels a signed recipe gets, and which error otherwise |
| ImageSelection.ShortTaggedNameIsAnotherImage | internal/bootcimg/bootcimg.go:94-104 | the input: a signed recipe for snow:latest verifies and installs the repository latest |
| ImageSelection.Cosign.VerifyImageSignature | internal/bootcimg/verify.go:188-204 | at most three calls on one reference, sleeping a prefix of the backoff list, stopping at the first success |
| ImageSelection.Cosign.CheckAndPinImage | internal/bootcimg/verify.go:66-174 | a signed success is exactly the reference the last, successful call verified, pinned to a valid digest |
| ImageSelection.LabelsDescribeTheInstalledImage | internal/bootcimg/verify.go:130-161 | known labels come from an inspection of the installed digest, or the registry's answer for the recipe's own |
| ImageSelection.WhichImageWins | internal/bootcimg/verify.go:66-161 | the recipe's own digest stands; without one the local copy's digest is pinned, and the registry's only if there is no local copy |
| ImageSelection.WhoseLabels | internal/bootcimg/verify.go:66-161 | the labels are the local copy's if it is the recipe's image, else the registry's, else unknown |
| Channel.Channel.BeginEmit | internal/progress/channel.go:28-43 | events after Close or a terminal event are refused and never delivered; the queue grows by the step the interleavings use |
| Channel.Channel.Close | internal/progress/channel.go:50-61 | any number of closes, each reporting truncation exactly without a terminal event |
| Channel.Channel.FinishEmit | internal/progress/channel.go:37-42 | a send enqueues the event, and a terminal one ends the stream |
| Channel.Channel.Receive | cmd/firn/tui.go:192-214 | a receive takes the oldest event |
| Channel.EveryInterleaving | cmd/firn/tui.go:182-214 | in every interleaving the removed events are, in order, those accepted up to the first terminal one; an Emit fails exactly after it; Close reports truncation exactly without one |
| Channel.NeverStuck | cmd/firn/tui.go:192-214 | once the view has stopped some goroutine can go on until all have finished |
| Channel.Bounded | cmd/firn/tui.go:192-214 | every action uses up the measure of events left and buffered |
| Channel.WhereSchedulesEnd | cmd/firn/tui.go:182-214 | a schedule that cannot go on has drained and closed everything, within 3n + 5 actions |
| Channel.HangsWithoutDrain | cmd/firn/tui.go:203-208 | without the drain, one event more than the buffer holds leaves the pipeline inside a send |
| Ndjson.Emitter.Emit | internal/progress/ndjson.go:26-61 | the latch, the line limit, and what a failed write leaves |
| Ndjson.LineRoundTrip | internal/progress/ndjson.go:38-47 | splicing the tag loses nothing, and a line ends in its only newline |
| Ndjson.TagIsFirst | internal/progress/ndjson.go:38-47 | a line opens with the tag under event and goes on with the payload's own fields |
| Progress.TagTells | internal/progress/progress.go:91-99 | the tag tells which event it is; done and error end a stream |
| Ndjson.StreamIsWholeLines | internal/progress/ndjson.go:26-61 | stopping at the first error, the stream is exactly the accepted lines and at most the start of one more |
| Ndjson.SentAreTheFirst | internal/progress/ndjson.go:26-61 | the accepted lines are those of the first calls, none but the last terminal; the first call refused is the first that follows a terminal event, does not marshal, is too long or fails to be written, and its error says which |
| Ndjson.NothingAfterTheEnd | internal/progress/ndjson.go:26-61 | whatever the caller makes of errors, after an accepted terminal event every call is refused and the stream stays, and before it none is refused for that |
| Ndjson.GluedExactlyWhen | internal/progress/ndjson.go:53-55 | the emitter alone leaves a partial line exactly when it attempts a write, within the limit and before a terminal event, that puts out a part of its line |
| Ndjson.HalfLineIsGlued | internal/progress/ndjson.go:53-55 | after such a write any next event's line is read together with the part |
| InstallView.EveryMessageSequence | internal/tui/installview.go:126-245 | over all message sequences: one outstanding read and none once finished, Done or Failed but not both, quit only finished and ungated with no key left, one cancel at most |
| InstallView.KeyIsKept | internal/tui/installview.go:136-221 | over all message sequences the gate is up exactly while a recovery key waits for Enter, and the view then holds the last key and has not quit |
| InstallView.CtrlCCancels | internal/tui/installview.go:145-156 | Ctrl-C before the stream has ended cancels the pipeline, once, and nothing else does |
| InstallView.FirstEndDecides | internal/tui/installview.go:168-235 | what ends the stream first is what the view reports: Done, the error's own step, code and message, or a truncated stream in the step begun last |
| InstallView.TwoKeysLeave | internal/tui/installview.go:136-165 | Enter and any key leave every finished view |
| InstallView.TailIsTheLastFive | internal/tui/installview.go:247-253 | the tail is the last five lines narrated and no deprecation is lost |
| InstallView.OnlyEventsMoveTheBar | internal/tui/installview.go:183-235 | keys, resizes and the closing channel never move the bar |
| InstallView.OverallFraction | internal/tui/installview.go:257-276 | the loop computes the weighted fraction |
| GuiInstall.InstallState.Apply | gui/internal/installer/install.go:57-95 | the in-place reducer does what the function on values says |
| GuiInstall.InstallState.Finish | gui/internal/installer/install.go:102-113 | a stream without an outcome failed, and so did one whose pipeline returned an error after Done, each with its code and message |
| GuiInstall.InstallState.Overall | gui/internal/installer/install.go:123-139 | the loop computes the weighted fraction, capped |
| Reducers.SameFraction | gui/internal/installer/install.go:57-139 | on every well-formed stream both frontends show the same fraction, in [0, 1] |
| Reducers.AgreeExactlyWhen | internal/tui/installview.go:197-204 | for any stream with non-negative weights they agree exactly when it does not stand at a negative byte count: not done, the last step_progress of the last step started counts negative bytes of a positive total, in a step to which the last list gives a weight |
| Reducers.NegativeBytesDisagree | internal/tui/installview.go:197-204 | the counterexample: -100% against 0% |
| Reducers.NeverMovesBack | internal/tui/installview.go:257-276 | with increasing step indices and non-decreasing fractions neither bar moves back |
| Reducers.BarIsWeighted | internal/tui/installview.go:257-276 | the bar stands at the weight of the steps before the current one and its counted part of its own, of the whole list's |
| Reducers.BytesAreShown | gui/internal/installer/install.go:57-95 | the bytes shown are those of the step's last step_progress, none before its first |
| Reducers.SummaryIsShown | gui/internal/installer/install.go:57-95 | the one summary of a run is what both frontends show |
| Reducers.LogIsTheLast200 | gui/internal/installer/install.go:116-121 | the log is the last 200 lines narrated |
| Reducers.SameOutcome | cmd/firn/tui.go:209-243 | both frontends call the same runs successful, and name the same code for a truncated stream |
| Reducers.SameDiagnosis | gui/internal/installer/install.go:90-93 | a stream that ends in an error is reported by both with that error's step, code and message |
| Reducers.DoneEndsTheList | gui/internal/installer/install.go:86-89 | Done puts the graphical list behind its last step |
| GuiApp.AppWindow.SetDisks | gui/internal/installer/app.go:413-446 | the two loops do what a scan does on values, which GuiRuns.ScanKeepsOrClears describes |
| GuiApp.AppWindow.StartInstall | gui/internal/installer/app.go:605-655 | refused while an install runs or its completion is pending, or when the recipe is not the reviewed one |
| GuiApp.AppWindow.OnSignal | gui/internal/installer/app.go:226-240 | a signal cancels a running install, keeps a pending key once, else quits |
| GuiApp.AppWindow.Complete | gui/internal/installer/app.go:645-653 | the completion finishes the attempt, drops the cancel function and quits if asked |
| GuiApp.AppWindow.Retry | gui/internal/installer/app.go:668-675 | a retry opens a new session, starts over with a fresh attempt and shows the review page |
| GuiRuns.OnePipeline | gui/internal/installer/app.go:605-655 | in every interleaving at most one pipeline is alive, a start beside it is refused, and the process never exits with one alive |
| GuiRuns.EventsReachTheirAttempt | gui/internal/installer/app.go:636-655 | no posted event reaches an attempt that has ended or one made by a retry |
| GuiRuns.StartsAsReviewed | gui/internal/installer/model.go:316-347 | a pipeline starts with exactly the reviewed choices, onto a disk the last successful scan listed as usable |
| GuiRuns.ClosesSafely | gui/internal/installer/app.go:255-261 | the window closes only with no install running, and over an unsaved key only after a signal or a quit asked for during the install |
| GuiRuns.ScanKeepsOrClears | gui/internal/installer/app.go:413-446 | a successful scan keeps an earlier choice, and the notice, exactly when the first entry with its path is there and not refused, and else clears it with a notice; the first scan without a choice chooses the first entry that is not refused |
| GuiRuns.OnlyTheUserChooses | gui/internal/installer/app.go:413-446 | after the first successful scan nothing but a selection moves the choice to another disk |
| GuiRuns.SelectionStays | gui/internal/installer/app.go:413-446 | in every interleaving a selected disk stays chosen until another selection or a successful scan in which the first entry with its path is missing or refused |
| GuiRuns.KeyStays | gui/internal/installer/app.go:226-261 | in every interleaving a recovery key that was shown stays until it is acknowledged or its attempt is replaced, and refuses every close that is not forced |
| GuiRuns.AcknowledgedIsGone | gui/internal/installer/app.go:252-261 | an acknowledged key is gone, and the window without one until a pipeline shows another |
| GuiRuns.SignalsLeave | gui/internal/installer/app.go:226-240 | the second signal at the latest closes an idle window, the first only if no key is shown; one during an install cancels it and its completion closes the window |
| GuiRuns.AlwaysAWayOut | gui/internal/installer/app.go:226-261 | from every state any interleaving reaches, the pipeline's return, what is already on its way and at most two signals lead to the end of the process |
| GuiRuns.RetryStartsOver | gui/internal/installer/app.go:605-675 | retry leaves nothing of the failed attempt, and the next confirmed click starts a pipeline exactly when the new review succeeded, the recipe is valid, a disk is chosen and the completion has come |
| GuiRuns.StartsExactlyWhen | gui/internal/installer/app.go:605-655 | a click starts a pipeline exactly when none runs or is pending, and the choices are the reviewed, valid ones with a disk; otherwise it only closes the confirmation |
| GuiRuns.ClicksInstall | gui/internal/installer/app.go:605-655 | the selected disk and the answers, once reviewed, are what an idle window's confirmed click installs; without a good review nothing is installed |
| GuiRuns.StopCancels | gui/internal/installer/app.go:657-663 | a stop cancels a running install and does nothing else |
| GuiRuns.ClosesOrExplains | gui/internal/installer/app.go:252-261 | a request to close closes exactly with no install running and no key waiting, unless forced, and otherwise says why |
| GuiRuns.QuitsOrCancels | gui/internal/installer/app.go:176-194 | a quit closes an idle window under the same conditions; during an install it cancels, and the completion closes the window |
| GuiRuns.PostsTakeTurns | gui/internal/installer/app.go:174-223 | scans and signals are posted to the main thread and handled there in the order they were posted |
| Sha512Crypt.Crypt | internal/sysconfig/user.go:391-513 | the loops compute the published scheme at 5000 rounds, for any 64-byte hash |
| Sha512Crypt.AppendBlocks | internal/sysconfig/user.go:410-416 | the block loop repeats the digest cyclically to the exact length |
| Sha512Crypt.AppendBits | internal/sysconfig/user.go:417-423 | the shift loop takes the binary digits of the length, lowest first |
| Sha512Crypt.LowestFirst | internal/sysconfig/user.go:417-423 | for lengths 5 and 6 the blocks are digest, password, digest and password, digest, digest |
| Sha512Crypt.DigestInputs | internal/sysconfig/user.go:391-424 | with a hash that shows its input, what digests B and A are made of |
| Sha512Crypt.HighestDigit | internal/sysconfig/user.go:417-423 | its number of turns is the length's number of binary digits |
| Sha512Crypt.Mix | internal/sysconfig/user.go:458-479 | the rounds combine P, S and the running digest by the round's residues |
| Sha512Crypt.RoundHashes | internal/sysconfig/user.go:458-479 | what each round hashes: the running digest first in even rounds and last in odd ones, P at the other end, S unless 3 divides the number, P once more unless 7 does |
| Sha512Crypt.EncodeDigest | internal/sysconfig/user.go:481-511 | the 22 calls encode the thirds of the digest, rotated by one place a group |
| Sha512Crypt.DecodeEncode | internal/sysconfig/user.go:481-511 | the 86 characters are of the alphabet and a decoder gives the digest back |
| Sha512Crypt.LetterIs | internal/sysconfig/user.go:371-384 | the alphabet is dot, slash, digits, capitals and small letters, in this order |
| Sha512Crypt.SlotOf | internal/sysconfig/user.go:490-511 | each of the first 63 digest bytes has exactly one place in the full groups |
| Sha512Crypt.ShadowDetermines | internal/sysconfig/user.go:512-512 | an entry determines its salt and its digest |
| Sha512Crypt.ShadowText | internal/sysconfig/user.go:512-512 | an entry is $6$, the salt, $ and the 86 characters of the digest |
| Sha512Crypt.SequenceLengths | internal/sysconfig/user.go:426-456 | P is as long as the password, S as the salt of at most 16 bytes, byte for byte the digest's |
| Sha512Crypt.NewCryptSalt | internal/sysconfig/user.go:375-384 | every random byte becomes an alphabet character by its low six bits |
| Keyboard.RoundTripExactlyWhen | internal/sysconfig/locale.go:41-59 | every accepted spec is written, and reads back without its model exactly when its lines fit the scanner |
| Keyboard.LongLayoutIsLost | internal/sysconfig/locale.go:41-59 | the input: a valid layout of 65524 letters is written and reads back as nothing |
| Keyboard.ReadXKB | gui/internal/installer/session.go:93-117 | the scan loop reads what the recursive parser reads |
| Keyboard.KeyboardExactlyWhen | internal/recipe/validate.go:89-89 | a spec is valid exactly when it is a layout, which a variant and then a model may follow, of small letters, digits, underscores and dashes |
| Keyboard.ForeignLine | gui/internal/installer/session.go:93-117 | in lines that others wrote blanks, a carriage return and quotes of either kind are dropped from an assignment |
| Keyboard.OtherLine | gui/internal/installer/session.go:93-117 | a line without an equals sign is passed over |
| Keyboard.FirstCounts | gui/internal/installer/session.go:93-117 | of several layouts and variants the first counts, and without a layout nothing is chosen |
| Names.SuggestedHostnameValid | gui/internal/installer/model.go:395-415 | every suggested hostname is valid, and the fallback only when no character is usable |
| Names.SanitizeHostname | gui/internal/installer/model.go:395-415 | the builder loop collapses separators and trims dashes |
| Names.HostnameKeeps | gui/internal/installer/model.go:395-415 | the hostname keeps the name's letters and digits in order, all of them if the name has at most 63 characters |
| Names.DashedBy | gui/internal/installer/model.go:395-415 | letters and digits are kept and every separator after the first of them is a dash; the rest is dropped |
| Names.HostnameExactlyWhen | internal/recipe/validate.go:389-400 | a hostname is valid exactly when it is at most 253 characters of labels joined by dots, each of 1 to 63 letters, digits and inner dashes |
| Names.SuggestedUsernameValid | gui/internal/installer/model.go:375-391 | every suggested username is empty or valid and at most 32 characters |
| Names.DeriveUsername | gui/internal/installer/model.go:375-391 | the loop keeps the first 32 name characters from the first letter on |
| Names.NameCharsAdd | gui/internal/installer/model.go:375-391 | the characters a username may have are kept, each and in order |
| Names.FirstLetterAt | gui/internal/installer/model.go:375-391 | and of those only what stands before the first letter or underscore is dropped |

## Left out

- Steps.Env.Run: the terminal event, the summary and the cleanup warnings of a run are in `Pipeline` and `EngineTheorems`; here the engine's order is repeated with the install's own steps, and an undo's error is only counted.
- Steps.Env.Emit: of what a step tells, information and warnings are one kind of note; their texts are not modelled, and whether a label's text is malformed is an input.
- Steps.Env.RunRetagRoot: a settling whose result the code ignores is a command only in the partitioning, where its place decides what is wiped.
- WholeInstall.Install: no earlier freeze of the target may be pending, and what podman leaves mounted lies below the redirected paths.
- Steps.Env.InstallImage: the temporary directory of a failed secure-image extraction stays behind in the code; temporary files are not part of the host, and podman's own overlay mount is modelled only below redirected paths.
- Steps.Env.RunFromSecureRoot: esp-stage and mok-stage are a number of commands; the ESP chain's contents are not modelled.
- Host.Host.MountAt: a device can be mounted whether or not a filesystem was made on it; which filesystem and options are used is not modelled.
- ImageSelection.Cosign.CheckAndPinImage: the diagnosis of transport failures, the registry probe and progress codes are left out, and an inspection that is not a manifest has no labels, though a partly decoded one could carry some.
- ImageRefs.GivenAsVerifiedExactlyWhen: the other arguments bootc gets are left out.
- Recipe.Validate: message texts and TOML decoding are left out; which zones exist and what files hold are inputs.
- Keyboard.RoundTripExactlyWhen: quoting is modelled for the characters a valid spec can have.
- Names.SuggestedHostnameValid: lower-casing of non-ASCII text is an input, and so is the first word a username is derived from, already folded to ASCII.
- DiskTree.AcceptedExactlyWhen: the parsing of lsblk's and findmnt's output is left out; reasons carry the node and not the sentence shown.
- EngineTheorems.RunTranscript: stated for a configured emitter; a missing emitter fails the first Emit and nothing is delivered. That the bodies hold only progress, info, warnings and recovery keys, and the results about Done and Error events, are for steps that emit only those, as all of Firn's do.
- InstallLock.AtMostOneInside: the lock file's creation and permissions are one outcome, granted, busy or unusable.
- Channel.EveryInterleaving: the pipeline is any finite list of events to emit; how cancelling shortens it is covered by quantifying over all lists.
- GuiInstall.InstallState.Apply: log lines keep the raw code and message, and start and finish times are left out.
- GuiRuns.OnePipeline: page navigation, validation of the other pages and the core Flatpak preview are left out; retry is available after a failure only, as its button is, and a quit asks for permission to quit and then to close the window.
- Reducers.SameFraction: fractions are reals; rounding is not modelled.
- Sha512Crypt.Crypt: SHA-512 is any function to 64 bytes.
- `Pipeline.Tools`, command-line flags, catalog loading, session detection other than the keyboard file, page layout and text wrapping, file permissions and copying, and wall-clock deadlines are left out: input, output or easy members that carry no further property.

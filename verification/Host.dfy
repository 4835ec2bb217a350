/** The machine an install runs on: its mount table, the LUKS mapper, the target's freeze,
    the process's container configuration override, and which devices were written to.
    Every command asks `verdict` whether it succeeds, retyping a partition `retypes` as well. */
module Host {
  import opened Text
  import opened Mounts
  import opened PartitionNames

  /** The mapper with the device below it; `Stale` is one that an interrupted run left open. */
  datatype MapperState = NotOpen | Stale(backing: string) | Opened(backing: string)

  /** What a destructive command reached: a device, a device through the mapper opened on it,
      or a partition's type. */
  datatype Write = OnDev(path: string) | Through(backing: string) | Retype(disk: string, num: nat)

  /** The releases whose failure leaves something behind: the unmounts of the subvolumes' scratch
      mount, of mount-target's own rollback and, lazily, of a redirect's bind, and the undos of
      the target and of the mapper. */
  datatype Release = ScratchUnmount | TargetRollback | BindDetach(path: Path) | TreeUndo | MapperUndo

  /** Such a release failed on something still held; `at` is its command's tick. */
  datatype Denial = Denied(what: Release, at: nat)

  function Logged(failed: bool, whose: Option<Release>, at: nat): seq<Denial> {
    if failed && whose.Some? then [Denied(whose.value, at)] else []
  }

  /** What a command that writes to a device reaches. */
  function Reached(dev: Dev, mapper: MapperState): seq<Write> {
    match dev
    case Block(path) => [OnDev(path)]
    case Mapper => if mapper.NotOpen? then [] else [Through(mapper.backing)]
    case Pseudo => []
  }

  function BootMounts(boot: Option<Dev>, esp: Dev, dir: Path): seq<Mount> {
    (if boot.Some? then [Mount(boot.value, dir + ["boot"])] else []) + [Mount(esp, dir + ["boot", "efi"])]
  }

  /** Every command from the tick `from` up to `upTo` succeeded. */
  ghost predicate AllWork(verdict: nat -> bool, from: nat, upTo: nat) {
    from <= upTo && forall k: nat | from <= k < upTo :: verdict(k)
  }

  lemma WorkOn(verdict: nat -> bool, a: nat, b: nat, c: nat)
    requires AllWork(verdict, a, b) && AllWork(verdict, b, c)
    ensures AllWork(verdict, a, c)
  {}

  lemma OneWorks(verdict: nat -> bool, a: nat)
    ensures AllWork(verdict, a, a) && (verdict(a) ==> AllWork(verdict, a, a + 1))
  {}

  class Host {
    const verdict: nat -> bool
    const retypes: nat -> bool
    const getsOff: (nat, nat) -> bool   // which mounts a recursive unmount removes before it fails
    var tick: nat
    var mounts: seq<Mount>
    var mapper: MapperState
    var keys: map<string, string>   // the passphrases containers were formatted with
    var frozen: bool
    var override: Option<Path>
    var writes: seq<Write>
    var released: seq<Path>   // the trees unmounted so far, in order
    var deployed: Option<string>   // the reference of the last image that bootc installed
    var denied: seq<Denial>   // the failed releases that left something behind, in order

    constructor (verdict: nat -> bool, retypes: nat -> bool, getsOff: (nat, nat) -> bool,
                 mounts: seq<Mount>, stale: Option<string>, override: Option<Path>)
      ensures this.verdict == verdict && this.retypes == retypes && this.getsOff == getsOff
      ensures this.mounts == mounts && this.override == override && keys == map[]
      ensures mapper == (if stale.Some? then Stale(stale.value) else NotOpen)
      ensures !frozen && writes == [] && released == [] && denied == [] && deployed == None
    {
      this.verdict, this.retypes, this.getsOff := verdict, retypes, getsOff;
      this.mounts, this.override := mounts, override;
      mapper := if stale.Some? then Stale(stale.value) else NotOpen;
      keys, frozen, writes, released, denied, deployed, tick := map[], false, [], [], [], None, 0;
    }

    /** No filesystem of a mapper that is not open is mounted. */
    ghost predicate Sane()
      reads this`mapper, this`mounts
    {
      mapper.NotOpen? ==> NoneFrom(mounts, Mapper)
    }

    /** Nothing ever fails, retyping a partition aside. */
    ghost predicate Willing() {
      forall k :: verdict(k)
    }

    lemma AlwaysWorks()
      ensures Willing() ==> forall k :: verdict(k)
    {}

    ghost predicate Retypes() {
      forall k :: retypes(k)
    }

    ghost predicate NeverRetypes() {
      forall k :: !retypes(k)
    }

    /** The passphrase opens the container on this device. */
    predicate Unlocks(backing: string, passphrase: string)
      reads this`keys
    {
      backing in keys && keys[backing] == passphrase
    }

    /** Any command without an effect that matters here. */
    method Run() returns (ok: bool)
      modifies this`tick
      ensures ok == verdict(old(tick)) && tick == old(tick) + 1
    {
      ok := verdict(tick);
      tick := tick + 1;
    }

    /** bootc install to-filesystem, native or in podman: the image is on the target only when it
        succeeds. */
    method Deploy(ref: string) returns (ok: bool)
      modifies this`tick, this`deployed
      ensures ok == verdict(old(tick)) && tick == old(tick) + 1
      ensures deployed == if ok then Some(ref) else old(deployed)
    {
      ok := Run();
      if ok {
        deployed := Some(ref);
      }
    }

    /** A command that destroys what is on a device, whether or not it succeeds; through a
        mapper that is not open there is nothing to destroy. */
    method Overwrite(dev: Dev) returns (ok: bool)
      modifies this`tick, this`writes
      ensures ok == (verdict(old(tick)) && Reached(dev, mapper) != []) && tick == old(tick) + 1
      ensures writes == old(writes) + Reached(dev, mapper)
    {
      ok := Run();
      ok := ok && Reached(dev, mapper) != [];
      writes := writes + Reached(dev, mapper);
    }

    /** Something is mounted from the device, or a mapper is open on it. */
    predicate Busy(path: string)
      reads this`mounts, this`mapper
    {
      !NoneFrom(mounts, Block(path)) || (!mapper.NotOpen? && mapper.backing == path)
    }

    /** sfdisk --part-type: the table cannot be read again while the partition is in use. */
    method SetPartitionType(disk: string, num: nat) returns (ok: bool)
      modifies this`tick, this`writes
      ensures tick == old(tick) + 1
      ensures ok == (verdict(old(tick)) && retypes(old(tick)) && !Busy(PartName(disk, num)))
      ensures writes == old(writes) + [Retype(disk, num)]
    {
      ok := verdict(tick) && retypes(tick) && !Busy(PartName(disk, num));
      tick := tick + 1;
      writes := writes + [Retype(disk, num)];
    }

    /** mount dev target; the mapper's device exists only while it is open. */
    method MountAt(dev: Dev, target: Path) returns (ok: bool)
      requires Sane()
      modifies this`tick, this`mounts
      ensures Sane()
      ensures ok == (verdict(old(tick)) && (dev.Mapper? ==> !mapper.NotOpen?)) && tick == old(tick) + 1
      ensures mounts == if ok then old(mounts) + [Mount(dev, target)] else old(mounts)
    {
      ok := Run();
      ok := ok && (dev.Mapper? ==> !mapper.NotOpen?);
      if ok {
        mounts := mounts + [Mount(dev, target)];
      }
    }

    /** mount --bind: the new mount shows the filesystem that holds the source. */
    method BindAt(source: Path, target: Path) returns (ok: bool)
      requires Sane()
      modifies this`tick, this`mounts
      ensures Sane() && ok == verdict(old(tick)) && tick == old(tick) + 1
      ensures mounts == if ok then old(mounts) + [Mount(DevAt(old(mounts), source), target)] else old(mounts)
    {
      ok := Run();
      if ok {
        DevAtIsMounted(mounts, source);
        mounts := mounts + [Mount(DevAt(mounts, source), target)];
      }
    }

    /** Mounts a command such as podman leaves behind. */
    method Leave(left: seq<Mount>)
      requires Sane() && NoneFrom(left, Mapper)
      modifies this`mounts
      ensures Sane() && mounts == old(mounts) + left
    {
      mounts := mounts + left;
    }

    /** umount. */
    method Unmount(target: Path, whose: Option<Release>) returns (ok: bool)
      requires Sane()
      modifies this`tick, this`mounts, this`denied
      ensures Sane() && ok == (verdict(old(tick)) && TopAt(old(mounts), target) >= 0) && tick == old(tick) + 1
      ensures mounts == if ok then WithoutTop(old(mounts), target) else old(mounts)
      ensures denied == old(denied) + Logged(!ok && TopAt(old(mounts), target) >= 0, whose, old(tick))
    {
      hide TopAt, WithoutTop, WithoutTree, NoneFrom;
      ok := Run();
      denied := denied + Logged(!ok && TopAt(mounts, target) >= 0, whose, tick - 1);
      ok := ok && TopAt(mounts, target) >= 0;
      if ok {
        if mapper.NotOpen? {
          UnmountKeepsNone(mounts, target, Mapper);
        }
        mounts := WithoutTop(mounts, target);
      }
    }

    /** umount -R, plain or lazy. A failure may come after any of the mounts below. */
    method UnmountTree(target: Path, whose: Option<Release>) returns (ok: bool)
      requires Sane()
      modifies this`tick, this`mounts, this`released, this`denied
      ensures Sane() && ok == (verdict(old(tick)) && TopAt(old(mounts), target) >= 0) && tick == old(tick) + 1
      ensures ok ==> mounts == WithoutTree(old(mounts), target) && released == old(released) + [target]
      ensures !ok ==> released == old(released)
      ensures !ok ==>
        if TopAt(old(mounts), target) >= 0 then Thinned(mounts, old(mounts), target) else mounts == old(mounts)
      ensures denied == old(denied) + Logged(!ok && TopAt(old(mounts), target) >= 0, whose, old(tick))
    {
      hide TopAt, WithoutTop, WithoutTree, NoneFrom, Thinned, Thin;
      ok := Run();
      ghost var before := mounts;
      var k := TopAt(mounts, target);
      if k < 0 {
        return false;
      }
      if mapper.NotOpen? {
        UnmountKeepsNone(mounts, target, Mapper);
      }
      if ok {
        mounts := WithoutTree(mounts, target);
        released := released + [target];
      } else {
        var now := tick;
        var gone := (j: nat) => getsOff(now, j);
        ThinIsThinned(mounts, target, gone);
        mounts := mounts[..k + 1] + Thin(mounts[k + 1..], target, gone);
        if mapper.NotOpen? {
          ThinnedKeepsNone(mounts, before, target, Mapper);
        }
        denied := denied + Logged(true, whose, tick - 1);
      }
    }

    /** What cryptsetup luksFormat leaves in the header. */
    method SetKey(backing: string, passphrase: string)
      modifies this`keys
      ensures Unlocks(backing, passphrase) && keys == old(keys)[backing := passphrase]
    {
      keys := keys[backing := passphrase];
    }

    /** cryptsetup luksOpen, with the passphrase the container was formatted with. */
    method LuksOpen(backing: string, passphrase: string) returns (ok: bool)
      requires Sane()
      modifies this`tick, this`mapper
      ensures Sane() && ok == (verdict(old(tick)) && old(mapper).NotOpen? && Unlocks(backing, passphrase))
      ensures tick == old(tick) + 1
      ensures mapper == if ok then Opened(backing) else old(mapper)
    {
      ok := Run();
      ok := ok && mapper.NotOpen? && Unlocks(backing, passphrase);
      if ok {
        mapper := Opened(backing);
      }
    }

    /** cryptsetup luksClose: only an open mapper that nothing is mounted from. */
    method LuksClose(whose: Option<Release>) returns (ok: bool)
      requires Sane()
      modifies this`tick, this`mapper, this`denied
      ensures Sane()
      ensures ok == (verdict(old(tick)) && !old(mapper).NotOpen? && NoneFrom(mounts, Mapper))
      ensures mapper == if ok then NotOpen else old(mapper)
      ensures denied == old(denied) + Logged(!ok && old(mapper).Opened?, whose, old(tick)) && tick == old(tick) + 1
    {
      ok := Run();
      ok := ok && !mapper.NotOpen? && NoneFrom(mounts, Mapper);
      denied := denied + Logged(!ok && mapper.Opened?, whose, tick - 1);
      if ok {
        mapper := NotOpen;
      }
    }

    /** fsfreeze -f and -u. */
    method Freeze() returns (ok: bool)
      modifies this`tick, this`frozen
      ensures ok == verdict(old(tick)) && tick == old(tick) + 1 && frozen == (old(frozen) || ok)
    {
      ok := Run();
      frozen := frozen || ok;
    }

    method Thaw() returns (ok: bool)
      modifies this`tick, this`frozen
      ensures ok == verdict(old(tick)) && tick == old(tick) + 1 && frozen == (old(frozen) && !ok)
    {
      ok := Run();
      frozen := frozen && !ok;
    }

    method SetOverride(value: Option<Path>)
      modifies this`override
      ensures override == value
    {
      override := value;
    }

    // ---------- internal/luks/luks.go ----------

    /** luks.Open: an open mapper of that name is closed first, and a failure to close it
        ends the attempt. The mapper opened is the one on this device. */
    method OpenMapper(backing: string, passphrase: string) returns (ok: bool)
      requires Sane()
      modifies this`tick, this`mapper, this`denied
      ensures denied == old(denied) && tick >= old(tick)
      ensures Willing() && NoneFrom(mounts, Mapper) && Unlocks(backing, passphrase) ==> ok
      ensures Sane() && (ok ==> mapper == Opened(backing) && NoneFrom(mounts, Mapper))
      ensures !ok ==> mapper.NotOpen? || mapper == old(mapper)
      ensures ok ==> Unlocks(backing, passphrase)
      ensures ok ==> AllWork(verdict, old(tick), tick) && tick == old(tick) + if old(mapper).NotOpen? then 1 else 2
    {
      if !mapper.NotOpen? {
        var closed := LuksClose(None);
        if !closed {
          return false;
        }
      }
      ok := LuksOpen(backing, passphrase);
    }

    // ---------- internal/disk/mount.go ----------

    /** MountTarget: the root, the separate /boot if there is one, the ESP. When a later
        mount fails the whole tree is rolled back; `stuck` says that the rollback failed. */
    method MountTarget(root: Dev, boot: Option<Dev>, esp: Dev, dir: Path, whose: Option<Release>)
      returns (ok: bool, stuck: bool)
      requires Sane()
      modifies this`tick, this`mounts, this`released, this`denied
      ensures tick > old(tick) && denied == old(denied) + Logged(stuck, whose, tick - 1)
      ensures Sane() && (ok ==> !stuck) && (stuck ==> tick - 1 > old(tick) && !verdict(tick - 1))
      ensures
        Willing() && (root.Mapper? ==> !mapper.NotOpen?) && (boot.Some? ==> !boot.value.Mapper?) && !esp.Mapper? ==>
        ok
      ensures Willing() ==> !stuck
      ensures ok || stuck ==> TargetTree(mounts, old(mounts), dir)
      ensures ok ==> mounts == old(mounts) + [Mount(root, dir)] + BootMounts(boot, esp, dir)
      ensures !ok && !stuck ==> mounts == old(mounts)
      ensures ok ==> AllWork(verdict, old(tick), tick) && tick == old(tick) + if boot.Some? then 6 else 4
    {
      hide TargetTree;
      stuck := false;
      ok := Run();          // mkdir
      if !ok {
        return false, false;
      }
      ok := MountAt(root, dir);
      if !ok {
        return;
      }
      ok := MountBootAndEsp(boot, esp, dir);
      TreeRaised(mounts, old(mounts), Mount(root, dir));
      if !ok {
        stuck := RollBack(dir, old(mounts), whose);
      }
    }

    method RollBack(dir: Path, ghost below: seq<Mount>, whose: Option<Release>) returns (stuck: bool)
      requires Sane() && TargetTree(mounts, below, dir)
      modifies this`tick, this`mounts, this`released, this`denied
      ensures Sane() && tick == old(tick) + 1 && stuck == !verdict(old(tick))
      ensures denied == old(denied) + Logged(stuck, whose, old(tick))
      ensures if stuck then TargetTree(mounts, below, dir) else mounts == below
    {
      hide TopAt, WithoutTree, Thinned, TargetTree;
      TargetTreeGone(mounts, below, dir);
      var undone := UnmountTree(dir, whose);
      stuck := !undone;
      if stuck {
        ThinnedTree(mounts, old(mounts), below, dir);
      }
    }

    /** mountBootAndESP; on a failure the mounts made so far stay for MountTarget. */
    method MountBootAndEsp(boot: Option<Dev>, esp: Dev, dir: Path) returns (ok: bool)
      requires Sane()
      modifies this`tick, this`mounts
      ensures Sane() && old(mounts) <= mounts && tick > old(tick)
      ensures Willing() && (boot.Some? ==> !boot.value.Mapper?) && !esp.Mapper? ==> ok
      ensures forall k | |old(mounts)| <= k < |mounts| :: StrictlyUnder(dir, mounts[k].target)
      ensures ok ==> mounts == old(mounts) + BootMounts(boot, esp, dir)
      ensures ok ==> AllWork(verdict, old(tick), tick) && tick == old(tick) + if boot.Some? then 4 else 2
    {
      if boot.Some? {
        ok := Run();        // mkdir
        if !ok {
          return;
        }
        ok := MountAt(boot.value, dir + ["boot"]);
        if !ok {
          return;
        }
      }
      ok := Run();          // mkdir
      if !ok {
        return;
      }
      ok := MountAt(esp, dir + ["boot", "efi"]);
    }

    // ---------- internal/disk/format.go ----------

    /** FinalizeFilesystem: whatever fails, the target is left frozen only when both the
        thaw and the recovery thaw failed. */
    method FinalizeFilesystem() returns (ok: bool, thawsFailed: bool)
      requires !frozen
      modifies this`tick, this`frozen
      ensures frozen == thawsFailed && (thawsFailed ==> !ok) && (Willing() ==> ok) && tick > old(tick)
      ensures ok ==> tick == old(tick) + 4 && forall k | old(tick) <= k < tick :: verdict(k)
      ensures thawsFailed ==> tick == old(tick) + 5
      ensures thawsFailed <==>
        && (forall k | old(tick) <= k < old(tick) + 3 :: verdict(k))
        && !verdict(old(tick) + 3) && !verdict(old(tick) + 4)
    {
      thawsFailed := false;
      ok := Run();          // fstrim
      if !ok {
        return;
      }
      ok := Run();          // remount read-only
      if !ok {
        return;
      }
      ok := Freeze();
      if !ok {
        return;
      }
      ok := Thaw();
      if !ok {
        var recovered := Thaw();
        thawsFailed := !recovered;
      }
    }
  }
}

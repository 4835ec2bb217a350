/** Target resolution and the refusal rules over lsblk's device tree
    (internal/disk/disk.go). */
module DiskTree {
  import opened Text

  /** One lsblk device with what the rules look at. */
  datatype Device = Device(
    path: string,
    fstype: string,
    fsLabel: string,
    mountpoints: seq<string>,
    children: seq<Device>)

  datatype Reason =
    | RunningSystem
    | MountedAt(mountpoint: string)
    | RaidMember(path: string)
    | LvmMember(path: string)
    | InstallerMedium(name: string)

  // ---------- walking the tree ----------

  /** walk: depth-first, parents first, stopping at the first visit with an answer. */
  function Walk<R>(dev: Device, visit: Device -> Option<R>): Option<R>
    decreases dev
  {
    var here := visit(dev);
    if here.Some? then here else WalkAll(dev.children, visit)
  }

  function WalkAll<R>(devs: seq<Device>, visit: Device -> Option<R>): Option<R>
    decreases devs
  {
    if devs == [] then None
    else
      var first := Walk(devs[0], visit);
      if first.Some? then first else WalkAll(devs[1..], visit)
  }

  /** The device and all its descendants in pre-order. */
  function PreOrder(dev: Device): (nodes: seq<Device>)
    ensures nodes != [] && nodes[0] == dev
    decreases dev
  {
    [dev] + PreOrderAll(dev.children)
  }

  function PreOrderAll(devs: seq<Device>): seq<Device>
    decreases devs
  {
    if devs == [] then [] else PreOrder(devs[0]) + PreOrderAll(devs[1..])
  }

  /** `r` is the answer of the first node that has one. */
  ghost predicate IsFirst<R>(nodes: seq<Device>, visit: Device -> Option<R>, r: Option<R>) {
    if r.None? then forall n <- nodes :: visit(n).None?
    else exists k: nat :: k < |nodes| && visit(nodes[k]) == r && forall n <- nodes[..k] :: visit(n).None?
  }

  lemma IsFirstAppend<R>(a: seq<Device>, b: seq<Device>, visit: Device -> Option<R>, ra: Option<R>, rb: Option<R>)
    requires IsFirst(a, visit, ra) && IsFirst(b, visit, rb)
    ensures IsFirst(a + b, visit, if ra.Some? then ra else rb)
  {
    if ra.Some? {
      var k: nat :| k < |a| && visit(a[k]) == ra && forall n <- a[..k] :: visit(n).None?;
      assert (a + b)[..k] == a[..k] && (a + b)[k] == a[k];
    } else if rb.Some? {
      var k: nat :| k < |b| && visit(b[k]) == rb && forall n <- b[..k] :: visit(n).None?;
      assert (a + b)[..|a| + k] == a + b[..k] && (a + b)[|a| + k] == b[k];
    }
  }

  /** The walk stops at the first node in pre-order that has an answer. */
  lemma {:induction false} WalkFindsFirst<R>(dev: Device, visit: Device -> Option<R>)
    ensures IsFirst(PreOrder(dev), visit, Walk(dev, visit))
    decreases dev
  {
    WalkAllFindsFirst(dev.children, visit);
    var here := visit(dev);
    assert IsFirst([dev], visit, here) by {
      assert [dev][0] == dev && [dev][..0] == [];
    }
    IsFirstAppend([dev], PreOrderAll(dev.children), visit, here, WalkAll(dev.children, visit));
  }

  lemma {:induction false} WalkAllFindsFirst<R>(devs: seq<Device>, visit: Device -> Option<R>)
    ensures IsFirst(PreOrderAll(devs), visit, WalkAll(devs, visit))
    decreases devs
  {
    if devs != [] {
      WalkFindsFirst(devs[0], visit);
      WalkAllFindsFirst(devs[1..], visit);
      IsFirstAppend(PreOrder(devs[0]), PreOrderAll(devs[1..]), visit, Walk(devs[0], visit), WalkAll(devs[1..], visit));
    }
  }

  // ---------- the rules ----------

  function FirstMountpoint(mountpoints: seq<string>): Option<string> {
    if mountpoints == [] then None
    else if mountpoints[0] != "" then Some(mountpoints[0])
    else FirstMountpoint(mountpoints[1..])
  }

  function Mounted(d: Device): Option<Reason> {
    match FirstMountpoint(d.mountpoints)
    case None => None
    case Some(mp) => Some(MountedAt(mp))
  }

  function Member(d: Device): Option<Reason> {
    if d.fstype == "linux_raid_member" then Some(RaidMember(d.path))
    else if d.fstype == "LVM2_member" then Some(LvmMember(d.path))
    else None
  }

  function Installer(d: Device): Option<Reason> {
    if "SNOSI_INSTALLER_" <= d.fsLabel || "FIRN_INSTALLER_" <= d.fsLabel then Some(InstallerMedium(d.fsLabel)) else None
  }

  /** Why `dev` must not be installed to; None when it may be. `rootDev` is the
      device behind /, empty when the system runs from RAM. */
  function RefusalReason(dev: Device, rootDev: string): Option<Reason> {
    if rootDev != "" && dev.path <= rootDev then Some(RunningSystem)
    else
      var mounted := Walk(dev, Mounted);
      if mounted.Some? then mounted
      else
        var member := Walk(dev, Member);
        if member.Some? then member else Walk(dev, Installer)
  }

  // ---------- what the rules come to, on lsblk's own fields ----------

  predicate HasMount(d: Device) {
    exists mp <- d.mountpoints :: mp != ""
  }

  predicate IsMember(d: Device) {
    d.fstype == "linux_raid_member" || d.fstype == "LVM2_member"
  }

  predicate HasInstallerLabel(d: Device) {
    "SNOSI_INSTALLER_" <= d.fsLabel || "FIRN_INSTALLER_" <= d.fsLabel
  }

  predicate Disqualified(d: Device) {
    HasMount(d) || IsMember(d) || HasInstallerLabel(d)
  }

  ghost predicate IsFirstMount(d: Device, mp: string) {
    exists k: nat ::
      k < |d.mountpoints| && d.mountpoints[k] == mp && mp != "" && forall m <- d.mountpoints[..k] :: m == ""
  }

  lemma {:induction false} FirstMountpointIs(mountpoints: seq<string>)
    ensures FirstMountpoint(mountpoints).None? <==> forall m <- mountpoints :: m == ""
    ensures FirstMountpoint(mountpoints).Some? ==>
      exists k: nat :: k < |mountpoints| && mountpoints[k] == FirstMountpoint(mountpoints).value
        && mountpoints[k] != "" && forall m <- mountpoints[..k] :: m == ""
  {
    if mountpoints != [] {
      var rest := mountpoints[1..];
      FirstMountpointIs(rest);
      assert mountpoints == [mountpoints[0]] + rest;
      if mountpoints[0] != "" {
        assert mountpoints[..0] == [] && mountpoints[0] in mountpoints;
      } else if FirstMountpoint(rest).Some? {
        var k: nat :|
          k < |rest| && rest[k] == FirstMountpoint(rest).value && rest[k] != "" && forall m <- rest[..k] :: m == "";
        assert mountpoints[k + 1] in mountpoints;
        assert mountpoints[k + 1] == rest[k] && mountpoints[..k + 1] == [mountpoints[0]] + rest[..k];
      }
    }
  }

  lemma VisitsAnswer(d: Device)
    ensures Mounted(d).None? <==> !HasMount(d)
    ensures Mounted(d).Some? ==> Mounted(d).value.MountedAt? && IsFirstMount(d, Mounted(d).value.mountpoint)
    ensures Member(d).None? <==> !IsMember(d)
    ensures d.fstype == "linux_raid_member" ==> Member(d) == Some(RaidMember(d.path))
    ensures d.fstype == "LVM2_member" ==> Member(d) == Some(LvmMember(d.path))
    ensures Installer(d) == if HasInstallerLabel(d) then Some(InstallerMedium(d.fsLabel)) else None
  {
    FirstMountpointIs(d.mountpoints);
  }

  /** The first of these nodes of which `p` holds is the one at `k`. */
  ghost predicate FirstAt(nodes: seq<Device>, k: nat, p: Device -> bool) {
    k < |nodes| && p(nodes[k]) && forall n <- nodes[..k] :: !p(n)
  }

  ghost predicate Free(nodes: seq<Device>, p: Device -> bool) {
    forall n <- nodes :: !p(n)
  }

  lemma AnswerAt<R>(nodes: seq<Device>, visit: Device -> Option<R>, r: Option<R>, p: Device -> bool) returns (k: nat)
    requires IsFirst(nodes, visit, r) && forall n: Device :: visit(n).Some? <==> p(n)
    ensures r.None? ==> Free(nodes, p)
    ensures r.Some? ==> FirstAt(nodes, k, p) && visit(nodes[k]) == r
  {
    k := 0;
    if r.Some? {
      k :| k < |nodes| && visit(nodes[k]) == r && forall n <- nodes[..k] :: visit(n).None?;
    }
  }

  /** The reason given is the first, in this order, of what disqualifies the device: that the
      system runs from it, a mount anywhere on it, a RAID or LVM member, an installer's label. Of
      each it names the first node in pre-order, and there the first mount point. */
  ghost predicate Reports(dev: Device, rootDev: string, r: Option<Reason>) {
    var nodes, running := PreOrder(dev), rootDev != "" && dev.path <= rootDev;
    match r
    case None => !running && Free(nodes, Disqualified)
    case Some(RunningSystem) => running
    case Some(MountedAt(mp)) => !running && exists k: nat :: FirstAt(nodes, k, HasMount) && IsFirstMount(nodes[k], mp)
    case Some(RaidMember(path)) =>
      && !running && Free(nodes, HasMount)
      && exists k: nat :: FirstAt(nodes, k, IsMember) && nodes[k].fstype == "linux_raid_member" && nodes[k].path == path
    case Some(LvmMember(path)) =>
      && !running && Free(nodes, HasMount)
      && exists k: nat :: FirstAt(nodes, k, IsMember) && nodes[k].fstype == "LVM2_member" && nodes[k].path == path
    case Some(InstallerMedium(name)) =>
      && !running && Free(nodes, HasMount) && Free(nodes, IsMember)
      && exists k: nat :: FirstAt(nodes, k, HasInstallerLabel) && nodes[k].fsLabel == name
  }

  lemma MemberIs(d: Device)
    ensures IsMember(d) <==> d.fstype == "linux_raid_member" || d.fstype == "LVM2_member"
  {}

  lemma ReportsFirst(dev: Device, rootDev: string)
    ensures Reports(dev, rootDev, RefusalReason(dev, rootDev))
  {
    hide Mounted, Member, Installer, HasMount, IsMember, HasInstallerLabel, IsFirstMount, IsFirst, FirstAt, PreOrder;
    WalkFindsFirst(dev, Mounted);
    WalkFindsFirst(dev, Member);
    WalkFindsFirst(dev, Installer);
    forall n: Device
      ensures (Mounted(n).Some? <==> HasMount(n)) && (Member(n).Some? <==> IsMember(n))
      ensures Installer(n).Some? <==> HasInstallerLabel(n)
    {
      VisitsAnswer(n);
    }
    var nodes := PreOrder(dev);
    var a := AnswerAt(nodes, Mounted, Walk(dev, Mounted), HasMount);
    var b := AnswerAt(nodes, Member, Walk(dev, Member), IsMember);
    var c := AnswerAt(nodes, Installer, Walk(dev, Installer), HasInstallerLabel);
    if Walk(dev, Mounted).Some? {
      VisitsAnswer(nodes[a]);
    } else if Walk(dev, Member).Some? {
      VisitsAnswer(nodes[b]);
      MemberIs(nodes[b]);
    } else if Walk(dev, Installer).Some? {
      VisitsAnswer(nodes[c]);
    }
  }

  /** A device is accepted exactly when the running system's device does not start with its
      path and every node of its tree is without a mount point, not a RAID or LVM member, and
      without an installer's label. */
  lemma AcceptedExactlyWhen(dev: Device, rootDev: string)
    ensures RefusalReason(dev, rootDev).None? <==>
      && !(rootDev != "" && dev.path <= rootDev)
      && forall n <- PreOrder(dev) ::
           && (forall mp <- n.mountpoints :: mp == "")
           && n.fstype != "linux_raid_member" && n.fstype != "LVM2_member"
           && !("SNOSI_INSTALLER_" <= n.fsLabel) && !("FIRN_INSTALLER_" <= n.fsLabel)
  {
    hide RefusalReason, PreOrder;
    ReportsFirst(dev, rootDev);
  }

  // ---------- growing trees ----------

  /** `e` is `d` with descendants added anywhere below it. */
  predicate Extends(d: Device, e: Device)
    decreases d, e
  {
    d == e.(children := d.children) && Embeds(d.children, e.children)
  }

  predicate Embeds(ds: seq<Device>, es: seq<Device>)
    decreases ds, es
  {
    if ds == [] then true
    else if es == [] then false
    else (Extends(ds[0], es[0]) && Embeds(ds[1..], es[1..])) || Embeds(ds, es[1..])
  }

  lemma {:induction false} ExtendsKeepsNodes(d: Device, e: Device, n: Device)
    requires Extends(d, e) && n in PreOrder(d) && Disqualified(n)
    ensures exists m <- PreOrder(e) :: Disqualified(m)
    decreases d, e
  {
    if n == d {
      assert Disqualified(e);
    } else {
      EmbedsKeepsNodes(d.children, e.children, n);
    }
  }

  lemma {:induction false} EmbedsKeepsNodes(ds: seq<Device>, es: seq<Device>, n: Device)
    requires Embeds(ds, es) && n in PreOrderAll(ds) && Disqualified(n)
    ensures exists m <- PreOrderAll(es) :: Disqualified(m)
    decreases ds, es
  {
    if Embeds(ds, es[1..]) {
      EmbedsKeepsNodes(ds, es[1..], n);
    } else if n in PreOrder(ds[0]) {
      ExtendsKeepsNodes(ds[0], es[0], n);
    } else {
      EmbedsKeepsNodes(ds[1..], es[1..], n);
    }
  }

  /** Adding descendants never turns a refusal into an acceptance. */
  lemma RefusalSurvivesGrowth(d: Device, e: Device, rootDev: string)
    requires Extends(d, e) && RefusalReason(d, rootDev).Some?
    ensures RefusalReason(e, rootDev).Some?
  {
    AcceptedExactlyWhen(d, rootDev);
    AcceptedExactlyWhen(e, rootDev);
    if !(rootDev != "" && d.path <= rootDev) {
      var n :| n in PreOrder(d) && Disqualified(n);
      ExtendsKeepsNodes(d, e, n);
    }
  }

  // ---------- labels ----------

  /** Labels' walk, carrying the labels found so far. */
  function LabelsFrom(dev: Device, found: seq<string>): seq<string>
    decreases dev
  {
    var name := TrimSpace(dev.fsLabel);
    LabelsFromAll(dev.children, if name != "" && name !in found then found + [name] else found)
  }

  function LabelsFromAll(devs: seq<Device>, found: seq<string>): seq<string>
    decreases devs
  {
    if devs == [] then found else LabelsFromAll(devs[1..], LabelsFrom(devs[0], found))
  }

  function Labels(dev: Device): seq<string> {
    LabelsFrom(dev, [])
  }

  function NameOf(d: Device): seq<string> {
    var name := TrimSpace(d.fsLabel);
    if name != "" then [name] else []
  }

  function LabelsOf(nodes: seq<Device>): seq<string> {
    if nodes == [] then [] else NameOf(nodes[0]) + LabelsOf(nodes[1..])
  }

  lemma {:induction false} LabelsOfAppend(a: seq<Device>, b: seq<Device>)
    ensures LabelsOf(a + b) == LabelsOf(a) + LabelsOf(b)
  {
    hide NameOf;
    if a == [] {
      assert a + b == b && LabelsOf(a) == [];
    } else {
      LabelsOfAppend(a[1..], b);
      assert (a + b)[0] == a[0] && (a + b)[1..] == a[1..] + b;
    }
  }

  lemma {:induction false} LabelsFromIsDistinct(dev: Device, seen: seq<string>)
    ensures LabelsFrom(dev, Distinct(seen)) == Distinct(seen + LabelsOf(PreOrder(dev)))
    decreases dev
  {
    hide TrimSpace, Distinct;
    var name := TrimSpace(dev.fsLabel);
    var now := if name != "" then seen + [name] else seen;
    DistinctSnoc(seen, name);
    LabelsFromAllIsDistinct(dev.children, now);
    assert PreOrder(dev)[1..] == PreOrderAll(dev.children);
    assert now + LabelsOf(PreOrderAll(dev.children)) == seen + LabelsOf(PreOrder(dev));
  }

  lemma {:induction false} LabelsFromAllIsDistinct(devs: seq<Device>, seen: seq<string>)
    ensures LabelsFromAll(devs, Distinct(seen)) == Distinct(seen + LabelsOf(PreOrderAll(devs)))
    decreases devs
  {
    hide TrimSpace, Distinct;
    if devs == [] {
      assert seen + [] == seen;
    } else {
      LabelsFromIsDistinct(devs[0], seen);
      var here := LabelsOf(PreOrder(devs[0]));
      LabelsFromAllIsDistinct(devs[1..], seen + here);
      LabelsOfAppend(PreOrder(devs[0]), PreOrderAll(devs[1..]));
      assert seen + here + LabelsOf(PreOrderAll(devs[1..])) == seen + (here + LabelsOf(PreOrderAll(devs[1..])));
    }
  }

  /** Labels lists each non-empty label of the tree once, in pre-order. */
  lemma LabelsDistinctPreOrder(dev: Device)
    ensures Labels(dev) == Distinct(LabelsOf(PreOrder(dev)))
  {
    LabelsFromIsDistinct(dev, []);
    assert [] + LabelsOf(PreOrder(dev)) == LabelsOf(PreOrder(dev));
  }

  // ---------- the target ----------

  /** What following the target's links comes to. */
  datatype Link = LeadsTo(path: string) | NotExist | Unreadable

  const LINK_DIR := "/dev/disk/"

  /** CanonicalPath: a missing plain path stands for itself, a missing link fails. */
  function CanonicalPath(target: string, link: Link): Option<string> {
    match link
    case LeadsTo(path) => Some(path)
    case NotExist => if LINK_DIR <= target then None else Some(target)
    case Unreadable => None
  }

  function Lookup(devices: seq<Device>, path: string): (r: Option<Device>)
    ensures r.Some? ==> r.value in devices && r.value.path == path
    ensures r.None? ==> forall d <- devices :: d.path != path
  {
    if devices == [] then None
    else if devices[0].path == path then Some(devices[0])
    else Lookup(devices[1..], path)
  }

  /** Resolve: the listed whole disk that the target's links lead to, or that a plain target
      without a node names itself; never one for a dangling link. */
  function Resolve(devices: seq<Device>, target: string, link: Link): (r: Option<Device>)
    ensures r.Some? ==> r.value in devices && !link.Unreadable?
    ensures r.Some? ==> r.value.path == if link.LeadsTo? then link.path else target
    ensures r.Some? && link.NotExist? ==> !("/dev/disk/" <= target)
    ensures r.None? && link.LeadsTo? ==> forall d <- devices :: d.path != link.path
    ensures r.None? && link.NotExist? ==> "/dev/disk/" <= target || forall d <- devices :: d.path != target
  {
    match CanonicalPath(target, link)
    case None => None
    case Some(path) => Lookup(devices, path)
  }
}

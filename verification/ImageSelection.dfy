/** CheckAndPinImage (internal/bootcimg/verify.go): which reference is installed, which
    labels describe it, and what cosign verified. */
module ImageSelection {
  import opened Text
  import opened ImageRefs

  type Labels = map<string, string>

  /** What `skopeo inspect` came to: an error, output that is not a manifest, or one. */
  datatype Inspection =
    | Failed
    | Unreadable
    | Manifest(digest: string, labels: Labels)

  datatype Source = Source(ref: string, labels: Labels, inspected: bool, pinned: bool)

  datatype SelectError =
    | NotRegistry          // a signed recipe needs a registry reference
    | Unreachable          // neither in the registry nor cached
    | BadLocalDigest
    | NoDigest
    | BadRecipeDigest
    | NotVerified(ref: string)

  datatype Selection = Selected(source: Source) | Refused(error: SelectError)

  // ---------- what the choice should be ----------

  /** The digest of the image that wins: the recipe's own, else the local copy's,
      else the registry's if it is a digest at all. */
  function WinningDigest(bare: string, local: Inspection, remote: Inspection): string {
    match DigestReference(bare)
    case Some(d) => d
    case None =>
      if local.Manifest? then local.digest
      else if remote.Manifest? && ValidDigest(remote.digest) then remote.digest
      else ""
  }

  /** The inspection that describes the winner: for a recipe digest the local copy only
      when its digest matches, else whichever copy wins. */
  function Describing(bare: string, local: Inspection, remote: Inspection): Inspection {
    var recipeDigest := DigestReference(bare);
    if local.Manifest? && (recipeDigest.None? || recipeDigest.value == local.digest) then local
    else remote
  }

  predicate Describes(s: Source, from: Inspection) {
    s.inspected == from.Manifest? && s.labels == if from.Manifest? then from.labels else map[]
  }

  function ManifestDigest(out: Inspection): string {
    if out.Manifest? && ValidDigest(out.digest) then out.digest else ""
  }

  function LabelsOf(out: Inspection): Labels {
    if out.Manifest? then out.labels else map[]
  }

  /** The reference that is installed. A signed recipe always gets the winner's digest,
      whatever tag it has; an unsigned one keeps its own reference for a local transport, a
      digest of its own or a source without a digest, and else gets the winner's digest. */
  function SelectedRef(image: string, signed: bool, local: Inspection, remote: Inspection): string {
    var bare := BareImageRef(image);
    var digest := WinningDigest(bare, local, remote);
    if signed then Pin(bare, digest)
    else if !IsRegistryRef(image) || DigestReference(bare).Some? || !ValidDigest(digest) then image
    else Pin(bare, digest)
  }

  predicate RightUnsigned(image: string, local: Inspection, remote: Inspection, s: Source) {
    var bare := BareImageRef(image);
    && s.ref == SelectedRef(image, false, local, remote)
    && (!IsRegistryRef(image) ==> !s.pinned && Describes(s, if local.Manifest? then local else remote))
    && (IsRegistryRef(image) ==>
          && Describes(s, Describing(bare, local, remote))
          && s.pinned == (DigestReference(bare).Some? || ValidDigest(WinningDigest(bare, local, remote))))
  }

  predicate RightSigned(image: string, local: Inspection, remote: Inspection, s: Source) {
    var bare := BareImageRef(image);
    && s.ref == SelectedRef(image, true, local, remote)
    && DigestReference(s.ref) == Some(WinningDigest(bare, local, remote)) && !s.pinned
    && Describes(s, Describing(bare, local, remote))
  }

  /** The unsigned branch. */
  method ChooseUnsigned(image: string, local: Inspection, remote: Inspection) returns (r: Selection)
    ensures r.Refused? <==> !local.Manifest? && remote.Failed?
    ensures r.Refused? ==> r.error == Unreachable
    ensures r.Selected? ==> RightUnsigned(image, local, remote, r.source)
  {
    hide ValidDigest, BareImageRef, IsRegistryRef, RepositoryName, DigestReference;
    EmptyIsNoDigest();
    if !IsRegistryRef(image) {
      if local.Manifest? {
        return Selected(Source(image, local.labels, true, false));
      }
      if !remote.Failed? {
        return Selected(Source(image, LabelsOf(remote), remote.Manifest?, false));
      }
      return Refused(Unreachable);
    }
    var bare := BareImageRef(image);
    var recipeDigest := DigestReference(bare);
    var digest := "";
    var labels: Labels := map[];
    var inspected := false;
    if recipeDigest.Some? {
      if !local.Manifest? && remote.Failed? {
        return Refused(Unreachable);
      }
      if local.Manifest? && local.digest == recipeDigest.value {
        labels, inspected := local.labels, true;
      } else if remote.Manifest? {
        labels, inspected := remote.labels, true;
      }
      return Selected(Source(image, labels, inspected, true));
    } else if local.Manifest? {
      labels, inspected, digest := local.labels, true, local.digest;
    } else if remote.Failed? {
      return Refused(Unreachable);
    } else {
      labels, inspected := LabelsOf(remote), remote.Manifest?;
      digest := ManifestDigest(remote);
    }
    if !ValidDigest(digest) {
      return Selected(Source(image, labels, inspected, false));
    }
    r := Selected(Source(RepositoryName(bare) + "@" + digest, labels, inspected, true));
  }

  lemma EmptyIsNoDigest()
    ensures !ValidDigest("")
  {}

  lemma SelectedPin(image: string, local: Inspection, remote: Inspection)
    ensures SelectedRef(image, true, local, remote) ==
      Pin(BareImageRef(image), WinningDigest(BareImageRef(image), local, remote))
  {}

  /** The signed branch up to cosign: the immutable reference to verify. */
  method ChooseSigned(image: string, local: Inspection, remote: Inspection) returns (r: Selection)
    ensures var bare := BareImageRef(image);
      var digest := WinningDigest(bare, local, remote);
      && (r.Selected? <==> IsRegistryRef(image) && ValidDigest(digest))
      && (r.Selected? ==> RightSigned(image, local, remote, r.source))
      && (r.Refused? ==> (r.error ==
            if !IsRegistryRef(image) then NotRegistry
            else if DigestReference(bare).Some? then BadRecipeDigest
            else if local.Manifest? then BadLocalDigest
            else if remote.Failed? then Unreachable else NoDigest))
  {
    hide ValidDigest, BareImageRef, IsRegistryRef, RepositoryName, SelectedRef;
    EmptyIsNoDigest();
    SelectedPin(image, local, remote);
    if !IsRegistryRef(image) {
      return Refused(NotRegistry);
    }
    var bare := BareImageRef(image);
    var recipeDigest := DigestReference(bare);
    ghost var original := bare;
    ghost var winner := WinningDigest(original, local, remote);
    PinnedDigest(original, winner);
    var labels: Labels := map[];
    var inspected := false;
    if recipeDigest.None? {
      var digest := "";
      if local.Manifest? {
        digest := local.digest;
        if !ValidDigest(digest) {
          return Refused(BadLocalDigest);
        }
        labels, inspected := local.labels, true;
      } else {
        digest := ManifestDigest(remote);
        labels, inspected := LabelsOf(remote), remote.Manifest?;
      }
      if digest == "" {
        if remote.Failed? {
          return Refused(Unreachable);
        }
        return Refused(NoDigest);
      }
      bare := RepositoryName(bare) + "@" + digest;
    } else if !ValidDigest(recipeDigest.value) {
      return Refused(BadRecipeDigest);
    } else if local.Manifest? && local.digest == recipeDigest.value {
      labels, inspected := local.labels, true;
    } else if remote.Manifest? {
      labels, inspected := remote.labels, true;
    }
    r := Selected(Source(bare, labels, inspected, false));
  }

  lemma SignedSelected(image: string, local: Inspection, remote: Inspection, s: Source)
    requires RightSigned(image, local, remote, s) && ValidDigest(WinningDigest(BareImageRef(image), local, remote))
    ensures s.ref == SelectedRef(image, true, local, remote) && s.ref != "" && Immutable(s.ref)
  {
    hide ValidDigest, BareImageRef, WinningDigest, Describes, Describing;
  }

  lemma UnsignedSelected(image: string, local: Inspection, remote: Inspection, s: Source)
    requires RightUnsigned(image, local, remote, s)
    ensures s.ref == SelectedRef(image, false, local, remote) && (image != "" ==> s.ref != "")
  {
    hide ValidDigest, BareImageRef, WinningDigest, Describes, Describing;
  }

  // ---------- cosign ----------

  const VERIFY_ATTEMPTS := 3
  const VERIFY_BACKOFF: seq<nat> := [5, 15]

  /** cosign and the clock: whether the n-th `cosign verify` succeeds, the references
      verified so far, the seconds slept and the retries warned about. */
  class Cosign {
    const verdict: nat -> bool
    var calls: seq<string>
    var sleeps: seq<nat>
    var warnings: nat

    constructor (verdict: nat -> bool)
      ensures this.verdict == verdict && calls == [] && sleeps == [] && warnings == 0
    {
      this.verdict := verdict;
      calls, sleeps, warnings := [], [], 0;
    }

    /** verifyImageSignature: up to three attempts on one reference, sleeping through
        the backoff list in between; it succeeds as soon as an attempt does. */
    method VerifyImageSignature(ref: string) returns (ok: bool)
      modifies this
      ensures var made := |calls| - |old(calls)|;
        && 1 <= made <= VERIFY_ATTEMPTS
        && calls == old(calls) + seq(made, _ => ref)
        && sleeps == old(sleeps) + VERIFY_BACKOFF[..made - 1]
        && ok == verdict(|calls| - 1)
        && (forall k | |old(calls)| <= k < |calls| - 1 :: !verdict(k))
        && (!ok ==> made == VERIFY_ATTEMPTS)
        && warnings == old(warnings) + made - (if ok || made == VERIFY_ATTEMPTS then 1 else 0)
    {
      var attempt := 1;
      while attempt <= VERIFY_ATTEMPTS
        invariant 1 <= attempt <= VERIFY_ATTEMPTS + 1
        invariant calls == old(calls) + seq(attempt - 1, _ => ref)
        invariant sleeps == old(sleeps) + VERIFY_BACKOFF[..if attempt == 1 then 0 else attempt - 2]
        invariant forall k | |old(calls)| <= k < |calls| :: !verdict(k)
        invariant warnings == old(warnings) +
          if attempt == 1 then 0 else if attempt <= VERIFY_ATTEMPTS then attempt - 1 else VERIFY_ATTEMPTS - 1
      {
        if attempt > 1 {
          sleeps := sleeps + [VERIFY_BACKOFF[attempt - 2]];
        }
        ok := verdict(|calls|);
        calls := calls + [ref];
        if ok {
          return;
        }
        if attempt < VERIFY_ATTEMPTS {
          warnings := warnings + 1;
        }
        attempt := attempt + 1;
      }
      ok := false;
    }

    /** CheckAndPinImage. A signed selection is returned only when cosign verified
        exactly that reference, pinned to a valid digest. */
    method CheckAndPinImage(image: string, keyPath: string, local: Inspection, remote: Inspection)
      returns (r: Selection)
      modifies this
      ensures keyPath == "" ==> calls == old(calls) && sleeps == old(sleeps) && warnings == old(warnings)
      ensures keyPath == "" ==> (r.Refused? <==> !local.Manifest? && remote.Failed?)
      ensures keyPath == "" && r.Selected? ==> RightUnsigned(image, local, remote, r.source)
      ensures keyPath != "" && r.Selected? ==>
        && RightSigned(image, local, remote, r.source) && Immutable(r.source.ref)
        && calls != [] && calls[|calls| - 1] == r.source.ref && verdict(|calls| - 1)
        && 1 <= |calls| - |old(calls)| <= VERIFY_ATTEMPTS
        && (forall k | |old(calls)| <= k < |calls| :: calls[k] == r.source.ref)
        && sleeps == old(sleeps) + VERIFY_BACKOFF[..|calls| - |old(calls)| - 1]
        && warnings == old(warnings) + |calls| - |old(calls)| - 1
      ensures old(warnings) <= warnings
      ensures keyPath != "" ==>
        var sound := IsRegistryRef(image) && ValidDigest(WinningDigest(BareImageRef(image), local, remote));
        && (!sound ==> r.Refused? && calls == old(calls))
        && (sound ==> (r.Selected? <==> exists k | |old(calls)| <= k < |old(calls)| + VERIFY_ATTEMPTS :: verdict(k)))
      ensures r.Selected? ==> r.source.ref == SelectedRef(image, keyPath != "", local, remote)
      ensures image != "" && r.Selected? ==> r.source.ref != ""
    {
      hide ValidDigest, BareImageRef, IsRegistryRef, WinningDigest, Describing, Describes, SelectedRef;
      hide RightSigned, RightUnsigned, Immutable;
      if keyPath == "" {
        r := ChooseUnsigned(image, local, remote);
        if r.Selected? {
          UnsignedSelected(image, local, remote, r.source);
        }
        return;
      }
      r := ChooseSigned(image, local, remote);
      if r.Selected? {
        SignedSelected(image, local, remote, r.source);
        var ok := VerifyImageSignature(r.source.ref);
        if !ok {
          r := Refused(NotVerified(r.source.ref));
        }
      }
    }
  }

  // ---------- consequences ----------

  /** With a manifest from both places the labels of the selection are always known. */
  lemma InspectedWhenBothKnown(image: string, local: Inspection, remote: Inspection, s: Source)
    requires local.Manifest? && remote.Manifest?
    requires RightUnsigned(image, local, remote, s) || RightSigned(image, local, remote, s)
    ensures s.inspected
  {
    hide BareImageRef, IsRegistryRef, WinningDigest, ValidDigest, DigestReference, RepositoryName;
  }

  /** Which image wins. The recipe's own digest stands whatever the copies say; without one the
      local copy wins over the registry's, which is asked only when there is none. */
  lemma WhichImageWins(image: string, signed: bool, local: Inspection, remote: Inspection)
    requires signed || IsRegistryRef(image)
    ensures var own, ref := DigestReference(BareImageRef(image)), SelectedRef(image, signed, local, remote);
      && (own.Some? && !signed ==> ref == image)
      && (own.Some? && signed ==> DigestReference(ref) == own)
      && (own.None? && local.Manifest? && ValidDigest(local.digest) ==> DigestReference(ref) == Some(local.digest))
      && (own.None? && !local.Manifest? && remote.Manifest? && ValidDigest(remote.digest) ==>
            DigestReference(ref) == Some(remote.digest))
      && (own.None? && ref != image ==> RepositoryName(ref) == RepositoryName(BareImageRef(image)))
  {
    hide BareImageRef, IsRegistryRef, ValidDigest, RepositoryName, DigestReference;
    var bare := BareImageRef(image);
    PinnedDigest(bare, WinningDigest(bare, local, remote));
  }

  /** A local copy with this digest is the recipe's image, as far as the recipe says. */
  predicate Agrees(image: string, signed: bool, digest: string) {
    var own := DigestReference(BareImageRef(image));
    own.None? || own.value == digest || (!signed && !IsRegistryRef(image))
  }

  /** And whose labels describe it: the local copy's, unless the recipe's own digest of a registry
      image is another one; else the registry's, if it answered; else none are known. */
  lemma WhoseLabels(image: string, signed: bool, local: Inspection, remote: Inspection, s: Source)
    requires if signed then RightSigned(image, local, remote, s) else RightUnsigned(image, local, remote, s)
    ensures
      if local.Manifest? && Agrees(image, signed, local.digest) then s.inspected && s.labels == local.labels
      else if remote.Manifest? then s.inspected && s.labels == remote.labels
      else !s.inspected && s.labels == map[]
  {
    hide BareImageRef, IsRegistryRef, ValidDigest, RepositoryName, DigestReference, SelectedRef, WinningDigest;
  }

  /** A signed recipe for "snow:latest" verifies and installs another repository. */
  lemma ShortTaggedNameIsAnotherImage(local: Inspection, remote: Inspection, s: Source)
    requires RightSigned("snow" + ":" + "latest", local, remote, s)
    ensures s.ref == "latest" + "@" + WinningDigest("latest", local, remote) && RepositoryName(s.ref) == "latest"
  {
    hide BareImageRef, RepositoryName, WinningDigest, Describes;
    ShortTagIsTakenForTheName();
    PinnedDigest("latest", WinningDigest("latest", local, remote));
  }

  /** Whenever labels are known for an installed digest, they come from an inspection
      of that very digest, or from the registry's answer for the recipe's own digest. */
  lemma LabelsDescribeTheInstalledImage(bare: string, local: Inspection, remote: Inspection)
    ensures var from := Describing(bare, local, remote);
      var digest := WinningDigest(bare, local, remote);
      from.Manifest? && ValidDigest(digest) ==>
        || from.digest == digest
        || (from == remote && DigestReference(bare) == Some(digest))
  {
    EmptyIsNoDigest();
  }
}

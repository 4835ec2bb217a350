/** Image references as strings (internal/bootcimg/verify.go, bootcimg.go). */
module ImageRefs {
  import opened Text

  // ---------- digests ----------

  predicate IsHex(c: char) {
    IsDigit(c) || 'a' <= c <= 'f'
  }

  /** sha256DigestRE. */
  predicate ValidDigest(d: string) {
    |d| == 71 && d[..7] == "sha256:" && forall k | 7 <= k < 71 :: IsHex(d[k])
  }

  /** A digest is valid exactly when it is sha256 and 64 small hexadecimal digits. */
  lemma DigestExactlyWhen(d: string)
    ensures ValidDigest(d) <==>
      "sha256:" <= d && |d[7..]| == 64 && forall c <- d[7..] :: '0' <= c <= '9' || 'a' <= c <= 'f'
  {
    if |d| >= 7 {
      assert d == d[..7] + d[7..];
      forall k | 7 <= k < |d| ensures d[k] == d[7..][k - 7] && d[k] in d[7..] {
      }
      assert "sha256:" <= d <==> d[..7] == "sha256:";
    }
  }

  /** digestReference: what follows the first '@', if there is one. */
  function DigestReference(ref: string): Option<string> {
    var (_, digest, ok) := Cut(ref, '@');
    if ok then Some(digest) else None
  }

  /** repositoryName: without a digest, else without a tag. */
  function RepositoryName(ref: string): string {
    var (repository, _, ok) := Cut(ref, '@');
    if ok then repository
    else
      var i := LastIndex(ref, ':');
      if i > LastIndex(ref, '/') then ref[..i] else ref
  }

  function Pin(ref: string, digest: string): string {
    RepositoryName(ref) + "@" + digest
  }

  lemma RepositoryNameHasNoAt(ref: string)
    ensures '@' !in RepositoryName(ref)
  {
    var (repository, _, ok) := Cut(ref, '@');
    if !ok {
      var i := LastIndex(ref, ':');
      assert i >= 0 ==> forall c <- ref[..i] :: c in ref;
    }
  }

  /** Pinning gives a reference with exactly that digest, replacing any earlier one
      and keeping the repository; pinning a pinned reference to its own digest
      changes nothing. */
  lemma PinnedDigest(ref: string, digest: string)
    ensures DigestReference(Pin(ref, digest)) == Some(digest)
    ensures RepositoryName(Pin(ref, digest)) == RepositoryName(ref)
    ensures DigestReference(ref) == Some(digest) ==> Pin(ref, digest) == ref
    ensures forall other :: Pin(Pin(ref, other), digest) == Pin(ref, digest)
  {
    RepositoryNameHasNoAt(ref);
    CutJoined(RepositoryName(ref), '@', digest);
    forall other ensures Pin(Pin(ref, other), digest) == Pin(ref, digest) {
      CutJoined(RepositoryName(ref), '@', other);
    }
  }

  // ---------- transports ----------

  /** "://" stands at position k. */
  predicate IsScheme(s: string, k: nat) {
    k + 3 <= |s| && s[k] == ':' && s[k + 1] == '/' && s[k + 2] == '/'
  }

  /** strings.Index(s, "://"). */
  function SchemeAt(s: string): (i: int)
    ensures -1 <= i && (i >= 0 ==> IsScheme(s, i))
    ensures forall k: nat | i < 0 || k < i :: !IsScheme(s, k)
  {
    if s == "" then -1
    else if IsScheme(s, 0) then 0
    else
      var j := SchemeAt(s[1..]);
      assert forall k: nat | k > 0 :: IsScheme(s, k) ==> IsScheme(s[1..], k - 1);
      if j < 0 then -1 else j + 1
  }

  /** isPortThenPath: digits up to the first '/'. */
  predicate IsPortThenPath(rest: string) {
    var (port, _, ok) := Cut(rest, '/');
    ok && port != "" && forall c <- port :: IsDigit(c)
  }

  /** Whether bareImageRef takes `s` up to its first ':' for a transport. */
  predicate HasTransport(s: string) {
    var i := Index(s, ':');
    i > 0 && '/' !in s[..i] && '.' !in s[..i] && !IsPortThenPath(s[i + 1..])
  }

  function BareImageRef(image: string): string {
    var scheme := SchemeAt(image);
    if scheme >= 0 then image[scheme + 3..]
    else if HasTransport(image) then image[Index(image, ':') + 1..]
    else image
  }

  const DOCKER := "docker://"

  const LOCAL_TRANSPORTS := {"containers-storage", "oci", "oci-archive", "dir", "docker-archive"}

  predicate IsLocal(ref: string) {
    var (prefix, _, ok) := Cut(ref, ':');
    ok && prefix in LOCAL_TRANSPORTS
  }

  predicate IsRegistryRef(ref: string) {
    if DOCKER <= ref then ref[|DOCKER|..] != "" else !IsLocal(ref) && ref != ""
  }

  /** A reference names a registry exactly when it is neither empty nor a bare docker transport,
      and no local transport stands before its first colon. */
  lemma RegistryExactlyWhen(ref: string)
    ensures IsRegistryRef(ref) <==>
      && ref != "" && ref != "docker://"
      && !("containers-storage:" <= ref) && !("oci:" <= ref) && !("oci-archive:" <= ref) && !("dir:" <= ref)
      && !("docker-archive:" <= ref)
  {
    hide Cut;
    LocalExactlyWhen(ref);
    if DOCKER <= ref {
      DockerIsNotLocal(ref);
    }
  }

  lemma LocalExactlyWhen(ref: string)
    ensures IsLocal(ref) <==>
      || "containers-storage:" <= ref || "oci:" <= ref || "oci-archive:" <= ref || "dir:" <= ref
      || "docker-archive:" <= ref
  {
    hide Cut;
    StandsBefore(ref, "containers-storage");
    StandsBefore(ref, "oci");
    StandsBefore(ref, "oci-archive");
    StandsBefore(ref, "dir");
    StandsBefore(ref, "docker-archive");
  }

  lemma DockerIsNotLocal(ref: string)
    requires DOCKER <= ref
    ensures !IsLocal(ref) && (ref[|DOCKER|..] != "" <==> ref != "docker://") && ref != ""
  {
    hide Cut;
    var rest := "//" + ref[|DOCKER|..];
    assert ref == DOCKER + ref[|DOCKER|..];
    assert ref == "docker" + [':'] + rest;
    CutJoined("docker", ':', rest);
  }

  lemma StandsBefore(ref: string, transport: string)
    requires ':' !in transport
    ensures var (prefix, _, ok) := Cut(ref, ':'); (ok && prefix == transport) <==> transport + ":" <= ref
  {
    if transport + ":" <= ref {
      var rest := ref[|transport| + 1..];
      assert ref == transport + [':'] + rest;
      CutJoined(transport, ':', rest);
    }
  }

  /** What a name before a colon is taken for: with a scheme always a transport, and without one
      unless it has a dot or a slash or the rest is a port and a path. */
  lemma BareExactly(name: string, rest: string)
    requires ':' !in name && ':' !in rest
    ensures BareImageRef(name + "://" + rest) == rest
    ensures !("//" <= rest) ==>
      BareImageRef(name + ":" + rest) ==
        if name != "" && '/' !in name && '.' !in name && !PortAndPath(rest) then rest else name + ":" + rest
    ensures BareImageRef(rest) == rest
  {
    SchemeIsAt(name, rest);
    NoScheme(name, rest);
    IndexOf(name, ':', rest);
    PortExactlyWhen(rest);
    assert (name + ":" + rest)[..|name|] == name && (name + ":" + rest)[|name| + 1..] == rest;
    assert (name + "://" + rest)[|name| + 3..] == rest;
  }

  ghost predicate PortAndPath(s: string) {
    exists n: nat :: 0 < n < |s| && s[n] == '/' && forall c <- s[..n] :: '0' <= c <= '9'
  }

  lemma PortExactlyWhen(s: string)
    ensures IsPortThenPath(s) <==> PortAndPath(s)
  {
    hide Cut;
    var (port, path, ok) := Cut(s, '/');
    if ok {
      assert s == port + ['/'] + path && s[..|port|] == port && s[|port|] == '/';
    }
    if PortAndPath(s) {
      var n: nat :| 0 < n < |s| && s[n] == '/' && forall c <- s[..n] :: '0' <= c <= '9';
      assert s == s[..n] + ['/'] + s[n + 1..];
      CutJoined(s[..n], '/', s[n + 1..]);
    }
  }

  lemma IndexOf(name: string, c: char, rest: string)
    requires c !in name
    ensures Index(name + [c] + rest, c) == |name| && name + [c] + rest == name + ([c] + rest)
    ensures c !in rest ==> Index(rest, c) < 0
  {
    assert (name + [c] + rest)[|name|] == c;
  }

  lemma SchemeIsAt(name: string, rest: string)
    requires ':' !in name
    ensures SchemeAt(name + "://" + rest) == |name|
  {
    var s := name + "://" + rest;
    assert IsScheme(s, |name|);
    forall k: nat | k < |name| ensures !IsScheme(s, k) {
      assert s[k] == name[k];
    }
  }

  lemma NoScheme(name: string, rest: string)
    requires ':' !in name && ':' !in rest
    ensures !("//" <= rest) ==> SchemeAt(name + ":" + rest) < 0
    ensures SchemeAt(rest) < 0
  {
    var s := name + ":" + rest;
    forall k: nat | k < |s| && k != |name| ensures s[k] != ':' {
      if k < |name| {
        assert s[k] == name[k];
      } else {
        assert s[k] == rest[k - |name| - 1];
      }
    }
    forall k: nat | IsScheme(s, k) ensures "//" <= rest {
      assert rest[0] == s[k + 1] && rest[1] == s[k + 2];
    }
  }

  // ---------- the reference bootc is given ----------

  /** A repository name that bareImageRef leaves alone once a digest follows it. */
  predicate Survives(repository: string) {
    && SchemeAt(repository) < 0
    && (Index(repository, ':') < 0 ==> '/' in repository || '.' in repository)
    && !HasTransport(repository)
  }

  lemma DigestText(digest: string)
    requires ValidDigest(digest)
    ensures digest == "sha256" + ":" + digest[7..]
    ensures forall k | 0 <= k < |digest| :: digest[k] != '/' && digest[k] != '@' && digest[k] != '.'
    ensures '/' !in digest && '/' !in digest[7..]
  {
    var head := digest[..7];
    assert digest == head + digest[7..];
    forall k | 0 <= k < |digest| ensures digest[k] != '/' && digest[k] != '@' && digest[k] != '.' {
      if k < 7 {
        assert digest[k] == head[k];
      } else {
        assert IsHex(digest[k]);
      }
    }
  }

  /** Neither a digest nor a tag completes a scheme. */
  lemma NoSchemeAcross(repository: string, suffix: string)
    requires '/' !in suffix
    ensures SchemeAt(repository + suffix) < 0 <==> SchemeAt(repository) < 0
  {
    var ref := repository + suffix;
    forall k: nat ensures IsScheme(ref, k) <==> IsScheme(repository, k) {
      if k + 3 <= |ref| && k + 2 >= |repository| {
        assert ref[k + 2] == suffix[k + 2 - |repository|];
      }
    }
  }

  /** What follows the first ':' of a name does not change whether the part before it is
      taken for a transport, unless it holds a '/'. */
  lemma TransportAcross(repository: string, suffix: string)
    requires ':' in repository && '/' !in suffix
    ensures Index(repository + suffix, ':') == Index(repository, ':')
    ensures HasTransport(repository + suffix) <==> HasTransport(repository)
  {
    hide Index, IsPortThenPath;
    var i := Index(repository, ':');
    var tail, ref := repository[i + 1..], repository + suffix;
    assert ref == repository[..i] + [':'] + (tail + suffix);
    IndexOfCut(repository[..i], ':', tail + suffix);
    assert ref[..i] == repository[..i] && ref[i + 1..] == tail + suffix;
    PortBefore(tail, suffix);
  }

  lemma TransportMade(transport: string, rest: string)
    requires ':' !in transport && '/' !in rest
    ensures Index(transport + ":" + rest, ':') == |transport|
    ensures HasTransport(transport + ":" + rest) <==> transport != "" && '/' !in transport && '.' !in transport
  {
    hide Index;
    var ref, i := transport + ":" + rest, |transport|;
    IndexOfCut(transport, ':', rest);
    assert ref[..i] == transport && ref[i + 1..] == rest;
  }

  /** A verified reference reaches bootc as it was verified exactly when its
      repository name would not be taken for a transport: bootc's source argument
      goes through bareImageRef once more. */
  lemma InstalledAsVerifiedExactlyWhen(repository: string, digest: string)
    requires ValidDigest(digest)
    ensures BareImageRef(repository + "@" + digest) == repository + "@" + digest <==> Survives(repository)
  {
    hide ValidDigest, Index, SchemeAt, HasTransport;
    DigestText(digest);
    var ref := repository + "@" + digest;
    assert ref == repository + ("@" + digest);
    NoSchemeAcross(repository, "@" + digest);
    if ':' in repository {
      TransportAcross(repository, "@" + digest);
    } else {
      var transport := repository + "@" + "sha256";
      assert ref == transport + ":" + digest[7..];
      TransportMade(transport, digest[7..]);
      assert ('/' in transport <==> '/' in repository) && ('.' in transport <==> '.' in repository);
      NoTransportWithoutColon(repository);
    }
  }

  lemma NoTransportWithoutColon(s: string)
    requires ':' !in s
    ensures !HasTransport(s) && Index(s, ':') < 0
  {}

  lemma IndexOfCut(a: string, c: char, b: string)
    requires c !in a
    ensures Index(a + [c] + b, c) == |a|
  {
    assert (a + [c] + b)[|a|] == c;
  }

  lemma PortBefore(tail: string, suffix: string)
    requires '/' !in suffix
    ensures IsPortThenPath(tail + suffix) <==> IsPortThenPath(tail)
  {
    var (port, path, ok) := Cut(tail, '/');
    if ok {
      assert tail + suffix == port + ['/'] + (path + suffix);
      CutJoined(port, '/', path + suffix);
    } else {
      assert '/' !in tail + suffix;
    }
  }

  /** A short image name is verified as name@digest but handed to a native bootc as
      the bare hexadecimal digest. */
  lemma ShortNameIsNotInstalledAsVerified(digest: string)
    requires ValidDigest(digest)
    ensures BareImageRef("snow" + "@" + digest) == digest[7..]
  {
    DigestText(digest);
    NoSchemeAcross("snow", "@" + digest);
    assert "snow" + ("@" + digest) == "snow" + "@" + digest;
    var transport := "snow@sha256";
    assert "snow" + "@" + digest == transport + ":" + digest[7..];
    IndexOfCut(transport, ':', digest[7..]);
    assert '/' !in digest[7..];
  }

  /** A reference pinned to a valid digest. */
  predicate Immutable(ref: string) {
    DigestReference(ref).Some? && ValidDigest(DigestReference(ref).value)
  }

  /** What bootc is told to install: a native bootc's argument is stripped once more, the
      image podman runs is not. */
  function Given(ref: string, nativeBootc: bool): string {
    if nativeBootc then BareImageRef(ref) else ref
  }

  lemma GivenAsVerifiedExactlyWhen(ref: string, nativeBootc: bool)
    requires Immutable(ref)
    ensures Given(ref, nativeBootc) == ref <==> !nativeBootc || Survives(RepositoryName(ref))
  {
    hide ValidDigest, BareImageRef, Survives;
    var digest := DigestReference(ref).value;
    assert ref == RepositoryName(ref) + "@" + digest;
    InstalledAsVerifiedExactlyWhen(RepositoryName(ref), digest);
  }

  // ---------- the repository that is inspected ----------

  /** What bareImageRef leaves of a name with a tag. */
  lemma BareTagged(repository: string, tag: string)
    requires repository != "" && SchemeAt(repository) < 0 && '/' !in tag && ':' !in tag
    ensures BareImageRef(repository + ":" + tag) ==
      if Survives(repository) then repository + ":" + tag
      else if ':' in repository then repository[Index(repository, ':') + 1..] + ":" + tag
      else tag
  {
    hide *;
    var suffix := ":" + tag;
    TagText(repository, tag);
    NoSchemeAcross(repository, suffix);
    BareUnschemed(repository + suffix);
    SurvivesParts(repository);
    if ':' in repository {
      TransportAcross(repository, suffix);
      TailBefore(repository, Index(repository, ':') + 1, suffix);
    } else {
      TransportMade(repository, tag);
      NoTransportWithoutColon(repository);
      TailBefore(repository + ":", |repository| + 1, tag);
    }
  }

  lemma TagText(repository: string, tag: string)
    requires '/' !in tag
    ensures repository + ":" + tag == repository + (":" + tag) && '/' !in ":" + tag
  {}

  lemma BareUnschemed(image: string)
    requires SchemeAt(image) < 0
    ensures HasTransport(image) ==> 0 <= Index(image, ':') < |image|
    ensures BareImageRef(image) == if HasTransport(image) then image[Index(image, ':') + 1..] else image
  {}

  lemma SurvivesParts(repository: string)
    ensures ':' in repository <==> 0 <= Index(repository, ':') < |repository|
    ensures Survives(repository) <==>
      && SchemeAt(repository) < 0 && !HasTransport(repository)
      && (':' in repository || '/' in repository || '.' in repository)
  {
    hide SchemeAt, HasTransport;
  }

  lemma TailBefore(s: string, n: nat, suffix: string)
    requires n <= |s|
    ensures (s + suffix)[n..] == s[n..] + suffix
  {}

  lemma RepositoryOfTagged(repository: string, tag: string)
    requires '@' !in repository && '@' !in tag && '/' !in tag && ':' !in tag
    ensures RepositoryName(repository + ":" + tag) == repository
  {
    hide LastIndex, Cut;
    var ref := repository + ":" + tag;
    LastColon(repository, tag);
    assert '@' !in ref;
    CutWithout(ref, '@');
    assert ref[..|repository|] == repository;
  }

  lemma LastColon(repository: string, tag: string)
    requires '/' !in tag && ':' !in tag
    ensures var ref := repository + ":" + tag;
      LastIndex(ref, ':') == |repository| && LastIndex(ref, '/') < |repository|
  {
    hide LastIndex;
    var ref, n := repository + ":" + tag, |repository|;
    assert ref[n] == ':';
    forall k | n < k < |ref| ensures ref[k] != ':' && ref[k] != '/' {
      assert ref[k] == tag[k - n - 1];
    }
  }

  lemma CutWithout(s: string, c: char)
    requires c !in s
    ensures !Cut(s, c).2
  {}

  /** The repository Firn inspects, pins and verifies is the one a tagged name means exactly
      when the name is not taken for a transport (or is its own tag). */
  lemma OwnRepositoryExactlyWhen(repository: string, tag: string)
    requires repository != "" && SchemeAt(repository) < 0 && '@' !in repository
    requires '/' !in tag && ':' !in tag && '@' !in tag
    ensures RepositoryName(BareImageRef(repository + ":" + tag)) == repository <==>
      Survives(repository) || repository == tag
  {
    hide Index, SchemeAt, LastIndex, BareImageRef, RepositoryName, Survives;
    BareTagged(repository, tag);
    if Survives(repository) {
      RepositoryOfTagged(repository, tag);
    } else if ':' in repository {
      var tail := repository[Index(repository, ':') + 1..];
      assert forall c <- tail :: c in repository;
      RepositoryOfTagged(tail, tag);
    } else {
      UntaggedIsItsName(tag);
    }
  }

  lemma NoSchemeWithoutColon(s: string)
    requires ':' !in s
    ensures SchemeAt(s) < 0
  {}

  lemma UntaggedIsItsName(name: string)
    requires ':' !in name && '@' !in name
    ensures RepositoryName(name) == name
  {}

  lemma SnowIsShort()
    ensures SchemeAt("snow") < 0 && !Survives("snow") && ':' !in "snow"
    ensures '/' !in "latest" && ':' !in "latest" && '@' !in "latest"
  {
    hide SchemeAt, HasTransport;
    assert ':' !in "snow" && '/' !in "snow" && '.' !in "snow";
    NoSchemeWithoutColon("snow");
  }

  /** The input: "snow:latest" is inspected and pinned as "latest". */
  lemma ShortTagIsTakenForTheName()
    ensures BareImageRef("snow" + ":" + "latest") == "latest"
    ensures RepositoryName(BareImageRef("snow" + ":" + "latest")) == "latest"
  {
    hide *;
    SnowIsShort();
    BareTagged("snow", "latest");
    UntaggedIsItsName("latest");
  }
}

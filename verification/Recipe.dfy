/** The recipe and its validation (internal/recipe). Decoding is left out: fields with a
    closed set of values are datatypes, with a constructor for any other text. */
module Recipe {
  import opened Text
  import opened Names
  import opened Keyboard
  import opened Formats
  import opened ImageRefs

  datatype Family = Bootc | NoFamily | OtherFamily

  datatype Filesystem = Btrfs | Xfs | Ext4 | Zfs | NoFilesystem | OtherFilesystem

  datatype Bootloader = DefaultBootloader | SystemdBoot | Grub2 | OtherBootloader

  /** `Unknown` is any other text, perhaps one that starts like the TPM modes. */
  datatype Encryption =
    | Unencrypted | LuksPassphrase | Tpm2Luks | Tpm2LuksPassphrase | NoEncryption | Unknown(tpmPrefix: bool)

  datatype Mok = Enroll | Skip | NoMok | OtherMok

  datatype Image = Image(family: Family, ref: string, targetRef: string, cosignPubKey: string)

  datatype Target = Target(disk: string, filesystem: Filesystem, btrfsSubvolumes: bool, bootloader: Bootloader)

  datatype Security = Security(
    encryption: Encryption, passphrase: string, passphraseFile: string, mok: Mok, mokPasswordFile: string)

  /** An SSH key given in the recipe, or in a file; both empty when there is none. */
  datatype KeySource = KeySource(inline: string, file: string)

  datatype User = User(
    name: string, fullname: string, passwordFile: string, passwordHash: string, groups: seq<string>, sshKey: KeySource)

  datatype SystemConfig = SystemConfig(
    hostname: string, locale: string, timezone: string, keyboard: string, flatpaks: seq<string>, coreFlatpaks: bool,
    rootKey: KeySource, user: Option<User>)

  datatype Recipe = Recipe(version: int, image: Image, target: Target, security: Security, system: SystemConfig)

  /** A decoded recipe; `mokSet` and `userSet` say that the keys were present. */
  datatype Loaded = Loaded(recipe: Recipe, mokSet: bool, userSet: bool, legacyAB: bool)

  datatype FileState = Missing | Irregular | Regular(worldReadable: bool)

  /** The machine facts validation depends on: its files, the text of those that can be read,
      and the zones of its zoneinfo directory when that is to be consulted. */
  datatype Machine = Machine(
    secureBoot: bool, tpm: bool, v1Expired: bool, files: string -> FileState, texts: string -> Option<string>,
    zones: Option<set<string>>)

  datatype Code =
    | Version | ExpiredVersion | Required | Enum | FamilyScope | Mutex | SecretFile | File | DiskPath
    | Hostname | Locale | Timezone | KeyboardSpec | SshKey | Username | Fullname | Group | Hash
    | Passphrase | MokScope | Tpm | Subvolumes

  datatype Field =
    | VersionField | FamilyField | RefField | TargetRefField | CosignField
    | DiskField | FilesystemField | SubvolumesField | BootloaderField
    | EncryptionField | PassphraseField | PassphraseFileField | MokField | MokFileField
    | HostnameField | LocaleField | TimezoneField | KeyboardField | RootKeyField | RootKeyFileField
    | UserNameField | FullnameField | PasswordField | HashField | GroupsField | UserKeyField | UserKeyFileField

  datatype Issue = Issue(code: Code, field: Field)

  // ---------- the rules ----------

  function When(broken: bool, code: Code, field: Field): seq<Issue> {
    if broken then [Issue(code, field)] else []
  }

  predicate HasSpace(s: string) {
    exists c <- s :: c == ' ' || c == '\t' || c == '\r' || c == '\n'
  }

  predicate HasBlank(s: string) {
    exists c <- s :: c == ' ' || c == '\t'
  }

  predicate GoodFile(state: FileState, secret: bool) {
    state.Regular? && !(secret && state.worldReadable)
  }

  /** checkFile: at most one issue, whose code says whether the file is a secret. */
  function FileIssues(m: Machine, path: string, field: Field, secret: bool): seq<Issue> {
    When(!GoodFile(m.files(path), secret), if secret then SecretFile else File, field)
  }

  function SelectionIssues(img: Image): seq<Issue> {
    if img.family.Bootc? then
      When(img.ref == "", Required, RefField)
      + When(img.ref != "" && HasBlank(img.ref), Enum, RefField)
      + When(img.targetRef != "" && HasSpace(img.targetRef), Enum, TargetRefField)
      + When(img.cosignPubKey != "" && !IsRegistryRef(img.ref), Enum, RefField)
    else []
  }

  function ImageIssues(m: Machine, img: Image): seq<Issue> {
    SelectionIssues(img)
    + if img.cosignPubKey != "" then FileIssues(m, img.cosignPubKey, CosignField, false) else []
  }

  predicate UnderDev(path: string) {
    "/dev/" <= path
  }

  function TargetIssues(t: Target): seq<Issue> {
    When(t.disk == "", Required, DiskField)
    + When(t.disk != "" && !UnderDev(t.disk), DiskPath, DiskField)
    + When(t.filesystem.NoFilesystem?, Required, FilesystemField)
    + When(t.filesystem.Zfs? || t.filesystem.OtherFilesystem?, Enum, FilesystemField)
    + When(t.btrfsSubvolumes && !t.filesystem.Btrfs?, Subvolumes, SubvolumesField)
    + When(t.bootloader.OtherBootloader?, Enum, BootloaderField)
  }

  predicate WantsPassphrase(e: Encryption) {
    e.LuksPassphrase? || e.Tpm2LuksPassphrase?
  }

  predicate UsesTpm(e: Encryption) {
    e.Tpm2Luks? || e.Tpm2LuksPassphrase? || (e.Unknown? && e.tpmPrefix)
  }

  function PassphraseIssues(m: Machine, s: Security): seq<Issue> {
    var inline, file := s.passphrase != "", s.passphraseFile != "";
    When(if WantsPassphrase(s.encryption) then inline == file else inline || file, Passphrase, PassphraseField)
    + if file then FileIssues(m, s.passphraseFile, PassphraseFileField, true) else []
  }

  function MokIssues(m: Machine, s: Security, mokSet: bool): seq<Issue> {
    if m.secureBoot then
      match s.mok
      case Enroll =>
        if s.mokPasswordFile == "" then [Issue(Required, MokFileField)]
        else FileIssues(m, s.mokPasswordFile, MokFileField, true)
      case Skip => When(s.mokPasswordFile != "", MokScope, MokFileField)
      case NoMok => [Issue(Required, MokField)]
      case OtherMok => [Issue(Enum, MokField)]
    else When(mokSet, MokScope, MokField)
  }

  function SecurityIssues(m: Machine, s: Security, mokSet: bool): seq<Issue> {
    When(s.encryption.NoEncryption?, Required, EncryptionField)
    + When(s.encryption.Unknown?, Enum, EncryptionField)
    + When(UsesTpm(s.encryption) && !m.tpm, Tpm, EncryptionField)
    + PassphraseIssues(m, s)
    + MokIssues(m, s, mokSet)
  }

  predicate GoodUsername(name: string) {
    ValidUsername(name) && |name| <= 32
  }

  function GroupIssues(groups: seq<string>): seq<Issue> {
    if groups == [] then []
    else GroupIssues(groups[..|groups| - 1]) + When(!ValidUsername(groups[|groups| - 1]), Group, GroupsField)
  }

  predicate BadFullname(s: string) {
    exists c <- s :: c == ':' || c == '\r' || c == '\n'
  }

  function UserIssues(m: Machine, u: User): seq<Issue> {
    var hasFile, hasHash := u.passwordFile != "", u.passwordHash != "";
    When(u.name == "", Required, UserNameField)
    + When(u.name != "" && !GoodUsername(u.name), Username, UserNameField)
    + When(BadFullname(u.fullname), Fullname, FullnameField)
    + When(hasFile == hasHash, Mutex, PasswordField)
    + (if hasFile then FileIssues(m, u.passwordFile, PasswordField, true) else [])
    + When(hasHash && u.passwordHash[0] != '$', Hash, HashField)
    + GroupIssues(u.groups)
    + KeyIssues(m, u.sshKey, UserKeyField, UserKeyFileField)
  }

  /** checkSSHKey: either way of giving keys but not both, and what a regular file holds. */
  function KeyIssues(m: Machine, key: KeySource, field: Field, fileField: Field): seq<Issue> {
    if key.inline != "" && key.file != "" then [Issue(Mutex, field)]
    else
      When(key.inline != "" && !GoodKeys(key.inline), SshKey, field)
      + if key.file == "" then [] else KeyFileIssues(m, key.file, fileField)
  }

  function KeyFileIssues(m: Machine, file: string, field: Field): seq<Issue> {
    if !m.files(file).Regular? then [Issue(File, field)]
    else
      match m.texts(file)
      case None => [Issue(File, field)]
      case Some(text) => When(!GoodKeys(text), SshKey, field)
  }

  predicate KnownZone(m: Machine, zone: string) {
    ValidTimezone(zone) && (m.zones.Some? ==> zone in m.zones.value)
  }

  function PlaceIssues(m: Machine, s: SystemConfig): seq<Issue> {
    When(s.locale != "" && !ValidLocale(s.locale), Locale, LocaleField)
    + When(s.timezone != "" && !KnownZone(m, s.timezone), Timezone, TimezoneField)
    + When(s.keyboard != "" && !ValidKeyboard(s.keyboard), KeyboardSpec, KeyboardField)
  }

  function SystemIssues(m: Machine, s: SystemConfig, userSet: bool): seq<Issue> {
    When(s.hostname == "", Required, HostnameField)
    + When(s.hostname != "" && !ValidHostname(s.hostname), Hostname, HostnameField)
    + PlaceIssues(m, s)
    + KeyIssues(m, s.rootKey, RootKeyField, RootKeyFileField)
    + if !userSet then []
      else if s.user.None? then [Issue(Required, UserNameField)]
      else UserIssues(m, s.user.value)
  }

  function VersionIssues(version: int): seq<Issue> {
    When(version != 2 && version != 1, Version, VersionField)
  }

  function FamilyIssues(family: Family): seq<Issue> {
    When(family.NoFamily?, Required, FamilyField) + When(family.OtherFamily?, Enum, FamilyField)
  }

  /** Every violation in the order in which Validate reports them. */
  function Issues(l: Loaded, m: Machine): seq<Issue> {
    var r := l.recipe;
    if l.legacyAB then [Issue(FamilyScope, FamilyField)]
    else if r.version == 1 && m.v1Expired then [Issue(ExpiredVersion, VersionField)]
    else
      VersionIssues(r.version) + FamilyIssues(r.image.family)
      + ImageIssues(m, r.image) + TargetIssues(r.target)
      + SecurityIssues(m, r.security, l.mokSet) + SystemIssues(m, r.system, l.userSet)
  }

  // ---------- the code ----------

  method CheckFile(m: Machine, path: string, field: Field, secret: bool) returns (issues: seq<Issue>)
    ensures issues == FileIssues(m, path, field, secret)
  {
    var code := if secret then SecretFile else File;
    issues := [];
    match m.files(path) {
      case Missing => issues := [Issue(code, field)];
      case Irregular => issues := [Issue(code, field)];
      case Regular(worldReadable) =>
        if secret && worldReadable {
          issues := [Issue(code, field)];
        }
    }
  }

  method ValidateImageSelection(img: Image) returns (issues: seq<Issue>)
    ensures issues == SelectionIssues(img)
  {
    hide IsRegistryRef, HasBlank, HasSpace;
    issues := [];
    if img.family.Bootc? {
      if img.ref == "" {
        issues := issues + [Issue(Required, RefField)];
      } else if HasBlank(img.ref) {
        issues := issues + [Issue(Enum, RefField)];
      }
      if img.targetRef != "" && HasSpace(img.targetRef) {
        issues := issues + [Issue(Enum, TargetRefField)];
      }
      if img.cosignPubKey != "" && !IsRegistryRef(img.ref) {
        issues := issues + [Issue(Enum, RefField)];
      }
    }
  }

  method ValidateImage(m: Machine, img: Image) returns (issues: seq<Issue>)
    ensures issues == ImageIssues(m, img)
  {
    hide FileIssues, SelectionIssues;
    issues := ValidateImageSelection(img);
    if img.cosignPubKey != "" {
      var more := CheckFile(m, img.cosignPubKey, CosignField, false);
      issues := issues + more;
    }
  }

  method ValidateTarget(t: Target) returns (issues: seq<Issue>)
    ensures issues == TargetIssues(t)
  {
    hide UnderDev;
    issues := [];
    if t.disk == "" {
      issues := issues + [Issue(Required, DiskField)];
    } else if !UnderDev(t.disk) {
      issues := issues + [Issue(DiskPath, DiskField)];
    }
    issues := ValidateFormat(t, issues);
  }

  /** validateTarget from the filesystem on. */
  method ValidateFormat(t: Target, before: seq<Issue>) returns (issues: seq<Issue>)
    ensures issues == before
      + When(t.filesystem.NoFilesystem?, Required, FilesystemField)
      + When(t.filesystem.Zfs? || t.filesystem.OtherFilesystem?, Enum, FilesystemField)
      + When(t.btrfsSubvolumes && !t.filesystem.Btrfs?, Subvolumes, SubvolumesField)
      + When(t.bootloader.OtherBootloader?, Enum, BootloaderField)
  {
    issues := before;
    match t.filesystem {
      case Btrfs =>
      case Xfs =>
      case Ext4 =>
      case NoFilesystem => issues := issues + [Issue(Required, FilesystemField)];
      case _ => issues := issues + [Issue(Enum, FilesystemField)];
    }
    if t.btrfsSubvolumes && t.filesystem != Btrfs {
      issues := issues + [Issue(Subvolumes, SubvolumesField)];
    }
    if t.bootloader.OtherBootloader? {
      issues := issues + [Issue(Enum, BootloaderField)];
    }
  }

  method ValidatePassphrase(m: Machine, s: Security, wantsPassphrase: bool) returns (issues: seq<Issue>)
    requires wantsPassphrase == WantsPassphrase(s.encryption)
    ensures issues == PassphraseIssues(m, s)
  {
    hide FileIssues;
    issues := [];
    var hasInline, hasFile := s.passphrase != "", s.passphraseFile != "";
    if (wantsPassphrase && hasInline == hasFile) || (!wantsPassphrase && (hasInline || hasFile)) {
      issues := issues + [Issue(Passphrase, PassphraseField)];
    }
    if hasFile {
      var more := CheckFile(m, s.passphraseFile, PassphraseFileField, true);
      issues := issues + more;
    }
  }

  method ValidateMok(m: Machine, s: Security, mokSet: bool) returns (issues: seq<Issue>)
    ensures issues == MokIssues(m, s, mokSet)
  {
    hide FileIssues;
    issues := [];
    if m.secureBoot {
      match s.mok {
        case Enroll =>
          if s.mokPasswordFile == "" {
            issues := [Issue(Required, MokFileField)];
          } else {
            issues := CheckFile(m, s.mokPasswordFile, MokFileField, true);
          }
        case Skip =>
          if s.mokPasswordFile != "" {
            issues := [Issue(MokScope, MokFileField)];
          }
        case NoMok => issues := [Issue(Required, MokField)];
        case OtherMok => issues := [Issue(Enum, MokField)];
      }
    } else if mokSet {
      issues := [Issue(MokScope, MokField)];
    }
  }

  method ValidateSecurity(m: Machine, s: Security, mokSet: bool) returns (issues: seq<Issue>)
    ensures issues == SecurityIssues(m, s, mokSet)
  {
    hide PassphraseIssues, MokIssues;
    issues := [];
    var wantsPassphrase := false;
    match s.encryption {
      case Unencrypted =>
      case Tpm2Luks =>
      case LuksPassphrase => wantsPassphrase := true;
      case Tpm2LuksPassphrase => wantsPassphrase := true;
      case NoEncryption => issues := [Issue(Required, EncryptionField)];
      case Unknown(_) => issues := [Issue(Enum, EncryptionField)];
    }
    if UsesTpm(s.encryption) && !m.tpm {
      issues := issues + [Issue(Tpm, EncryptionField)];
    }
    var passphrase := ValidatePassphrase(m, s, wantsPassphrase);
    var mok := ValidateMok(m, s, mokSet);
    issues := issues + passphrase + mok;
  }

  method ValidateGroups(groups: seq<string>) returns (issues: seq<Issue>)
    ensures issues == GroupIssues(groups)
  {
    hide ValidUsername;
    issues := [];
    for i := 0 to |groups|
      invariant issues == GroupIssues(groups[..i])
    {
      assert groups[..i + 1][..i] == groups[..i];
      if !ValidUsername(groups[i]) {
        issues := issues + [Issue(Group, GroupsField)];
      }
    }
    assert groups[..|groups|] == groups;
  }

  method ValidateUser(m: Machine, u: User) returns (issues: seq<Issue>)
    ensures issues == UserIssues(m, u)
  {
    hide GoodUsername, BadFullname, GroupIssues, FileIssues, KeyIssues;
    issues := [];
    if u.name == "" {
      issues := issues + [Issue(Required, UserNameField)];
    } else if !GoodUsername(u.name) {
      issues := issues + [Issue(Username, UserNameField)];
    }
    if BadFullname(u.fullname) {
      issues := issues + [Issue(Fullname, FullnameField)];
    }
    issues := ValidatePassword(m, u, issues);
    var groups := ValidateGroups(u.groups);
    var key := CheckSSHKey(m, u.sshKey, UserKeyField, UserKeyFileField);
    issues := issues + groups + key;
  }

  method CheckSSHKey(m: Machine, key: KeySource, field: Field, fileField: Field) returns (issues: seq<Issue>)
    ensures issues == KeyIssues(m, key, field, fileField)
  {
    hide GoodKeys, KeyFileIssues;
    if key.inline != "" && key.file != "" {
      return [Issue(Mutex, field)];
    }
    issues := [];
    if key.inline != "" {
      var fault := ValidateSSHAuthorizedKeys(key.inline);
      if fault.Some? {
        issues := issues + [Issue(SshKey, field)];
      }
    }
    if key.file != "" {
      var more := CheckKeyFile(m, key.file, fileField);
      issues := issues + more;
    }
  }

  method CheckKeyFile(m: Machine, file: string, field: Field) returns (issues: seq<Issue>)
    ensures issues == KeyFileIssues(m, file, field)
  {
    hide GoodKeys;
    issues := CheckFile(m, file, field, false);
    if !m.files(file).Regular? {
      return;
    }
    var text := m.texts(file);
    if text.None? {
      issues := issues + [Issue(File, field)];
      return;
    }
    var fault := ValidateSSHAuthorizedKeys(text.value);
    if fault.Some? {
      issues := issues + [Issue(SshKey, field)];
    }
  }

  /** validateSystem's locale, time zone and keyboard. */
  method ValidatePlace(m: Machine, s: SystemConfig) returns (issues: seq<Issue>)
    ensures issues == PlaceIssues(m, s)
  {
    hide ValidLocale, ValidTimezone, ValidKeyboard;
    issues := [];
    if s.locale != "" && !ValidLocale(s.locale) {
      issues := issues + [Issue(Locale, LocaleField)];
    }
    if s.timezone != "" {
      if !ValidTimezone(s.timezone) {
        issues := issues + [Issue(Timezone, TimezoneField)];
      } else if m.zones.Some? && s.timezone !in m.zones.value {
        issues := issues + [Issue(Timezone, TimezoneField)];
      }
    }
    if s.keyboard != "" && !ValidKeyboard(s.keyboard) {
      issues := issues + [Issue(KeyboardSpec, KeyboardField)];
    }
  }

  method ValidatePassword(m: Machine, u: User, before: seq<Issue>) returns (issues: seq<Issue>)
    ensures var hasFile, hasHash := u.passwordFile != "", u.passwordHash != "";
      issues == before
        + When(hasFile == hasHash, Mutex, PasswordField)
        + (if hasFile then FileIssues(m, u.passwordFile, PasswordField, true) else [])
        + When(hasHash && u.passwordHash[0] != '$', Hash, HashField)
  {
    hide FileIssues;
    issues := before;
    var hasFile, hasHash := u.passwordFile != "", u.passwordHash != "";
    if hasFile == hasHash {
      issues := issues + [Issue(Mutex, PasswordField)];
    }
    if hasFile {
      var more := CheckFile(m, u.passwordFile, PasswordField, true);
      issues := issues + more;
    }
    if hasHash && u.passwordHash[0] != '$' {
      issues := issues + [Issue(Hash, HashField)];
    }
  }

  method ValidateSystem(m: Machine, s: SystemConfig, userSet: bool) returns (issues: seq<Issue>)
    ensures issues == SystemIssues(m, s, userSet)
  {
    hide ValidHostname, PlaceIssues, KeyIssues, UserIssues;
    issues := [];
    if s.hostname == "" {
      issues := issues + [Issue(Required, HostnameField)];
    } else if !ValidHostname(s.hostname) {
      issues := issues + [Issue(Hostname, HostnameField)];
    }
    var place := ValidatePlace(m, s);
    var key := CheckSSHKey(m, s.rootKey, RootKeyField, RootKeyFileField);
    issues := issues + place + key;
    if userSet {
      if s.user.None? {
        issues := issues + [Issue(Required, UserNameField)];
      } else {
        var more := ValidateUser(m, s.user.value);
        issues := issues + more;
      }
    }
  }

  lemma IssuesOf(l: Loaded, m: Machine)
    ensures var r := l.recipe;
      Issues(l, m) ==
        if l.legacyAB then [Issue(FamilyScope, FamilyField)]
        else if r.version == 1 && m.v1Expired then [Issue(ExpiredVersion, VersionField)]
        else
          (if r.version != 2 && r.version != 1 then [Issue(Version, VersionField)] else [])
          + (match r.image.family
             case Bootc => []
             case NoFamily => [Issue(Required, FamilyField)]
             case OtherFamily => [Issue(Enum, FamilyField)])
          + ImageIssues(m, r.image) + TargetIssues(r.target)
          + SecurityIssues(m, r.security, l.mokSet) + SystemIssues(m, r.system, l.userSet)
  {
    hide ImageIssues, TargetIssues, SecurityIssues, SystemIssues;
  }

  /** Validate reports exactly the issues of the rules, and so none exactly for the
      recipes the schema describes. */
  method Validate(l: Loaded, m: Machine) returns (issues: seq<Issue>)
    ensures issues == Issues(l, m)
    ensures issues == [] <==> WellFormed(l, m)
  {
    hide *;
    ValidExactlyWhen(l, m);
    IssuesOf(l, m);
    var r := l.recipe;
    if l.legacyAB {
      return [Issue(FamilyScope, FamilyField)];
    }
    if r.version == 1 && m.v1Expired {
      return [Issue(ExpiredVersion, VersionField)];
    }
    issues := [];
    if r.version != 2 && r.version != 1 {
      issues := issues + [Issue(Version, VersionField)];
    }
    match r.image.family {
      case Bootc =>
      case NoFamily => issues := issues + [Issue(Required, FamilyField)];
      case OtherFamily => issues := issues + [Issue(Enum, FamilyField)];
    }
    var image := ValidateImage(m, r.image);
    var target := ValidateTarget(r.target);
    var security := ValidateSecurity(m, r.security, l.mokSet);
    var system := ValidateSystem(m, r.system, l.userSet);
    issues := issues + image + target + security + system;
  }

  // ---------- what a valid recipe is ----------

  predicate ValidImage(m: Machine, img: Image) {
    && img.family.Bootc? && img.ref != "" && !HasBlank(img.ref) && !HasSpace(img.targetRef)
    && (img.cosignPubKey != "" ==> IsRegistryRef(img.ref) && GoodFile(m.files(img.cosignPubKey), false))
  }

  predicate ValidTarget(t: Target) {
    && t.disk != "" && UnderDev(t.disk)
    && (t.filesystem.Btrfs? || ((t.filesystem.Xfs? || t.filesystem.Ext4?) && !t.btrfsSubvolumes))
    && !t.bootloader.OtherBootloader?
  }

  predicate ValidSecurity(m: Machine, s: Security, mokSet: bool) {
    && (s.encryption.Unencrypted? || s.encryption.Tpm2Luks? || WantsPassphrase(s.encryption))
    && (UsesTpm(s.encryption) ==> m.tpm)
    && (if WantsPassphrase(s.encryption) then (s.passphrase != "") != (s.passphraseFile != "")
        else s.passphrase == "" && s.passphraseFile == "")
    && (s.passphraseFile != "" ==> GoodFile(m.files(s.passphraseFile), true))
    && (if m.secureBoot then
          (s.mok.Enroll? && s.mokPasswordFile != "" && GoodFile(m.files(s.mokPasswordFile), true))
          || (s.mok.Skip? && s.mokPasswordFile == "")
        else !mokSet)
  }

  predicate ValidUser(m: Machine, u: User) {
    && u.name != "" && GoodUsername(u.name) && !BadFullname(u.fullname)
    && (u.passwordFile != "" <==> u.passwordHash == "")
    && (u.passwordFile != "" ==> GoodFile(m.files(u.passwordFile), true))
    && (u.passwordHash != "" ==> u.passwordHash[0] == '$')
    && (forall g <- u.groups :: ValidUsername(g))
    && ValidKey(m, u.sshKey)
  }

  /** At most one source of keys, and nothing but keys in it. */
  predicate ValidKey(m: Machine, key: KeySource) {
    && (key.inline == "" || key.file == "") && (key.inline != "" ==> GoodKeys(key.inline))
    && (key.file != "" ==> m.files(key.file).Regular? && m.texts(key.file).Some? && GoodKeys(m.texts(key.file).value))
  }

  predicate ValidSystem(m: Machine, s: SystemConfig, userSet: bool) {
    && s.hostname != "" && ValidHostname(s.hostname)
    && (s.locale == "" || ValidLocale(s.locale)) && (s.timezone == "" || KnownZone(m, s.timezone))
    && (s.keyboard == "" || ValidKeyboard(s.keyboard)) && ValidKey(m, s.rootKey)
    && (userSet ==> s.user.Some? && ValidUser(m, s.user.value))
  }

  predicate WellFormed(l: Loaded, m: Machine) {
    var r := l.recipe;
    && !l.legacyAB && (r.version == 2 || (r.version == 1 && !m.v1Expired))
    && ValidImage(m, r.image) && ValidTarget(r.target)
    && ValidSecurity(m, r.security, l.mokSet) && ValidSystem(m, r.system, l.userSet)
  }

  lemma ImageValid(m: Machine, img: Image)
    ensures FamilyIssues(img.family) == [] && ImageIssues(m, img) == [] <==> ValidImage(m, img)
  {
    hide IsRegistryRef;
  }

  lemma TargetValid(t: Target)
    ensures TargetIssues(t) == [] <==> ValidTarget(t)
  {}

  lemma SecurityValid(m: Machine, s: Security, mokSet: bool)
    ensures SecurityIssues(m, s, mokSet) == [] <==> ValidSecurity(m, s, mokSet)
  {}

  lemma {:induction false} GroupsValid(groups: seq<string>)
    ensures GroupIssues(groups) == [] <==> forall g <- groups :: ValidUsername(g)
  {
    if groups != [] {
      var shorter := groups[..|groups| - 1];
      GroupsValid(shorter);
      assert groups == shorter + [groups[|groups| - 1]];
    }
  }

  lemma KeyValid(m: Machine, key: KeySource, field: Field, fileField: Field)
    ensures KeyIssues(m, key, field, fileField) == [] <==> ValidKey(m, key)
  {
    hide GoodKeys;
  }

  lemma UserValid(m: Machine, u: User)
    ensures UserIssues(m, u) == [] <==> ValidUser(m, u)
  {
    hide GroupIssues, ValidUsername, GoodUsername, BadFullname, KeyIssues, ValidKey;
    GroupsValid(u.groups);
    KeyValid(m, u.sshKey, UserKeyField, UserKeyFileField);
  }

  lemma SystemValid(m: Machine, s: SystemConfig, userSet: bool)
    ensures SystemIssues(m, s, userSet) == [] <==> ValidSystem(m, s, userSet)
  {
    hide UserIssues, ValidUser, ValidHostname, ValidKeyboard, ValidLocale, KnownZone, KeyIssues, ValidKey;
    KeyValid(m, s.rootKey, RootKeyField, RootKeyFileField);
    if s.user.Some? {
      UserValid(m, s.user.value);
    }
  }

  /** Validate reports nothing exactly for the recipes the schema describes. */
  lemma ValidExactlyWhen(l: Loaded, m: Machine)
    ensures Issues(l, m) == [] <==> WellFormed(l, m)
  {
    hide ImageIssues, FamilyIssues, TargetIssues, SecurityIssues, SystemIssues,
      ValidImage, ValidTarget, ValidSecurity, ValidSystem;
    ImageValid(m, l.recipe.image);
    TargetValid(l.recipe.target);
    SecurityValid(m, l.recipe.security, l.mokSet);
    SystemValid(m, l.recipe.system, l.userSet);
  }

  // ---------- which issue means what ----------

  /** Of a text's characters, which the rules forbid or demand. */
  lemma TextRules(s: string)
    ensures HasBlank(s) <==> ' ' in s || '\t' in s
    ensures HasSpace(s) <==> ' ' in s || '\t' in s || '\r' in s || '\n' in s
    ensures BadFullname(s) <==> ':' in s || '\r' in s || '\n' in s
    ensures UnderDev(s) <==> |s| >= 5 && s[..5] == "/dev/"
    ensures GoodUsername(s) <==>
      && 1 <= |s| <= 32 && ('a' <= s[0] <= 'z' || s[0] == '_')
      && forall c <- s :: 'a' <= c <= 'z' || '0' <= c <= '9' || c == '_' || c == '-'
  {
    if |s| >= 5 {
      assert s == s[..5] + s[5..];
    }
  }

  predicate BreaksImage(m: Machine, img: Image, i: Issue) {
    match i.field
    case RefField =>
      img.family.Bootc?
      && if i.code.Required? then img.ref == ""
         else i.code.Enum? && (HasBlank(img.ref) || (img.cosignPubKey != "" && !IsRegistryRef(img.ref)))
    case TargetRefField => i.code.Enum? && img.family.Bootc? && HasSpace(img.targetRef)
    case CosignField => i.code.File? && img.cosignPubKey != "" && !m.files(img.cosignPubKey).Regular?
    case _ => false
  }

  predicate BreaksTarget(t: Target, i: Issue) {
    match i.field
    case DiskField =>
      if i.code.Required? then t.disk == "" else i.code.DiskPath? && t.disk != "" && !UnderDev(t.disk)
    case FilesystemField =>
      if i.code.Required? then t.filesystem.NoFilesystem?
      else i.code.Enum? && (t.filesystem.Zfs? || t.filesystem.OtherFilesystem?)
    case SubvolumesField => i.code.Subvolumes? && t.btrfsSubvolumes && !t.filesystem.Btrfs?
    case BootloaderField => i.code.Enum? && t.bootloader.OtherBootloader?
    case _ => false
  }

  /** A secret file that is missing, not regular or readable by everyone. */
  predicate Exposed(m: Machine, path: string) {
    !m.files(path).Regular? || m.files(path).worldReadable
  }

  predicate BreaksSecurity(m: Machine, s: Security, mokSet: bool, i: Issue) {
    match i.field
    case EncryptionField =>
      || (i.code.Required? && s.encryption.NoEncryption?) || (i.code.Enum? && s.encryption.Unknown?)
      || (i.code.Tpm? && !m.tpm && UsesTpm(s.encryption))
    case PassphraseField =>
      i.code.Passphrase?
      && if WantsPassphrase(s.encryption) then s.passphrase == "" <==> s.passphraseFile == ""
         else s.passphrase != "" || s.passphraseFile != ""
    case PassphraseFileField => i.code.SecretFile? && s.passphraseFile != "" && Exposed(m, s.passphraseFile)
    case MokField =>
      if m.secureBoot then (i.code.Required? && s.mok.NoMok?) || (i.code.Enum? && s.mok.OtherMok?)
      else i.code.MokScope? && mokSet
    case MokFileField =>
      m.secureBoot
      && (|| (i.code.Required? && s.mok.Enroll? && s.mokPasswordFile == "")
          || (i.code.SecretFile? && s.mok.Enroll? && s.mokPasswordFile != "" && Exposed(m, s.mokPasswordFile))
          || (i.code.MokScope? && s.mok.Skip? && s.mokPasswordFile != ""))
    case _ => false
  }

  predicate BreaksKey(m: Machine, key: KeySource, field: Field, fileField: Field, i: Issue) {
    if key.inline != "" && key.file != "" then i == Issue(Mutex, field)
    else
      || (i == Issue(SshKey, field) && key.inline != "" && !GoodKeys(key.inline))
      || (i == Issue(File, fileField) && key.file != ""
          && !(m.files(key.file).Regular? && m.texts(key.file).Some?))
      || (i == Issue(SshKey, fileField) && key.file != "" && m.files(key.file).Regular? && m.texts(key.file).Some?
          && !GoodKeys(m.texts(key.file).value))
  }

  predicate BreaksUser(m: Machine, u: User, i: Issue) {
    match i.field
    case UserNameField =>
      if i.code.Required? then u.name == "" else i.code.Username? && u.name != "" && !GoodUsername(u.name)
    case FullnameField => i.code.Fullname? && BadFullname(u.fullname)
    case PasswordField =>
      if i.code.Mutex? then u.passwordFile == "" <==> u.passwordHash == ""
      else i.code.SecretFile? && u.passwordFile != "" && Exposed(m, u.passwordFile)
    case HashField => i.code.Hash? && u.passwordHash != "" && u.passwordHash[0] != '$'
    case GroupsField => i.code.Group? && exists g <- u.groups :: !ValidUsername(g)
    case _ => BreaksKey(m, u.sshKey, UserKeyField, UserKeyFileField, i)
  }

  predicate BreaksSystem(m: Machine, s: SystemConfig, userSet: bool, i: Issue) {
    match i.field
    case HostnameField =>
      if i.code.Required? then s.hostname == "" else i.code.Hostname? && s.hostname != "" && !ValidHostname(s.hostname)
    case LocaleField => i.code.Locale? && s.locale != "" && !ValidLocale(s.locale)
    case TimezoneField => i.code.Timezone? && s.timezone != "" && !KnownZone(m, s.timezone)
    case KeyboardField => i.code.KeyboardSpec? && s.keyboard != "" && !ValidKeyboard(s.keyboard)
    case _ =>
      || BreaksKey(m, s.rootKey, RootKeyField, RootKeyFileField, i)
      || (userSet && if s.user.None? then i == Issue(Required, UserNameField) else BreaksUser(m, s.user.value, i))
  }

  /** The rule whose breach the issue reports is broken. */
  predicate Breaks(l: Loaded, m: Machine, i: Issue) {
    var r := l.recipe;
    if l.legacyAB then i == Issue(FamilyScope, FamilyField)
    else if r.version == 1 && m.v1Expired then i == Issue(ExpiredVersion, VersionField)
    else
      || (i == Issue(Version, VersionField) && r.version != 1 && r.version != 2)
      || (i == Issue(Required, FamilyField) && r.image.family.NoFamily?)
      || (i == Issue(Enum, FamilyField) && r.image.family.OtherFamily?)
      || BreaksImage(m, r.image, i) || BreaksTarget(r.target, i) || BreaksSecurity(m, r.security, l.mokSet, i)
      || BreaksSystem(m, r.system, l.userSet, i)
  }

  lemma InWhen(broken: bool, code: Code, field: Field, i: Issue)
    ensures i in When(broken, code, field) <==> broken && i == Issue(code, field)
  {}

  lemma InFile(m: Machine, path: string, field: Field, i: Issue)
    ensures i in FileIssues(m, path, field, true) <==> i == Issue(SecretFile, field) && Exposed(m, path)
  {}

  lemma ImageReported(m: Machine, img: Image, i: Issue)
    ensures i in ImageIssues(m, img) <==> BreaksImage(m, img, i)
  {
    hide IsRegistryRef;
  }

  lemma TargetReported(t: Target, i: Issue)
    ensures i in TargetIssues(t) <==> BreaksTarget(t, i)
  {
    hide UnderDev;
  }

  lemma SecurityReported(m: Machine, s: Security, mokSet: bool, i: Issue)
    ensures i in SecurityIssues(m, s, mokSet) <==> BreaksSecurity(m, s, mokSet, i)
  {
    hide PassphraseIssues, MokIssues, UsesTpm, WantsPassphrase;
    PassphraseReported(m, s, i);
    MokReported(m, s, mokSet, i);
  }

  lemma PassphraseReported(m: Machine, s: Security, i: Issue)
    ensures i in PassphraseIssues(m, s) <==>
      || (i == Issue(Passphrase, PassphraseField)
          && if WantsPassphrase(s.encryption) then s.passphrase == "" <==> s.passphraseFile == ""
             else s.passphrase != "" || s.passphraseFile != "")
      || (i == Issue(SecretFile, PassphraseFileField) && s.passphraseFile != "" && Exposed(m, s.passphraseFile))
  {
    hide WantsPassphrase;
  }

  lemma MokReported(m: Machine, s: Security, mokSet: bool, i: Issue)
    ensures i in MokIssues(m, s, mokSet) <==>
      if m.secureBoot then
        match s.mok
        case Enroll =>
          if s.mokPasswordFile == "" then i == Issue(Required, MokFileField)
          else i == Issue(SecretFile, MokFileField) && Exposed(m, s.mokPasswordFile)
        case Skip => i == Issue(MokScope, MokFileField) && s.mokPasswordFile != ""
        case NoMok => i == Issue(Required, MokField)
        case OtherMok => i == Issue(Enum, MokField)
      else i == Issue(MokScope, MokField) && mokSet
  {}

  lemma KeyReported(m: Machine, key: KeySource, field: Field, fileField: Field, i: Issue)
    ensures i in KeyIssues(m, key, field, fileField) <==> BreaksKey(m, key, field, fileField, i)
  {
    hide GoodKeys;
  }

  lemma {:induction false} GroupsReported(groups: seq<string>, i: Issue)
    ensures i in GroupIssues(groups) <==> i == Issue(Group, GroupsField) && exists g <- groups :: !ValidUsername(g)
  {
    hide ValidUsername;
    if groups != [] {
      var shorter := groups[..|groups| - 1];
      GroupsReported(shorter, i);
      assert groups == shorter + [groups[|groups| - 1]];
    }
  }

  lemma UserReported(m: Machine, u: User, i: Issue)
    ensures i in UserIssues(m, u) <==> BreaksUser(m, u, i)
  {
    hide GroupIssues, ValidUsername, GoodUsername, BadFullname, KeyIssues, BreaksKey, When, FileIssues, Exposed;
    var hasFile, hasHash := u.passwordFile != "", u.passwordHash != "";
    InWhen(u.name == "", Required, UserNameField, i);
    InWhen(u.name != "" && !GoodUsername(u.name), Username, UserNameField, i);
    InWhen(BadFullname(u.fullname), Fullname, FullnameField, i);
    InWhen(hasFile == hasHash, Mutex, PasswordField, i);
    InFile(m, u.passwordFile, PasswordField, i);
    InWhen(hasHash && u.passwordHash[0] != '$', Hash, HashField, i);
    GroupsReported(u.groups, i);
    KeyReported(m, u.sshKey, UserKeyField, UserKeyFileField, i);
    KeyFields(m, u.sshKey, UserKeyField, UserKeyFileField, i);
  }

  lemma KeyFields(m: Machine, key: KeySource, field: Field, fileField: Field, i: Issue)
    ensures BreaksKey(m, key, field, fileField, i) ==> i.field == field || i.field == fileField
  {
    hide GoodKeys;
  }

  lemma UserFields(m: Machine, u: User, i: Issue)
    ensures BreaksUser(m, u, i) ==>
      || i.field.UserNameField? || i.field.FullnameField? || i.field.PasswordField? || i.field.HashField?
      || i.field.GroupsField? || i.field.UserKeyField? || i.field.UserKeyFileField?
  {
    hide GoodUsername, BadFullname, ValidUsername, BreaksKey;
    KeyFields(m, u.sshKey, UserKeyField, UserKeyFileField, i);
  }

  lemma PlaceReported(m: Machine, s: SystemConfig, i: Issue)
    ensures i in PlaceIssues(m, s) <==>
      || (i == Issue(Locale, LocaleField) && s.locale != "" && !ValidLocale(s.locale))
      || (i == Issue(Timezone, TimezoneField) && s.timezone != "" && !KnownZone(m, s.timezone))
      || (i == Issue(KeyboardSpec, KeyboardField) && s.keyboard != "" && !ValidKeyboard(s.keyboard))
  {
    hide ValidLocale, KnownZone, ValidKeyboard;
  }

  lemma SystemReported(m: Machine, s: SystemConfig, userSet: bool, i: Issue)
    ensures i in SystemIssues(m, s, userSet) <==> BreaksSystem(m, s, userSet, i)
  {
    hide UserIssues, BreaksUser, ValidHostname, ValidKeyboard, ValidLocale, KnownZone, KeyIssues, BreaksKey, When;
    hide PlaceIssues;
    InWhen(s.hostname == "", Required, HostnameField, i);
    InWhen(s.hostname != "" && !ValidHostname(s.hostname), Hostname, HostnameField, i);
    PlaceReported(m, s, i);
    KeyReported(m, s.rootKey, RootKeyField, RootKeyFileField, i);
    KeyFields(m, s.rootKey, RootKeyField, RootKeyFileField, i);
    if s.user.Some? {
      UserReported(m, s.user.value, i);
      UserFields(m, s.user.value, i);
    }
  }

  /** Each issue is reported exactly when the rule it stands for is broken. */
  lemma ReportedExactlyWhen(l: Loaded, m: Machine, i: Issue)
    ensures i in Issues(l, m) <==> Breaks(l, m, i)
  {
    hide ImageIssues, TargetIssues, SecurityIssues, SystemIssues, BreaksImage, BreaksTarget, BreaksSecurity,
      BreaksSystem;
    ImageReported(m, l.recipe.image, i);
    TargetReported(l.recipe.target, i);
    SecurityReported(m, l.recipe.security, l.mokSet, i);
    SystemReported(m, l.recipe.system, l.userSet, i);
  }
}

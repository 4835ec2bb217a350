/** The recipe's locale, time zone and SSH key formats (internal/recipe/validate.go), each
    regular expression read as a predicate. */
module Formats {
  import opened Text

  predicate IsUpper(c: char) {
    'A' <= c <= 'Z'
  }

  predicate IsAlnumDash(c: char) {
    IsLower(c) || IsUpper(c) || IsDigit(c) || c == '-'
  }

  /** localeRe: ll_CC or lll_CC, and a codeset after a dot. */
  predicate ValidLocale(s: string) {
    var (name, codeset, hasCodeset) := Cut(s, '.');
    var n := |name|;
    && 5 <= n <= 6 && name[n - 3] == '_' && IsUpper(name[n - 2]) && IsUpper(name[n - 1])
    && (forall c <- name[..n - 3] :: IsLower(c))
    && (hasCodeset ==> codeset != "" && forall c <- codeset :: IsAlnumDash(c))
  }

  predicate IsZoneChar(c: char) {
    IsLower(c) || IsUpper(c) || c == '_' || c == '+' || c == '-'
  }

  /** timezoneRe: names joined by slashes, the first without digits. */
  predicate ValidTimezone(s: string) {
    var names := SplitOn(s, '/');
    && (forall name <- names :: name != "" && forall c <- name :: IsZoneChar(c) || IsDigit(c))
    && forall c <- names[0] :: IsZoneChar(c)
  }

  // ---------- SSH public keys ----------

  predicate IsBlank(c: char) {
    c == ' ' || c == '\t'
  }

  predicate IsKindChar(c: char) {
    IsLower(c) || IsDigit(c) || c == '-'
  }

  predicate IsKind(s: string) {
    s != "" && forall c <- s :: IsKindChar(c)
  }

  const OPENSSH := "@openssh.com"

  predicate IsKeyType(s: string) {
    s == "ssh-ed25519" || s == "ssh-rsa" || IsEcdsa(s) || IsSecurityKey(s)
  }

  /** The text up to the first blank, and the rest from it on. */
  function UntilBlank(s: string): (r: (string, string))
    ensures r.0 + r.1 == s && (r.1 != "" ==> IsBlank(r.1[0])) && forall c <- r.0 :: !IsBlank(c)
  {
    if s == "" || IsBlank(s[0]) then ("", s)
    else
      var (word, rest) := UntilBlank(s[1..]);
      ([s[0]] + word, rest)
  }

  function SkipBlanks(s: string): string {
    if s != "" && IsBlank(s[0]) then SkipBlanks(s[1..]) else s
  }

  function Unpadded(s: string, atMost: nat): string {
    if atMost > 0 && s != "" && s[|s| - 1] == '=' then Unpadded(s[..|s| - 1], atMost - 1) else s
  }

  predicate IsBlob(s: string) {
    var core := Unpadded(s, 3);
    core != "" && forall c <- core :: IsLower(c) || IsUpper(c) || IsDigit(c) || c == '+' || c == '/'
  }

  /** sshKeyRe: the key's type, its text, and perhaps a comment. */
  predicate IsKeyLine(line: string) {
    var (kind, rest) := UntilBlank(line);
    var (blob, comment) := UntilBlank(SkipBlanks(rest));
    IsKeyType(kind) && rest != "" && IsBlob(blob) && '\r' !in comment && '\n' !in comment
  }

  /** strings.TrimSuffix(s, "\n"). */
  function DropNewline(s: string): string {
    if s != "" && s[|s| - 1] == '\n' then s[..|s| - 1] else s
  }

  /** One key a line; a final newline is allowed, a blank line is not. */
  predicate GoodKeys(keys: string) {
    forall line <- SplitOn(DropNewline(keys), '\n') :: IsKeyLine(TrimSpace(line))
  }

  datatype KeyFault = NoKeys | BadLine(number: nat)

  /** ValidateSSHAuthorizedKeys reports the first line that is not a key, or that there is none. */
  method ValidateSSHAuthorizedKeys(keys: string) returns (fault: Option<KeyFault>)
    ensures fault.None? <==> GoodKeys(keys)
    ensures fault == Some(NoKeys) <==> forall line <- SplitOn(DropNewline(keys), '\n') :: TrimSpace(line) == ""
    ensures var lines := SplitOn(DropNewline(keys), '\n');
      match fault
      case None => true
      case Some(NoKeys) => true
      case Some(BadLine(n)) =>
        && 1 <= n <= |lines| && !IsKeyLine(TrimSpace(lines[n - 1]))
        && forall k | 0 <= k < n - 1 :: IsKeyLine(TrimSpace(lines[k]))
  {
    hide IsKeyLine, TrimSpace, SplitOn;
    NothingIsNoKey();
    var text := DropNewline(keys);
    if TrimSpace(text) == "" {
      BlankLines(text);
      return Some(NoKeys);
    }
    var lines := SplitOn(text, '\n');
    SomeLine(text);
    for i := 0 to |lines|
      invariant forall k | 0 <= k < i :: IsKeyLine(TrimSpace(lines[k]))
    {
      var line := TrimSpace(lines[i]);
      if line == "" || !IsKeyLine(line) {
        assert lines[i] in lines;
        return Some(BadLine(i + 1));
      }
    }
    fault := None;
  }

  lemma NothingIsNoKey()
    ensures !IsKeyLine("")
  {}

  predicate IsWhite(c: char) {
    c == ' ' || c == '\n' || c == '\t' || '\U{0B}' <= c <= '\r'
  }

  predicate AllSpace(s: string) {
    forall c <- s :: IsWhite(c)
  }

  lemma {:induction false} TrimmedAway(s: string)
    ensures TrimSpace(s) == "" <==> AllSpace(s)
    decreases |s|
  {
    if s != "" {
      if IsSpace(s[0]) {
        TrimmedAway(s[1..]);
        assert s == [s[0]] + s[1..];
      } else if IsSpace(s[|s| - 1]) {
        TrimmedAway(s[..|s| - 1]);
        assert s[0] in s && s[0] in s[..|s| - 1];
      } else {
        assert s[0] in s;
      }
    }
  }

  /** Blank text has blank lines only, and at least one. */
  lemma BlankLines(text: string)
    requires TrimSpace(text) == ""
    ensures var lines := SplitOn(text, '\n'); lines != [] && forall line <- lines :: TrimSpace(line) == ""
    ensures !(forall line <- SplitOn(text, '\n') :: IsKeyLine(TrimSpace(line)))
  {
    hide IsKeyLine, TrimSpace;
    NothingIsNoKey();
    TrimmedAway(text);
    var lines := SplitOn(text, '\n');
    forall line | line in lines ensures TrimSpace(line) == "" {
      SplitParts(text, '\n', line);
      TrimmedAway(line);
    }
    assert lines[0] in lines;
  }

  /** Text with something in it has a line with something in it. */
  lemma SomeLine(text: string)
    requires TrimSpace(text) != ""
    ensures exists line <- SplitOn(text, '\n') :: TrimSpace(line) != ""
  {
    hide TrimSpace, SplitOn;
    if forall line <- SplitOn(text, '\n') :: TrimSpace(line) == "" {
      forall line | line in SplitOn(text, '\n') ensures AllSpace(line) {
        TrimmedAway(line);
      }
      BlankText(text);
      TrimmedAway(text);
    }
  }

  lemma {:induction false} BlankText(text: string)
    requires forall line <- SplitOn(text, '\n') :: AllSpace(line)
    ensures AllSpace(text)
    decreases |text|
  {
    hide Cut;
    var (first, rest, more) := Cut(text, '\n');
    assert first in SplitOn(text, '\n');
    if more {
      assert forall line <- SplitOn(rest, '\n') :: line in SplitOn(text, '\n');
      BlankText(rest);
    }
  }

  lemma {:induction false} SplitParts(s: string, c: char, part: string)
    requires part in SplitOn(s, c)
    ensures forall x <- part :: x in s
    decreases |s|
  {
    var (first, rest, more) := Cut(s, c);
    if more && part != first {
      SplitParts(rest, c, part);
    }
  }

  /** Accepted key texts can be appended: the lines are those of both. */
  lemma AppendedKeys(a: string, b: string)
    requires GoodKeys(a) && GoodKeys(b)
    ensures GoodKeys(DropNewline(a) + "\n" + b)
  {
    hide IsKeyLine, SplitOn;
    var text := DropNewline(a) + ['\n'] + b;
    if DropNewline(b) == b {
      if b == "" {
        NothingIsNoKey();
        BlankLines("");
      } else {
        assert DropNewline(text) == text;
      }
    } else {
      assert DropNewline(text) == DropNewline(a) + ['\n'] + DropNewline(b);
    }
    assert DropNewline(text) == DropNewline(a) + ['\n'] + DropNewline(b);
    SplitJoined(DropNewline(a), '\n', DropNewline(b));
  }

  lemma SplitFirst(first: string, c: char, rest: string)
    requires c !in first
    ensures SplitOn(first + [c] + rest, c) == [first] + SplitOn(rest, c)
    ensures SplitOn(first, c) == [first]
  {
    CutJoined(first, c, rest);
  }

  lemma {:induction false} SplitJoined(a: string, c: char, b: string)
    ensures SplitOn(a + [c] + b, c) == SplitOn(a, c) + SplitOn(b, c)
    decreases |a|
  {
    hide SplitOn;
    var (first, rest, more) := Cut(a, c);
    if more {
      SplitFirst(first, c, rest);
      SplitJoined(rest, c, b);
      assert a + [c] + b == first + [c] + (rest + [c] + b);
      SplitFirst(first, c, rest + [c] + b);
    } else {
      SplitFirst(a, c, b);
    }
  }

  // ---------- the expressions as grammars ----------

  ghost predicate IsLocale(s: string, lang: string, country: string, codeset: string) {
    && s == lang + "_" + country + (if codeset == "" then "" else "." + codeset)
    && 2 <= |lang| <= 3 && |country| == 2
    && (forall c <- lang :: 'a' <= c <= 'z') && (forall c <- country :: 'A' <= c <= 'Z')
    && forall c <- codeset :: 'a' <= c <= 'z' || 'A' <= c <= 'Z' || '0' <= c <= '9' || c == '-'
  }

  /** A locale is a language, an underscore and a country, and perhaps a dot and a codeset. */
  lemma LocaleExactlyWhen(s: string)
    ensures ValidLocale(s) <==>
      exists lang: string, country: string, codeset: string :: IsLocale(s, lang, country, codeset)
  {
    hide Cut;
    if ValidLocale(s) {
      var (name, codeset, hasCodeset) := Cut(s, '.');
      var n := |name|;
      var lang, country := name[..n - 3], name[n - 2..];
      assert name == lang + "_" + country && country == [name[n - 2], name[n - 1]];
      if hasCodeset {
        assert s == name + "." + codeset;
      }
      var tail := if codeset == "" then "" else "." + codeset;
      assert s == lang + "_" + country + tail;
      forall c | c in country ensures 'A' <= c <= 'Z' {
      }
      forall c | c in lang ensures 'a' <= c <= 'z' {
        assert IsLower(c);
      }
      forall c | c in codeset ensures 'a' <= c <= 'z' || 'A' <= c <= 'Z' || '0' <= c <= '9' || c == '-' {
        assert IsAlnumDash(c);
      }
      assert IsLocale(s, lang, country, codeset);
    }
    if exists lang: string, country: string, codeset: string :: IsLocale(s, lang, country, codeset) {
      var lang: string, country: string, codeset: string :| IsLocale(s, lang, country, codeset);
      LocaleIsValid(s, lang, country, codeset);
    }
  }

  lemma LocaleIsValid(s: string, lang: string, country: string, codeset: string)
    requires IsLocale(s, lang, country, codeset)
    ensures ValidLocale(s)
  {
    hide Cut;
    var name := lang + "_" + country;
    assert name[..|name| - 3] == lang && name[|name| - 2] == country[0] && name[|name| - 1] == country[1];
    assert country[0] in country && country[1] in country;
    assert '.' !in name;
    if codeset == "" {
      assert s == name;
      CutWithout(name, '.');
    } else {
      assert s == name + ['.'] + codeset;
      CutJoined(name, '.', codeset);
    }
  }

  lemma CutWithout(s: string, c: char)
    requires c !in s
    ensures Cut(s, c) == (s, "", false)
  {}

  function Slashed(names: seq<string>): string {
    if names == [] then "" else if |names| == 1 then names[0] else names[0] + "/" + Slashed(names[1..])
  }

  ghost predicate IsZone(s: string, names: seq<string>) {
    && names != [] && s == Slashed(names) && (forall name <- names :: name != "")
    && (forall c <- names[0] :: 'a' <= c <= 'z' || 'A' <= c <= 'Z' || c == '_' || c == '+' || c == '-')
    && forall name <- names :: forall c <- name ::
         'a' <= c <= 'z' || 'A' <= c <= 'Z' || '0' <= c <= '9' || c == '_' || c == '+' || c == '-'
  }

  /** A time zone is one or more names with slashes in between, the first without digits. */
  lemma TimezoneExactlyWhen(s: string)
    ensures ValidTimezone(s) <==> exists names: seq<string> :: IsZone(s, names)
  {
    hide SplitOn, Slashed;
    SlashedSplit(s);
    if ValidTimezone(s) {
      assert IsZone(s, SplitOn(s, '/'));
    }
    if exists names: seq<string> :: IsZone(s, names) {
      var names :| IsZone(s, names);
      assert forall name <- names :: '/' !in name;
      SplitSlashed(names);
    }
  }

  lemma {:induction false} SlashedSplit(s: string)
    ensures Slashed(SplitOn(s, '/')) == s
    decreases |s|
  {
    hide Cut;
    var (first, rest, more) := Cut(s, '/');
    if more {
      SlashedSplit(rest);
      assert SplitOn(s, '/')[1..] == SplitOn(rest, '/');
    }
  }

  lemma {:induction false} SplitSlashed(names: seq<string>)
    requires names != [] && forall name <- names :: '/' !in name
    ensures SplitOn(Slashed(names), '/') == names
  {
    hide SplitOn;
    assert names[0] in names;
    SplitFirst(names[0], '/', Slashed(names[1..]));
    if |names| > 1 {
      assert forall name <- names[1..] :: name in names;
      SplitSlashed(names[1..]);
      assert names[0] + "/" + Slashed(names[1..]) == names[0] + ['/'] + Slashed(names[1..]);
    }
  }

  ghost predicate IsSmallText(s: string) {
    s != "" && forall c <- s :: 'a' <= c <= 'z' || '0' <= c <= '9' || c == '-'
  }

  /** The key types: two by name, and two families. */
  lemma KeyTypeExactlyWhen(s: string)
    ensures IsKeyType(s) <==>
      || s == "ssh-ed25519" || s == "ssh-rsa"
      || exists kind: string :: IsSmallText(kind) && (s == "ecdsa-sha2-" + kind || s == "sk-" + kind + OPENSSH)
    ensures IsKeyType(s) ==> s != "" && ' ' !in s && '\t' !in s
  {
    hide IsSmallText, IsKind;
    EcdsaKind(s);
    SecurityKeyKind(s);
  }

  predicate IsEcdsa(s: string) {
    "ecdsa-sha2-" <= s && IsKind(s[11..])
  }

  predicate IsSecurityKey(s: string) {
    "sk-" <= s && |s| >= 15 && s[|s| - 12..] == OPENSSH && IsKind(s[3..|s| - 12])
  }

  lemma EcdsaKind(s: string)
    ensures IsEcdsa(s) <==> exists kind: string :: IsSmallText(kind) && s == "ecdsa-sha2-" + kind
    ensures IsEcdsa(s) ==> s != "" && ' ' !in s && '\t' !in s
  {
    if "ecdsa-sha2-" <= s {
      assert s == "ecdsa-sha2-" + s[11..] && (IsKind(s[11..]) <==> IsSmallText(s[11..]));
    }
  }

  lemma SecurityKeyKind(s: string)
    ensures IsSecurityKey(s) <==> exists kind: string :: IsSmallText(kind) && s == "sk-" + kind + OPENSSH
    ensures IsSecurityKey(s) ==> s != "" && ' ' !in s && '\t' !in s
  {
    if IsSecurityKey(s) {
      assert s == "sk-" + s[3..|s| - 12] + OPENSSH && IsSmallText(s[3..|s| - 12]);
    }
    if exists kind: string :: IsSmallText(kind) && s == "sk-" + kind + OPENSSH {
      var kind: string :| IsSmallText(kind) && s == "sk-" + kind + OPENSSH;
      assert s[3..|s| - 12] == kind && s[|s| - 12..] == OPENSSH;
    }
  }

  ghost predicate IsKeyText(line: string, kind: string, gap: string, core: string, pad: string, comment: string) {
    && line == kind + gap + core + pad + comment && IsKeyType(kind)
    && gap != "" && (forall c <- gap :: c == ' ' || c == '\t')
    && core != "" && (forall c <- core :: 'a' <= c <= 'z' || 'A' <= c <= 'Z' || '0' <= c <= '9' || c == '+' || c == '/')
    && |pad| <= 3 && (forall c <- pad :: c == '=')
    && (comment != "" ==> comment[0] == ' ' || comment[0] == '\t') && '\r' !in comment && '\n' !in comment
  }

  /** A key line is its type, blanks, its text with at most three paddings, and perhaps a comment. */
  lemma KeyLineExactlyWhen(line: string)
    ensures IsKeyLine(line) <==>
      exists kind: string, gap: string, core: string, pad: string, comment: string ::
        IsKeyText(line, kind, gap, core, pad, comment)
  {
    hide IsKeyType, UntilBlank, SkipBlanks, Unpadded;
    if IsKeyLine(line) {
      var (kind, rest) := UntilBlank(line);
      var (blob, comment) := UntilBlank(SkipBlanks(rest));
      var gap := Skipped(rest);
      var pad := Padding(blob, 3);
      assert line == kind + gap + Unpadded(blob, 3) + pad + comment;
      assert IsKeyText(line, kind, gap, Unpadded(blob, 3), pad, comment);
    }
    if exists kind: string, gap: string, core: string, pad: string, comment: string ::
        IsKeyText(line, kind, gap, core, pad, comment) {
      var kind: string, gap: string, core: string, pad: string, comment: string :|
        IsKeyText(line, kind, gap, core, pad, comment);
      KeyTextIsLine(line, kind, gap, core, pad, comment);
    }
  }

  lemma KeyTextIsLine(line: string, kind: string, gap: string, core: string, pad: string, comment: string)
    requires IsKeyText(line, kind, gap, core, pad, comment)
    ensures IsKeyLine(line)
  {
    hide IsKeyType, UntilBlank, SkipBlanks, Unpadded;
    KeyTypeExactlyWhen(kind);
    var blob := core + pad;
    var after := blob + comment;
    assert line == kind + (gap + after);
    assert (gap + after)[0] == gap[0] && gap[0] in gap;
    assert forall c <- kind :: !IsBlank(c);
    UntilBlankOf(kind, gap + after);
    assert after[0] == core[0] && core[0] in core;
    SkipOf(gap, after);
    UntilBlankOf(blob, comment);
    assert core[|core| - 1] in core;
    UnpaddedOf(core, pad, 3);
  }

  lemma {:induction false} Skipped(s: string) returns (gap: string)
    ensures s == gap + SkipBlanks(s) && (forall c <- gap :: IsBlank(c))
    ensures s != "" && IsBlank(s[0]) ==> gap != ""
    decreases |s|
  {
    gap := "";
    if s != "" && IsBlank(s[0]) {
      gap := Skipped(s[1..]);
      gap := [s[0]] + gap;
    }
  }

  lemma {:induction false} SkipOf(gap: string, rest: string)
    requires (forall c <- gap :: IsBlank(c)) && (rest != "" ==> !IsBlank(rest[0]))
    ensures SkipBlanks(gap + rest) == rest
    decreases |gap|
  {
    if gap == "" {
      assert gap + rest == rest;
    } else {
      assert gap[0] in gap && (gap + rest)[1..] == gap[1..] + rest;
      SkipOf(gap[1..], rest);
    }
  }

  lemma {:induction false} UntilBlankOf(word: string, rest: string)
    requires (forall c <- word :: !IsBlank(c)) && (rest != "" ==> IsBlank(rest[0]))
    ensures UntilBlank(word + rest) == (word, rest)
    decreases |word|
  {
    if word == "" {
      assert word + rest == rest;
    } else {
      assert word[0] in word && (word + rest)[1..] == word[1..] + rest;
      assert forall c <- word[1..] :: c in word;
      UntilBlankOf(word[1..], rest);
      assert [word[0]] + word[1..] == word;
    }
  }

  lemma {:induction false} Padding(s: string, atMost: nat) returns (pad: string)
    ensures s == Unpadded(s, atMost) + pad && |pad| <= atMost && forall c <- pad :: c == '='
    decreases atMost
  {
    pad := "";
    if atMost > 0 && s != "" && s[|s| - 1] == '=' {
      pad := Padding(s[..|s| - 1], atMost - 1);
      pad := pad + "=";
    }
  }

  lemma {:induction false} UnpaddedOf(core: string, pad: string, atMost: nat)
    requires core != "" && core[|core| - 1] != '=' && |pad| <= atMost && forall c <- pad :: c == '='
    ensures Unpadded(core + pad, atMost) == core
    decreases |pad|
  {
    var s := core + pad;
    if pad == "" {
      assert s == core;
    } else {
      var shorter := pad[..|pad| - 1];
      assert pad[|pad| - 1] in pad && s[..|s| - 1] == core + shorter;
      forall k | 0 <= k < |shorter|
        ensures shorter[k] == '='
      {
        assert shorter[k] == pad[k] && pad[k] in pad;
      }
      UnpaddedOf(core, shorter, atMost - 1);
    }
  }
}

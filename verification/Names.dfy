/** Hostnames and usernames: the recipe's patterns (internal/recipe/validate.go) and
    the names the graphical installer suggests (gui/internal/installer/model.go). */
module Names {
  import opened Text

  predicate IsAlnum(c: char) {
    IsDigit(c) || IsLower(c) || 'A' <= c <= 'Z'
  }

  /** hostnameLabelRe within 63 characters. */
  predicate ValidLabel(l: string) {
    && 0 < |l| <= 63 && IsAlnum(l[0]) && IsAlnum(l[|l| - 1])
    && forall c <- l :: IsAlnum(c) || c == '-'
  }

  /** Every dot-separated label is valid. */
  predicate ValidLabels(h: string)
    decreases |h|
  {
    var (first, rest, more) := Cut(h, '.');
    ValidLabel(first) && (more ==> ValidLabels(rest))
  }

  predicate ValidHostname(h: string) {
    |h| <= 253 && ValidLabels(h)
  }

  predicate GoodLabel(l: string) {
    && 1 <= |l| <= 63 && l[0] != '-' && l[|l| - 1] != '-'
    && forall c <- l :: 'a' <= c <= 'z' || 'A' <= c <= 'Z' || '0' <= c <= '9' || c == '-'
  }

  function Dotted(labels: seq<string>): string {
    if labels == [] then "" else if |labels| == 1 then labels[0] else labels[0] + "." + Dotted(labels[1..])
  }

  /** A hostname is valid exactly when it is at most 253 characters of good labels with dots in
      between. */
  lemma HostnameExactlyWhen(h: string)
    ensures ValidHostname(h) <==> |h| <= 253 && exists labels: seq<string> :: IsDotted(h, labels)
  {
    if ValidLabels(h) {
      var labels := LabelsOf(h);
    }
    if exists labels: seq<string> :: IsDotted(h, labels) {
      var labels :| IsDotted(h, labels);
      DottedIsValid(labels);
    }
  }

  ghost predicate IsDotted(h: string, labels: seq<string>) {
    labels != [] && h == Dotted(labels) && forall l <- labels :: GoodLabel(l)
  }

  lemma LabelIsGood(l: string)
    ensures ValidLabel(l) <==> GoodLabel(l)
    ensures GoodLabel(l) ==> '.' !in l
  {
    if l != "" {
      assert l[0] in l && l[|l| - 1] in l;
    }
  }

  lemma LabelIsWhole(l: string)
    requires '.' !in l
    ensures Cut(l, '.') == (l, "", false)
  {}

  lemma {:induction false} LabelsOf(h: string) returns (labels: seq<string>)
    requires ValidLabels(h)
    ensures IsDotted(h, labels)
    decreases |h|
  {
    hide GoodLabel, ValidLabel;
    var (first, rest, more) := Cut(h, '.');
    LabelIsGood(first);
    labels := [first];
    if more {
      var others := LabelsOf(rest);
      labels := labels + others;
      assert labels[1..] == others;
    }
  }

  lemma {:induction false} DottedIsValid(labels: seq<string>)
    requires labels != [] && forall l <- labels :: GoodLabel(l)
    ensures ValidLabels(Dotted(labels))
    decreases |labels|
  {
    hide GoodLabel, ValidLabel, Cut;
    assert labels[0] in labels;
    LabelIsGood(labels[0]);
    if |labels| == 1 {
      LabelIsWhole(labels[0]);
    } else {
      var rest := Dotted(labels[1..]);
      assert labels[0] + "." + rest == labels[0] + ['.'] + rest;
      CutJoined(labels[0], '.', rest);
      assert forall l <- labels[1..] :: l in labels;
      DottedIsValid(labels[1..]);
    }
  }

  predicate IsNameChar(c: char) {
    IsLower(c) || IsDigit(c) || c == '_' || c == '-'
  }

  /** usernameRe. */
  predicate ValidUsername(u: string) {
    u != "" && (IsLower(u[0]) || u[0] == '_') && forall c <- u :: IsNameChar(c)
  }

  // ---------- suggested hostname ----------

  predicate IsSeparator(c: char) {
    c == '-' || c == '_' || c == ' ' || c == '.'
  }

  /** Letters and digits stay, separators become '-', the rest is dropped; a leading
      separator is dropped too. */
  function Dashed(name: string): string {
    if name == "" then ""
    else
      var kept := Dashed(name[..|name| - 1]);
      var c := name[|name| - 1];
      if IsLower(c) || IsDigit(c) then kept + [c]
      else if IsSeparator(c) && kept != "" then kept + "-"
      else kept
  }

  /** strings.Trim(s, "-"). */
  function TrimDashes(s: string): (t: string)
    ensures |t| <= |s| && (forall c <- t :: c in s)
    ensures t != "" ==> t[0] != '-' && t[|t| - 1] != '-'
    decreases |s|
  {
    if s == "" then ""
    else if s[0] == '-' then TrimDashes(s[1..])
    else if s[|s| - 1] == '-' then TrimDashes(s[..|s| - 1])
    else s
  }

  function Hostname(lowered: string): string {
    var whole := TrimDashes(Dashed(lowered));
    var h := if |whole| > 63 then TrimDashes(whole[..63]) else whole;
    if h == "" then "snosi" else h
  }

  /** sanitizeHostname, after strings.ToLower. */
  method SanitizeHostname(lowered: string) returns (h: string)
    ensures h == Hostname(lowered)
  {
    var b := "";
    for i := 0 to |lowered|
      invariant b == Dashed(lowered[..i])
    {
      assert lowered[..i + 1][..i] == lowered[..i];
      var c := lowered[i];
      if IsLower(c) || IsDigit(c) {
        b := b + [c];
      } else if IsSeparator(c) {
        if |b| > 0 {
          b := b + "-";
        }
      }
    }
    assert lowered[..|lowered|] == lowered;
    h := TrimDashes(b);
    if |h| > 63 {
      h := TrimDashes(h[..63]);
    }
    if h == "" {
      h := "snosi";
    }
  }

  /** Letters and digits are kept and, after the first of them, every separator is a dash. */
  lemma DashedBy(name: string, c: char)
    ensures Dashed(name + [c]) ==
      if 'a' <= c <= 'z' || '0' <= c <= '9' then Dashed(name) + [c]
      else if (c == '-' || c == '_' || c == ' ' || c == '.') && Dashed(name) != "" then Dashed(name) + "-"
      else Dashed(name)
  {
    assert (name + [c])[..|name|] == name;
  }

  lemma {:induction false} DashedChars(name: string)
    ensures forall c <- Dashed(name) :: IsLower(c) || IsDigit(c) || c == '-'
    ensures Dashed(name) != "" ==> Dashed(name)[0] != '-'
    ensures Dashed(name) == "" <==> forall c <- name :: !IsLower(c) && !IsDigit(c)
  {
    if name != "" {
      DashedChars(name[..|name| - 1]);
      assert name == name[..|name| - 1] + [name[|name| - 1]];
    }
  }

  /** Whatever the image's name, the suggested hostname is one the recipe accepts;
      it is the fallback only when the name has no usable character. */
  lemma SuggestedHostnameValid(lowered: string)
    ensures ValidHostname(Hostname(lowered))
    ensures if forall c <- lowered :: !IsLower(c) && !IsDigit(c) then Hostname(lowered) == "snosi"
            else Dashed(lowered) != "" && Hostname(lowered)[0] == Dashed(lowered)[0]
  {
    hide *;
    DashedChars(lowered);
    HostnameParts(lowered);
    LabelIsHostname(Hostname(lowered));
  }

  predicate IsLabelChar(c: char) {
    IsLower(c) || IsDigit(c) || c == '-'
  }

  lemma HostnameParts(lowered: string)
    ensures var h := Hostname(lowered);
      && 0 < |h| <= 63 && h[0] != '-' && h[|h| - 1] != '-' && (forall c <- h :: IsLabelChar(c))
      && if Dashed(lowered) == "" then h == "snosi" else h[0] == Dashed(lowered)[0]
  {
    hide IsLower, IsDigit, TrimDashes;
    LettersAreLower();
    DashedChars(lowered);
    var b := Dashed(lowered);
    TrimNothing();
    if b != "" {
      var whole := TrimDashes(b);
      TrimKeepsHead(b);
      TrimKeepsHead(whole[..if |whole| > 63 then 63 else |whole|]);
    }
  }

  lemma TrimNothing()
    ensures TrimDashes("") == ""
  {}

  lemma LettersAreLower()
    ensures IsLower('s') && IsLower('n') && IsLower('o') && IsLower('i')
  {}

  lemma LabelIsHostname(h: string)
    requires 0 < |h| <= 63 && h[0] != '-' && h[|h| - 1] != '-' && forall c <- h :: IsLabelChar(c)
    ensures ValidHostname(h)
  {
    assert IsLabelChar(h[0]) && IsLabelChar(h[|h| - 1]);
    forall c | c in h ensures IsAlnum(c) || c == '-' {
      assert IsLabelChar(c);
    }
    assert '.' !in h;
  }

  /** The letters and digits of a text, in order. */
  function Alnums(s: string): string {
    if s == "" then ""
    else
      var c := s[|s| - 1];
      Alnums(s[..|s| - 1]) + if IsLower(c) || IsDigit(c) then [c] else ""
  }

  lemma {:induction false} AlnumsAdd(a: string, b: string)
    ensures Alnums(a + b) == Alnums(a) + Alnums(b)
  {
    if b == "" {
      assert a + b == a;
    } else {
      AlnumsAdd(a, b[..|b| - 1]);
      assert (a + b)[..|a + b| - 1] == a + b[..|b| - 1];
    }
  }

  lemma {:induction false} DashedKeeps(name: string)
    ensures Alnums(Dashed(name)) == Alnums(name)
  {
    if name != "" {
      var kept, c := Dashed(name[..|name| - 1]), name[|name| - 1];
      DashedKeeps(name[..|name| - 1]);
      assert (kept + [c])[..|kept|] == kept && (kept + "-")[..|kept|] == kept;
    }
  }

  lemma {:induction false} TrimKeeps(s: string)
    ensures Alnums(TrimDashes(s)) == Alnums(s)
    decreases |s|
  {
    if s == "" {
    } else if s[0] == '-' {
      TrimKeeps(s[1..]);
      assert s == "-" + s[1..];
      AlnumsAdd("-", s[1..]);
    } else if s[|s| - 1] == '-' {
      TrimKeeps(s[..|s| - 1]);
    }
  }

  /** The suggested hostname keeps the name's letters and digits in order, all of them unless it
      had to be cut at 63 characters. */
  lemma HostnameKeeps(lowered: string)
    ensures Alnums(lowered) == "" ==> Hostname(lowered) == "snosi"
    ensures Alnums(lowered) != "" ==> Alnums(Hostname(lowered)) <= Alnums(lowered)
    ensures Alnums(lowered) != "" && |lowered| <= 63 ==> Alnums(Hostname(lowered)) == Alnums(lowered)
  {
    hide IsLower, IsDigit, TrimDashes, Dashed;
    var b := Dashed(lowered);
    var whole := TrimDashes(b);
    DashedKeeps(lowered);
    TrimKeeps(b);
    DashedIsShorter(lowered);
    TrimNothing();
    SomeAlnum(whole);
    DashedStart(lowered);
    if |whole| > 63 {
      TrimKeeps(whole[..63]);
      AlnumsAdd(whole[..63], whole[63..]);
      assert whole == whole[..63] + whole[63..];
      TrimKeepsHead(b);
      TrimKeepsHead(whole[..63]);
    }
  }

  lemma {:induction false} DashedIsShorter(name: string)
    ensures |Dashed(name)| <= |name|
  {
    if name != "" {
      DashedIsShorter(name[..|name| - 1]);
    }
  }

  lemma DashedStart(name: string)
    ensures Dashed(name) != "" ==> Dashed(name)[0] != '-'
    ensures Dashed(name) == "" ==> Alnums(name) == ""
    ensures Dashed(name) != "" ==> Alnums(name) != ""
  {
    hide *;
    DashedChars(name);
    DashedKeeps(name);
    var d := Dashed(name);
    SomeAlnum(d);
    if d != "" {
      assert d[0] in d;
      AlnumHead(d);
    }
  }

  lemma AlnumHead(s: string)
    requires s != "" && (IsLower(s[0]) || IsDigit(s[0]))
    ensures Alnums(s) != ""
  {
    hide IsLower, IsDigit;
    assert s == [s[0]] + s[1..];
    AlnumsAdd([s[0]], s[1..]);
    assert [s[0]][..0] == "";
  }

  lemma SomeAlnum(s: string)
    ensures s == "" ==> Alnums(s) == ""
  {}

  lemma {:induction false} TrimKeepsHead(s: string)
    requires s != "" && s[0] != '-'
    ensures TrimDashes(s) != "" && TrimDashes(s)[0] == s[0]
    decreases |s|
  {
    if s[|s| - 1] == '-' {
      TrimKeepsHead(s[..|s| - 1]);
    }
  }

  // ---------- suggested username ----------

  /** The characters a username may have, in order. */
  function NameChars(s: string): string {
    if s == "" then ""
    else NameChars(s[..|s| - 1]) + if IsNameChar(s[|s| - 1]) then [s[|s| - 1]] else ""
  }

  /** Without the digits and dashes a username must not start with. */
  function FromFirstLetter(s: string): string {
    if s == "" || IsLower(s[0]) || s[0] == '_' then s else FromFirstLetter(s[1..])
  }

  function AtMost(n: nat, s: string): string {
    if |s| > n then s[..n] else s
  }

  lemma {:induction false} FromFirstLetterSnoc(s: string, c: char)
    ensures FromFirstLetter(s + [c])
         == if FromFirstLetter(s) == "" && !IsLower(c) && c != '_' then "" else FromFirstLetter(s) + [c]
  {
    if s == "" {
      assert (s + [c])[1..] == "" && s + [c] == [c];
    } else {
      assert (s + [c])[1..] == s[1..] + [c];
      if !(IsLower(s[0]) || s[0] == '_') {
        FromFirstLetterSnoc(s[1..], c);
      }
    }
  }

  /** deriveUsername's loop over the folded, lower-cased first word: the first 32 name
      characters from the first letter or underscore on. */
  method DeriveUsername(word: string) returns (u: string)
    ensures u == AtMost(32, FromFirstLetter(NameChars(word)))
  {
    u := "";
    var i := 0;
    while i < |word|
      invariant 0 <= i <= |word| && u == FromFirstLetter(NameChars(word[..i])) && |u| < 32
    {
      var c := word[i];
      assert word[..i + 1][..i] == word[..i];
      FromFirstLetterSnoc(NameChars(word[..i]), c);
      assert NameChars(word[..i]) + "" == NameChars(word[..i]);
      if IsLower(c) || c == '_' {
        u := u + [c];
      } else if IsDigit(c) || c == '-' {
        if |u| > 0 {
          u := u + [c];
        }
      }
      i := i + 1;
      if |u| == 32 {
        NameGrows(word, i);
        return;
      }
    }
    assert word[..|word|] == word;
  }

  /** More input only appends to the name. */
  lemma {:induction false} NameGrows(word: string, i: nat)
    requires i <= |word|
    ensures FromFirstLetter(NameChars(word[..i])) <= FromFirstLetter(NameChars(word))
  {
    if i == |word| {
      assert word[..i] == word;
    } else {
      var shorter := word[..|word| - 1];
      NameGrows(shorter, i);
      assert shorter[..i] == word[..i];
      FromFirstLetterSnoc(NameChars(shorter), word[|word| - 1]);
      if !IsNameChar(word[|word| - 1]) {
        assert NameChars(shorter) + "" == NameChars(shorter);
      }
    }
  }

  lemma {:induction false} NameCharsOnly(s: string)
    ensures forall c <- NameChars(s) :: IsNameChar(c)
  {
    if s != "" {
      NameCharsOnly(s[..|s| - 1]);
    }
  }

  lemma {:induction false} FromFirstLetterValid(s: string)
    requires forall c <- s :: IsNameChar(c)
    ensures FromFirstLetter(s) == "" || ValidUsername(FromFirstLetter(s))
  {
    if s != "" && !IsLower(s[0]) && s[0] != '_' {
      FromFirstLetterValid(s[1..]);
    }
  }

  lemma NameCharsSnoc(s: string, c: char)
    ensures NameChars(s + [c]) == NameChars(s) + if IsNameChar(c) then [c] else ""
  {
    hide IsNameChar;
    assert (s + [c])[..|s|] == s;
  }

  /** The characters a username may have are kept, each and in order. */
  lemma {:induction false} NameCharsAdd(a: string, b: string)
    ensures NameChars(a + b) == NameChars(a) + NameChars(b)
    ensures |b| == 1 ==>
      NameChars(b) == if 'a' <= b[0] <= 'z' || '0' <= b[0] <= '9' || b[0] == '_' || b[0] == '-' then b else ""
  {
    hide NameChars;
    if b == "" {
      assert a + b == a;
      NoNameChars();
    } else {
      var shorter, c := b[..|b| - 1], b[|b| - 1];
      NameCharsAdd(a, shorter);
      NameCharsSnoc(a + shorter, c);
      NameCharsSnoc(shorter, c);
      NoNameChars();
      assert a + b == (a + shorter) + [c] && b == shorter + [c];
    }
  }

  lemma NoNameChars()
    ensures NameChars("") == ""
  {}

  /** And of those nothing is dropped but what stands before the first letter or underscore. */
  lemma {:induction false} FirstLetterAt(s: string) returns (k: nat)
    ensures k <= |s| && FromFirstLetter(s) == s[k..]
    ensures forall j | 0 <= j < k :: !IsLower(s[j]) && s[j] != '_'
    ensures k < |s| ==> IsLower(s[k]) || s[k] == '_'
  {
    k := 0;
    if s != "" && !IsLower(s[0]) && s[0] != '_' {
      k := FirstLetterAt(s[1..]);
      k := k + 1;
    }
  }

  /** Whatever the full name, the suggestion is empty or a username of at most 32
      characters the recipe accepts. */
  lemma SuggestedUsernameValid(word: string)
    ensures var u := AtMost(32, FromFirstLetter(NameChars(word)));
      u == "" || (ValidUsername(u) && |u| <= 32)
  {
    NameCharsOnly(word);
    FromFirstLetterValid(NameChars(word));
  }
}

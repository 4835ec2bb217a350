/** The keyboard(5) file: the printer in internal/sysconfig/locale.go and the parser in
    gui/internal/installer/session.go. */
module Keyboard {
  import opened Text
  import opened Names

  // ---------- the recipe's spec ----------

  predicate IsKeyboardField(s: string) {
    s != "" && forall c <- s :: IsNameChar(c)
  }

  /** LAYOUT[:VARIANT[:MODEL]], cut like strings.SplitN(spec, ":", 3). */
  datatype Spec = Spec(layout: string, variant: string, model: string)

  function SplitSpec(spec: string): Spec {
    var (layout, rest, hasVariant) := Cut(spec, ':');
    var (variant, model, hasModel) := Cut(rest, ':');
    Spec(layout, variant, model)
  }

  /** keyboardRe. */
  predicate ValidKeyboard(spec: string) {
    var (layout, rest, hasVariant) := Cut(spec, ':');
    var (variant, model, hasModel) := Cut(rest, ':');
    && IsKeyboardField(layout)
    && (hasVariant ==> IsKeyboardField(variant))
    && (hasVariant && hasModel ==> IsKeyboardField(model))
  }

  predicate IsField(s: string) {
    s != "" && forall c <- s :: 'a' <= c <= 'z' || '0' <= c <= '9' || c == '_' || c == '-'
  }

  ghost predicate IsSpec(spec: string, fields: seq<string>) {
    && 1 <= |fields| <= 3 && (forall f <- fields :: IsField(f))
    && spec == fields[0] + (if |fields| > 1 then ":" + fields[1] else "") + if |fields| > 2 then ":" + fields[2] else ""
  }

  /** A spec is valid exactly when it is a layout, which a variant and then a model may follow, each
      of small letters, digits, underscores and dashes. */
  lemma KeyboardExactlyWhen(spec: string)
    ensures ValidKeyboard(spec) <==> exists fields: seq<string> :: IsSpec(spec, fields)
  {
    hide Cut;
    if ValidKeyboard(spec) {
      var (layout, rest, hasVariant) := Cut(spec, ':');
      var (variant, model, hasModel) := Cut(rest, ':');
      var fields := [layout] + (if hasVariant then [variant] else []) + if hasVariant && hasModel then [model] else [];
      assert IsSpec(spec, fields);
    }
    if exists fields: seq<string> :: IsSpec(spec, fields) {
      var fields :| IsSpec(spec, fields);
      SpecIsValid(spec, fields);
    }
  }

  lemma SpecIsValid(spec: string, fields: seq<string>)
    requires IsSpec(spec, fields)
    ensures ValidKeyboard(spec)
  {
    hide Cut;
    assert fields[0] in fields;
    var last := fields[|fields| - 1];
    assert last in fields;
    CutNone(last);
    if |fields| > 1 {
      assert fields[1] in fields;
      var rest := fields[1] + if |fields| > 2 then ":" + fields[2] else "";
      assert spec == fields[0] + [':'] + rest;
      CutJoined(fields[0], ':', rest);
      if |fields| > 2 {
        assert fields[2] in fields;
        assert rest == fields[1] + [':'] + fields[2];
        CutJoined(fields[1], ':', fields[2]);
      }
    } else {
      CutNone("");
    }
  }

  lemma CutNone(s: string)
    requires ':' !in s
    ensures Cut(s, ':') == (s, "", false)
  {}

  // ---------- printing ----------

  function Quote(s: string): string {
    "\"" + s + "\""
  }

  function Line(key: string, value: string): string {
    key + "=" + Quote(value)
  }

  /** The part of the file that does not depend on the spec. */
  function Trailer(): string {
    Line("XKBOPTIONS", "") + "\n" + (Line("BACKSPACE", "guess") + "\n" + "")
  }

  /** keyboardFileContent; None for an empty layout. */
  function FileContent(spec: string): Option<string> {
    var s := SplitSpec(spec);
    if s.layout == "" then None
    else
      var model := if s.model == "" then "pc105" else s.model;
      Some(Line("XKBMODEL", model) + "\n"
        + (Line("XKBLAYOUT", s.layout) + "\n" + (Line("XKBVARIANT", s.variant) + "\n" + Trailer())))
  }

  // ---------- parsing ----------

  /** The longest line bufio.Scanner returns with its default buffer. */
  const MAX_LINE := 65535

  function DropCR(line: string): string {
    if line != "" && line[|line| - 1] == '\r' then line[..|line| - 1] else line
  }

  predicate IsQuote(c: char) {
    c == '"' || c == '\''
  }

  /** strings.Trim(s, `"'`). */
  function TrimQuotes(s: string): string
    decreases |s|
  {
    if s == "" then s
    else if IsQuote(s[0]) then TrimQuotes(s[1..])
    else if IsQuote(s[|s| - 1]) then TrimQuotes(s[..|s| - 1])
    else s
  }

  type Settings = map<string, string>

  /** One line of the file: KEY=VALUE, or nothing. */
  function Assign(vals: Settings, line: string): Settings {
    var (key, value, ok) := Cut(TrimSpace(line), '=');
    if ok then vals[key := TrimQuotes(value)] else vals
  }

  /** The settings of the lines the scanner returns; it stops at a line that is too long. */
  function Scan(vals: Settings, text: string): Settings
    decreases |text|
  {
    if text == "" then vals
    else
      var (line, rest, more) := Cut(text, '\n');
      if |line| > MAX_LINE then vals else Scan(Assign(vals, DropCR(line)), rest)
  }

  function Get(vals: Settings, key: string): string {
    if key in vals then vals[key] else ""
  }

  /** LAYOUT[:VARIANT] of the settings, the first of each when several are listed. */
  function Chosen(vals: Settings): string {
    var layout := Cut(Get(vals, "XKBLAYOUT"), ',').0;
    var variant := Cut(Get(vals, "XKBVARIANT"), ',').0;
    if layout == "" then "" else if variant != "" then layout + ":" + variant else layout
  }

  /** readXKB on an opened file's text. */
  method ReadXKB(text: string) returns (spec: string)
    ensures spec == Chosen(Scan(map[], text))
  {
    var vals: Settings := map[];
    var rest := text;
    while rest != ""
      invariant Scan(vals, rest) == Scan(map[], text)
      decreases |rest|
    {
      var (line, after, more) := Cut(rest, '\n');
      if |line| > MAX_LINE {
        break;
      }
      vals := Assign(vals, DropCR(line));
      rest := after;
    }
    spec := Chosen(vals);
  }

  // ---------- round trip ----------

  /** Text that quoting leaves alone. */
  predicate IsPlain(s: string) {
    forall c <- s :: IsNameChar(c)
  }

  predicate IsKey(key: string) {
    key != "" && forall c <- key :: 'A' <= c <= 'Z'
  }

  lemma LineAssigns(vals: Settings, key: string, value: string)
    requires IsKey(key) && IsPlain(value)
    ensures '\n' !in Line(key, value) && DropCR(Line(key, value)) == Line(key, value)
    ensures Assign(vals, Line(key, value)) == vals[key := value]
    ensures |Line(key, value)| == |key| + |value| + 3
  {
    LineKept(key, value);
    hide TrimSpace, DropCR, IsPlain, TrimQuotes;
    var line := Line(key, value);
    assert line == key + "=" + Quote(value);
    CutJoined(key, '=', Quote(value));
    QuotesDropped(value, "\"");
  }

  /** A printed line has no newline, and nothing a reader would trim. */
  lemma LineKept(key: string, value: string)
    requires IsKey(key) && IsPlain(value)
    ensures '=' !in key && '\n' !in Line(key, value)
    ensures TrimSpace(Line(key, value)) == Line(key, value) && DropCR(Line(key, value)) == Line(key, value)
  {
    hide TrimSpace;
    var line := Line(key, value);
    assert key[0] in key && line[0] == key[0] && line[|line| - 1] == '"';
  }

  lemma QuotesDropped(value: string, quote: string)
    requires IsPlain(value) && quote in {"", "\"", "'"}
    ensures TrimQuotes(quote + value + quote) == value
  {
    hide TrimQuotes, IsPlain;
    PlainStays(value);
    var q, r := quote + value + quote, value + quote;
    if quote == "" {
      assert q == value;
    } else {
      assert q[0] == quote[0] && q[1..] == r;
      TrimStep(q);
      TrimStep(r);
      if value == "" {
        assert r == quote && r[1..] == "";
      } else {
        assert r[0] == value[0] && r[|r| - 1] == quote[0] && r[..|r| - 1] == value;
      }
    }
  }

  lemma TrimStep(s: string)
    requires s != ""
    ensures IsQuote(s[0]) ==> TrimQuotes(s) == TrimQuotes(s[1..])
    ensures !IsQuote(s[0]) && IsQuote(s[|s| - 1]) ==> TrimQuotes(s) == TrimQuotes(s[..|s| - 1])
  {}

  lemma PlainStays(value: string)
    requires IsPlain(value)
    ensures TrimQuotes(value) == value && TrimQuotes("") == ""
    ensures value != "" ==> !IsQuote(value[0])
  {
    if value != "" {
      assert IsNameChar(value[0]) && IsNameChar(value[|value| - 1]);
    }
  }

  /** The scanner's turn on a line that ends in a newline. */
  lemma ScanOne(vals: Settings, line: string, rest: string)
    requires '\n' !in line && DropCR(line) == line
    ensures Scan(vals, line + "\n" + rest) == if |line| > MAX_LINE then vals else Scan(Assign(vals, line), rest)
  {
    hide Cut, Assign, DropCR;
    CutJoined(line, '\n', rest);
    assert line + "\n" + rest == line + ['\n'] + rest;
  }

  /** Scanning a printed line records it, or stops there when it is too long. */
  lemma ScanLine(vals: Settings, key: string, value: string, rest: string)
    requires IsKey(key) && IsPlain(value)
    ensures Scan(vals, Line(key, value) + "\n" + rest)
         == if |key| + |value| + 3 > MAX_LINE then vals else Scan(vals[key := value], rest)
  {
    hide *;
    LineAssigns(vals, key, value);
    ScanOne(vals, Line(key, value), rest);
  }

  /** Lines that others wrote: blanks around an assignment, a carriage return and quotes of either
      kind are dropped, a line without an assignment is passed over, and of several layouts and
      variants the first counts. */
  lemma ForeignLine(vals: Settings, key: string, value: string, quote: string, blank: string, rest: string)
    requires IsKey(key) && IsPlain(value) && quote in {"", "\"", "'"} && blank in {"", " ", "\r", " \r"}
    requires |key| + |value| <= 1000
    ensures Scan(vals, key + "=" + quote + value + quote + blank + "\n" + rest) == Scan(vals[key := value], rest)
  {
    hide Cut, DropCR, TrimSpace, TrimQuotes, IsPlain, Scan, Assign;
    var core := key + "=" + quote + value + quote;
    CoreIsBare(key, value, quote);
    BlankDropped(core, blank);
    ScanAny(vals, core + blank, rest);
    assert core == key + ['='] + (quote + value + quote);
    CutJoined(key, '=', quote + value + quote);
    QuotesDropped(value, quote);
    AssignIs(vals, DropCR(core + blank));
  }

  lemma AssignIs(vals: Settings, line: string)
    ensures var (key, value, ok) := Cut(TrimSpace(line), '=');
      Assign(vals, line) == if ok then vals[key := TrimQuotes(value)] else vals
  {}

  lemma CoreIsBare(key: string, value: string, quote: string)
    requires IsKey(key) && IsPlain(value) && quote in {"", "\"", "'"} && |key| + |value| <= 1000
    ensures var core := key + "=" + quote + value + quote;
      && core != "" && !IsSpace(core[0]) && !IsSpace(core[|core| - 1]) && core[|core| - 1] != '\r'
      && '\n' !in core && |core| <= 2000
    ensures '=' !in key
  {
    var core := key + "=" + quote + value + quote;
    assert core[0] == key[0] && key[0] in key;
    if value != "" {
      assert value[|value| - 1] in value;
    }
  }

  lemma BlankDropped(core: string, blank: string)
    requires core != "" && !IsSpace(core[0]) && !IsSpace(core[|core| - 1]) && core[|core| - 1] != '\r'
    requires blank in {"", " ", "\r", " \r"}
    ensures TrimSpace(DropCR(core + blank)) == core
  {
    var line := core + blank;
    assert core + "" == core && (core + " ")[..|core|] == core && (core + "\r")[..|core|] == core;
    assert (core + " \r")[..|core| + 1] == core + " ";
  }

  lemma ScanAny(vals: Settings, line: string, rest: string)
    requires '\n' !in line && |line| <= MAX_LINE
    ensures Scan(vals, line + "\n" + rest) == Scan(Assign(vals, DropCR(line)), rest)
  {
    hide Cut, Assign, DropCR;
    CutJoined(line, '\n', rest);
    assert line + "\n" + rest == line + ['\n'] + rest;
  }

  lemma OtherLine(vals: Settings, line: string, rest: string)
    requires '=' !in line && '\n' !in line && |line| <= MAX_LINE
    ensures Scan(vals, line + "\n" + rest) == Scan(vals, rest)
  {
    hide Cut, DropCR, TrimSpace, Scan, Assign;
    ScanAny(vals, line, rest);
    TrimsOnly(line);
    AssignIs(vals, DropCR(line));
  }

  lemma TrimsOnly(line: string)
    requires '=' !in line
    ensures '=' !in TrimSpace(DropCR(line))
  {
    hide TrimSpace;
    SpaceTrimsOnly(DropCR(line));
  }

  lemma {:induction false} SpaceTrimsOnly(s: string)
    requires '=' !in s
    ensures '=' !in TrimSpace(s)
    decreases |s|
  {
    if s == "" {
    } else if IsSpace(s[0]) {
      SpaceTrimsOnly(s[1..]);
    } else if IsSpace(s[|s| - 1]) {
      SpaceTrimsOnly(s[..|s| - 1]);
    }
  }

  lemma FirstCounts(vals: Settings, layout: string, layouts: string, variant: string, variants: string)
    requires IsPlain(layout) && IsPlain(variant)
    requires Get(vals, "XKBLAYOUT") in {layout, layout + "," + layouts}
    requires Get(vals, "XKBVARIANT") in {variant, variant + "," + variants}
    ensures Chosen(vals) == if layout == "" then "" else if variant == "" then layout else layout + ":" + variant
  {
    hide Cut;
    assert ',' !in layout && ',' !in variant;
    assert layout + "," + layouts == layout + [','] + layouts;
    assert variant + "," + variants == variant + [','] + variants;
    CutJoined(layout, ',', layouts);
    CutJoined(variant, ',', variants);
    PlainHasNoComma(layout);
    PlainHasNoComma(variant);
  }

  /** What reading back the printed file should give: the spec without its model. */
  function WithoutModel(spec: string): string {
    var s := SplitSpec(spec);
    if s.variant == "" then s.layout else s.layout + ":" + s.variant
  }

  predicate LinesFit(spec: string) {
    var s := SplitSpec(spec);
    |s.model| <= MAX_LINE - 11 && |s.layout| <= MAX_LINE - 12 && |s.variant| <= MAX_LINE - 13
  }

  lemma ScanTrailer(vals: Settings)
    ensures var after := Scan(vals, Trailer());
      Get(after, "XKBLAYOUT") == Get(vals, "XKBLAYOUT") && Get(after, "XKBVARIANT") == Get(vals, "XKBVARIANT")
  {
    hide Line, Scan, IsKey, IsNameChar;
    KeysAreKeys();
    var v1 := vals["XKBOPTIONS" := ""];
    ScanLine(vals, "XKBOPTIONS", "", Line("BACKSPACE", "guess") + "\n" + "");
    ScanLine(v1, "BACKSPACE", "guess", "");
    ScanEmpty(v1["BACKSPACE" := "guess"]);
  }

  /** The file's lines from the layout on. */
  function AfterModel(layout: string, variant: string): string {
    Line("XKBLAYOUT", layout) + "\n" + (Line("XKBVARIANT", variant) + "\n" + Trailer())
  }

  lemma ScanLayout(vals: Settings, layout: string, variant: string)
    requires IsPlain(layout) && IsPlain(variant) && vals.Keys == {"XKBMODEL"}
    ensures var after := Scan(vals, AfterModel(layout, variant));
      && Get(after, "XKBLAYOUT") == (if |layout| > MAX_LINE - 12 then "" else layout)
      && Get(after, "XKBVARIANT") == (if |layout| > MAX_LINE - 12 || |variant| > MAX_LINE - 13 then "" else variant)
  {
    hide Line, Scan, IsKey, IsPlain, Trailer;
    KeysAreKeys();
    var v2 := vals["XKBLAYOUT" := layout];
    ScanLine(vals, "XKBLAYOUT", layout, Line("XKBVARIANT", variant) + "\n" + Trailer());
    ScanLine(v2, "XKBVARIANT", variant, Trailer());
    ScanTrailer(v2["XKBVARIANT" := variant]);
  }

  lemma ScanContent(spec: string)
    requires ValidKeyboard(spec)
    ensures FileContent(spec).Some?
    ensures var s := SplitSpec(spec);
      var vals := Scan(map[], FileContent(spec).value);
      && Get(vals, "XKBLAYOUT") == (if |s.model| > MAX_LINE - 11 || |s.layout| > MAX_LINE - 12 then "" else s.layout)
      && Get(vals, "XKBVARIANT") == (if !LinesFit(spec) then "" else s.variant)
  {
    hide Line, Scan, IsKey, IsPlain, Trailer, ValidKeyboard, SplitSpec;
    var s := SplitSpec(spec);
    FieldsPlain(spec);
    KeysAreKeys();
    var model := if s.model == "" then "pc105" else s.model;
    ScanLine(map[], "XKBMODEL", model, AfterModel(s.layout, s.variant));
    ScanLayout(map["XKBMODEL" := model], s.layout, s.variant);
  }

  lemma ScanEmpty(vals: Settings)
    ensures Scan(vals, "") == vals
  {}

  lemma KeysAreKeys()
    ensures IsKey("XKBMODEL") && IsKey("XKBLAYOUT") && IsKey("XKBVARIANT") && IsKey("XKBOPTIONS") && IsKey("BACKSPACE")
    ensures IsPlain("pc105") && IsPlain("guess") && IsPlain("")
  {}

  lemma FieldsPlain(spec: string)
    requires ValidKeyboard(spec)
    ensures var s := SplitSpec(spec);
      IsPlain(s.layout) && IsPlain(s.variant) && IsPlain(s.model) && s.layout != ""
  {
    var (layout, rest, hasVariant) := Cut(spec, ':');
    var (variant, model, hasModel) := Cut(rest, ':');
  }

  lemma PlainHasNoComma(s: string)
    requires IsPlain(s)
    ensures Cut(s, ',').0 == s
  {
    assert ',' !in s;
  }

  /** For every spec the recipe accepts, the file is written and reading it back gives
      LAYOUT[:VARIANT], exactly when the three printed lines fit the reader's limit. */
  lemma RoundTripExactlyWhen(spec: string)
    requires ValidKeyboard(spec)
    ensures FileContent(spec).Some?
    ensures Chosen(Scan(map[], FileContent(spec).value)) == WithoutModel(spec) <==> LinesFit(spec)
  {
    hide Scan, FileContent, ValidKeyboard, IsPlain;
    var s := SplitSpec(spec);
    FieldsPlain(spec);
    ScanContent(spec);
    KeysAreKeys();
    PlainHasNoComma(s.layout);
    PlainHasNoComma(s.variant);
    PlainHasNoComma("");
    if |s.model| <= MAX_LINE - 11 && |s.layout| <= MAX_LINE - 12 && |s.variant| > MAX_LINE - 13 {
      assert |WithoutModel(spec)| > |s.layout|;
    }
  }

  /** The input: a valid layout of this many letters is written and reads back as nothing. */
  lemma LongLayoutIsLost()
    ensures var spec := seq(MAX_LINE - 11, _ => 'a');
      && ValidKeyboard(spec) && FileContent(spec).Some? && WithoutModel(spec) == spec
      && Chosen(Scan(map[], FileContent(spec).value)) != spec
  {
    hide Scan, FileContent;
    var spec := seq(MAX_LINE - 11, _ => 'a');
    assert spec[0] == 'a' && forall c <- spec :: c == 'a';
    assert ':' !in spec;
    RoundTripExactlyWhen(spec);
  }
}

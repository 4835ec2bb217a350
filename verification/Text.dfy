/** The few string and list helpers the models share, with Go's `strings` and
    `strconv` meaning on sequences of characters. */
module Text {
  datatype Option<+T> = None | Some(value: T)

  /** strings.IndexByte: the first position of `c` in `s`, or -1. */
  function Index(s: string, c: char): (i: int)
    ensures -1 <= i < |s|
    ensures i >= 0 ==> s[i] == c && c !in s[..i]
    ensures i < 0 ==> c !in s
  {
    if s == [] then -1
    else if s[0] == c then 0
    else
      var j := Index(s[1..], c);
      assert s == [s[0]] + s[1..];
      if j < 0 then -1 else (assert s[..j + 1] == [s[0]] + s[1..][..j]; j + 1)
  }

  /** strings.LastIndexByte: the last position of `c` in `s`, or -1. */
  function LastIndex(s: string, c: char): (i: int)
    ensures -1 <= i < |s|
    ensures i >= 0 ==> s[i] == c && c !in s[i + 1..]
    ensures i < 0 ==> c !in s
  {
    if s == [] then -1
    else if s[|s| - 1] == c then |s| - 1
    else
      var t := s[..|s| - 1];
      var j := LastIndex(t, c);
      assert s == t + [s[|s| - 1]];
      if j < 0 then -1 else (assert s[j + 1..] == t[j + 1..] + [s[|s| - 1]]; j)
  }

  /** strings.Cut at the first `c`: the part before it, the part after it and
      whether there was one. */
  function Cut(s: string, c: char): (r: (string, string, bool))
    ensures r.2 <==> c in s
    ensures r.2 ==> s == r.0 + [c] + r.1 && c !in r.0
    ensures !r.2 ==> r.0 == s && r.1 == ""
  {
    var i := Index(s, c);
    if i < 0 then (s, "", false) else (s[..i], s[i + 1..], true)
  }

  /** Cutting where the separator was put gives the two parts back. */
  lemma CutJoined(a: string, c: char, b: string)
    requires c !in a
    ensures Cut(a + [c] + b, c) == (a, b, true)
  {
    var s := a + [c] + b;
    assert s[|a|] == c;
    assert Index(s, c) == |a|;
    assert s[..|a|] == a && s[|a| + 1..] == b;
  }

  /** strings.Split: never empty. */
  function SplitOn(s: string, c: char): (parts: seq<string>)
    ensures parts != []
    decreases |s|
  {
    var (first, rest, more) := Cut(s, c);
    [first] + if more then SplitOn(rest, c) else []
  }

  /** strings.TrimPrefix. */
  function TrimPrefix(s: string, prefix: string): string {
    if prefix <= s then s[|prefix|..] else s
  }

  predicate IsDigit(c: char) {
    '0' <= c <= '9'
  }

  predicate IsLower(c: char) {
    'a' <= c <= 'z'
  }

  /** Decimal rendering of a non-negative number (fmt %d). */
  function Itoa(n: nat): (s: string)
    ensures s != "" && forall c <- s :: IsDigit(c)
  {
    var digit := ['0' + (n % 10) as char];
    if n < 10 then digit else Itoa(n / 10) + digit
  }

  /** strconv.Atoi on an unsigned number: None unless every character is a digit. */
  function Atoi(s: string): Option<nat> {
    if s == "" then None
    else
      var last := s[|s| - 1];
      if !IsDigit(last) then None
      else
        var digit := (last - '0') as nat;
        if |s| == 1 then Some(digit)
        else
          match Atoi(s[..|s| - 1])
          case None => None
          case Some(high) => Some(high * 10 + digit)
  }

  /** Reading back a rendered number gives the number. */
  lemma {:induction false} AtoiItoa(n: nat)
    ensures Atoi(Itoa(n)) == Some(n)
  {
    var digit := ['0' + (n % 10) as char];
    if n < 10 {
      assert Itoa(n) == digit;
    } else {
      AtoiItoa(n / 10);
      var s := Itoa(n);
      assert s[..|s| - 1] == Itoa(n / 10);
      assert s[|s| - 1] == digit[0];
    }
  }

  predicate IsSpace(c: char) {
    c == ' ' || c == '\t' || c == '\n' || c == '\r' || c == '\U{0B}' || c == '\U{0C}'
  }

  /** strings.TrimSpace on ASCII text. */
  function TrimSpace(s: string): (t: string)
    ensures t != "" ==> !IsSpace(t[0]) && !IsSpace(t[|t| - 1])
    ensures s != "" && !IsSpace(s[0]) && !IsSpace(s[|s| - 1]) ==> t == s
    decreases |s|
  {
    if s == "" then s
    else if IsSpace(s[0]) then TrimSpace(s[1..])
    else if IsSpace(s[|s| - 1]) then TrimSpace(s[..|s| - 1])
    else s
  }

  /** strings.TrimRight(s, "\n"). */
  function TrimNewlines(s: string): (t: string)
    ensures t <= s && (forall k | |t| <= k < |s| :: s[k] == '\n') && (t != "" ==> t[|t| - 1] != '\n')
  {
    if s != "" && s[|s| - 1] == '\n' then TrimNewlines(s[..|s| - 1]) else s
  }

  /** Each element once, at its first occurrence. */
  function Distinct(s: seq<string>): (r: seq<string>)
    ensures forall x :: x in r <==> x in s
    ensures forall i, j | 0 <= i < j < |r| :: r[i] != r[j]
  {
    if s == [] then []
    else
      var n := |s| - 1;
      var r := Distinct(s[..n]);
      assert s == s[..n] + [s[n]];
      if s[n] in r then r else r + [s[n]]
  }

  lemma DistinctSnoc(s: seq<string>, x: string)
    ensures Distinct(s + [x]) == if x in s then Distinct(s) else Distinct(s) + [x]
  {
    assert (s + [x])[..|s|] == s;
  }

  /** `Distinct` keeps the order in which its elements are first seen. */
  lemma {:induction false} DistinctFirstSeen(s: seq<string>, i: nat, j: nat)
    requires i < j < |Distinct(s)|
    ensures exists k: nat :: k < |s| && s[k] == Distinct(s)[i] && Distinct(s)[j] !in s[..k + 1]
  {
    var n := |s| - 1;
    var t := s[..n];
    var r := Distinct(t);
    assert s == t + [s[n]];
    if j < |r| {
      DistinctFirstSeen(t, i, j);
      var k: nat :| k < |t| && t[k] == r[i] && r[j] !in t[..k + 1];
      assert s[..k + 1] == t[..k + 1];
    } else {
      assert r[i] in t && s[n] !in t;
      var k: nat :| k < |t| && t[k] == r[i];
      assert s[..k + 1] == t[..k + 1];
    }
  }
}

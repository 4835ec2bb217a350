/** The NDJSON stream (internal/progress/ndjson.go): one tagged JSON object a line. What
    json.Marshal makes of an event, and how a write ends, are inputs. */
module Ndjson {
  import opened Text
  import opened Progress

  const MAX_LINE := 65536

  /** A write that failed may have put out some of its bytes. */
  datatype WriteOutcome = Written | Failed(bytes: nat)

  datatype EmitFault = AfterTerminal | Unmarshalable | TooLong | WriteFailed

  /** The text of a JSON object on one line. */
  predicate IsObject(text: string) {
    |text| >= 2 && text[0] == '{' && text[|text| - 1] == '}' && '\n' !in text
  }

  function Head(): string {
    "{\"event\":\""
  }

  /** The payload with the event tag spliced in as its first field. */
  function Line(tag: string, payload: string): string
    requires IsObject(payload)
  {
    Head() + tag + (if payload == "{}" then "\"}" else "\"," + payload[1..]) + "\n"
  }

  /** The tag stands first, under the key event, and the payload's own fields follow it. */
  lemma TagIsFirst(tag: string, payload: string)
    requires IsObject(payload)
    ensures var line := Line(tag, payload);
      && "{\"event\":\"" + tag + "\"" <= line
      && (payload != "{}" ==> line == "{\"event\":\"" + tag + "\"," + payload[1..] + "\n")
      && (payload == "{}" ==> line == "{\"event\":\"" + tag + "\"}\n")
  {}

  /** One call of Emit: the event, its payload if it marshals, and the write's outcome. */
  datatype Call = Call(event: Event, payload: Option<string>, outcome: WriteOutcome)

  predicate Marshalled(c: Call) {
    c.payload.Some? ==> IsObject(c.payload.value)
  }

  function LineOf(c: Call): string
    requires c.payload.Some? && IsObject(c.payload.value)
  {
    Line(Kind(c.event), c.payload.value)
  }

  datatype Stream = Stream(out: string, terminal: bool)

  function Taken(s: string, n: nat): string {
    if n < |s| then s[..n] else s
  }

  function Emitted(s: Stream, c: Call): (Stream, Option<EmitFault>)
    requires Marshalled(c)
  {
    if s.terminal then (s, Some(AfterTerminal))
    else if c.payload.None? then (s, Some(Unmarshalable))
    else if |LineOf(c)| > MAX_LINE then (s, Some(TooLong))
    else
      match c.outcome
      case Failed(bytes) => (s.(out := s.out + Taken(LineOf(c), bytes)), Some(WriteFailed))
      case Written => (Stream(s.out + LineOf(c), IsTerminal(c.event)), None)
  }

  class Emitter {
    var out: string
    var terminal: bool

    ghost function View(): Stream
      reads this
    {
      Stream(out, terminal)
    }

    constructor ()
      ensures View() == Stream("", false)
    {
      out, terminal := "", false;
    }

    method Emit(c: Call) returns (fault: Option<EmitFault>)
      requires Marshalled(c)
      modifies this
      ensures (View(), fault) == Emitted(old(View()), c)
    {
      hide Kind, Head;
      if terminal {
        return Some(AfterTerminal);
      }
      if c.payload.None? {
        return Some(Unmarshalable);
      }
      var line := Head() + Kind(c.event);
      if c.payload.value != "{}" {
        line := line + ("\"," + c.payload.value[1..]);
      } else {
        line := line + "\"}";
      }
      line := line + "\n";
      assert line == LineOf(c);
      if |line| > MAX_LINE {
        return Some(TooLong);
      }
      match c.outcome {
        case Failed(bytes) =>
          out := out + Taken(line, bytes);
          return Some(WriteFailed);
        case Written =>
          out := out + line;
      }
      if IsTerminal(c.event) {
        terminal := true;
      }
      fault := None;
    }
  }

  // ---------- one line ----------

  /** Reading a line back: the tag up to the next quote, and the payload without it. */
  function Unspliced(line: string): Option<(string, string)> {
    if |line| < |Head()| + 3 || line[..|Head()|] != Head() then None
    else
      var (tag, rest, ok) := Cut(line[|Head()|..], '"');
      if !ok || |rest| < 2 then None
      else if rest[0] == '}' then Some((tag, "{}"))
      else Some((tag, "{" + rest[1..|rest| - 1]))
  }

  /** What follows the tag in a line. */
  function Rest(payload: string): string
    requires IsObject(payload)
  {
    (if payload == "{}" then "}" else "," + payload[1..]) + "\n"
  }

  lemma LineParts(tag: string, payload: string)
    requires IsObject(payload)
    ensures Line(tag, payload) == Head() + (tag + ['"'] + Rest(payload))
  {
    hide Head, IsObject;
  }

  lemma RestParts(payload: string)
    requires IsObject(payload)
    ensures var rest := Rest(payload);
      && |rest| >= 2 && IsLine(rest)
      && payload == if rest[0] == '}' then "{}" else "{" + rest[1..|rest| - 1]
  {
    var rest := Rest(payload);
    if payload != "{}" {
      assert rest == "," + payload[1..] + "\n";
      assert rest[1..|rest| - 1] == payload[1..];
      assert forall c <- payload[1..] :: c in payload;
      assert rest[..|rest| - 1] == "," + payload[1..];
    }
  }

  lemma LineAppend(start: string, rest: string)
    requires '\n' !in start && IsLine(rest)
    ensures IsLine(start + rest)
  {
    assert (start + rest)[..|start + rest| - 1] == start + rest[..|rest| - 1];
  }

  lemma TaggedLine(tag: string, rest: string)
    requires '\n' !in tag && IsLine(rest)
    ensures IsLine(Head() + (tag + ['"'] + rest))
  {
    hide *;
    HeadHasNoNewline();
    LineAppend(tag + ['"'], rest);
    LineAppend(Head(), tag + ['"'] + rest);
  }

  lemma UnsplicedParts(tag: string, rest: string)
    requires '"' !in tag && |rest| >= 2
    ensures Unspliced(Head() + (tag + ['"'] + rest))
         == Some((tag, if rest[0] == '}' then "{}" else "{" + rest[1..|rest| - 1]))
  {
    hide Head, Cut;
    var line := Head() + (tag + ['"'] + rest);
    assert line[|Head()|..] == tag + ['"'] + rest;
    assert line[..|Head()|] == Head();
    CutJoined(tag, '"', rest);
  }

  /** Splicing loses nothing, and a line ends in its only newline. */
  lemma LineRoundTrip(tag: string, payload: string)
    requires IsObject(payload) && '"' !in tag && '\n' !in tag
    ensures Unspliced(Line(tag, payload)) == Some((tag, payload))
    ensures IsLine(Line(tag, payload))
  {
    hide *;
    LineParts(tag, payload);
    RestParts(payload);
    UnsplicedParts(tag, Rest(payload));
    TaggedLine(tag, Rest(payload));
  }

  lemma HeadHasNoNewline()
    ensures '\n' !in Head()
  {}

  /** The event kinds need no escaping. */
  lemma KindIsPlain(e: Event)
    ensures '"' !in Kind(e) && '\n' !in Kind(e)
  {}

  predicate IsLine(s: string) {
    s != "" && s[|s| - 1] == '\n' && '\n' !in s[..|s| - 1]
  }

  // ---------- the stream ----------

  function Concat(lines: seq<string>): string {
    if lines == [] then "" else lines[0] + Concat(lines[1..])
  }

  /** The complete lines of a text, newlines included, and what follows the last. */
  function Split(text: string): (seq<string>, string)
    decreases |text|
  {
    var (first, rest, ok) := Cut(text, '\n');
    if !ok then ([], text)
    else
      var (lines, tail) := Split(rest);
      ([first + "\n"] + lines, tail)
  }

  lemma SplitOne(first: string, rest: string)
    requires '\n' !in first
    ensures Split(first + ['\n'] + rest) == ([first + "\n"] + Split(rest).0, Split(rest).1)
  {
    hide Cut;
    CutJoined(first, '\n', rest);
  }

  lemma SplitNone(tail: string)
    requires '\n' !in tail
    ensures Split(Concat([]) + tail) == ([], tail)
  {
    assert Concat([]) + tail == tail;
  }

  lemma SplitLine(line: string, more: string, tail: string)
    requires IsLine(line)
    ensures Split(line + more + tail) == ([line] + Split(more + tail).0, Split(more + tail).1)
  {
    hide Split, Cut;
    var first := line[..|line| - 1];
    assert line == first + ['\n'];
    assert line + more + tail == first + ['\n'] + (more + tail);
    SplitOne(first, more + tail);
  }

  /** Whole lines and a rest without a newline are found again exactly. */
  lemma {:induction false} SplitConcat(lines: seq<string>, tail: string)
    requires (forall l <- lines :: IsLine(l)) && '\n' !in tail
    ensures Split(Concat(lines) + tail) == (lines, tail)
  {
    hide Split, IsLine;
    if lines == [] {
      SplitNone(tail);
    } else {
      assert lines[0] in lines;
      SplitLine(lines[0], Concat(lines[1..]), tail);
      assert forall l <- lines[1..] :: l in lines;
      SplitConcat(lines[1..], tail);
      assert lines == [lines[0]] + lines[1..];
    }
  }

  lemma {:induction false} ConcatSnoc(lines: seq<string>, line: string)
    ensures Concat(lines + [line]) == Concat(lines) + line
  {
    if lines == [] {
      assert [line][1..] == [];
    } else {
      ConcatSnoc(lines[1..], line);
      assert (lines + [line])[1..] == lines[1..] + [line];
    }
  }

  ghost predicate AllMarshalled(calls: seq<Call>) {
    forall c <- calls :: Marshalled(c)
  }

  /** What the calls leave when the caller stops at the first error, as Env.Emit does: the
      stream, the lines accepted and the error. */
  function Sent(calls: seq<Call>): (Stream, seq<string>, Option<EmitFault>)
    requires forall c <- calls :: Marshalled(c)
    decreases |calls|
  {
    if calls == [] then (Stream("", false), [], None)
    else
      var n := |calls| - 1;
      assert calls[n] in calls;
      var (s, lines, fault) := Sent(calls[..n]);
      if fault.Some? then (s, lines, fault)
      else
        var (t, refused) := Emitted(s, calls[n]);
        (t, if refused.None? then lines + [LineOf(calls[n])] else lines, refused)
  }

  /** The accepted lines and what a failed write put out of this call's. */
  ghost predicate CutShort(out: string, lines: seq<string>, c: Call)
    requires Marshalled(c)
  {
    c.outcome.Failed? && c.payload.Some? && out == Concat(lines) + Taken(LineOf(c), c.outcome.bytes)
  }

  /** One more call on a stream of whole lines. */
  lemma OneMoreCall(s: Stream, lines: seq<string>, c: Call)
    requires Marshalled(c) && s.out == Concat(lines) && forall l <- lines :: IsLine(l) && |l| <= MAX_LINE
    ensures var (t, fault) := Emitted(s, c);
      && (fault.None? ==> c.payload.Some? && t.out == Concat(lines + [LineOf(c)]))
      && (fault.None? ==> forall l <- lines + [LineOf(c)] :: IsLine(l) && |l| <= MAX_LINE)
      && (fault.Some? && fault != Some(WriteFailed) ==> t.out == Concat(lines))
      && (fault == Some(WriteFailed) ==> CutShort(t.out, lines, c))
  {
    hide Kind, Line, Concat, IsLine;
    if c.payload.Some? {
      KindIsPlain(c.event);
      LineRoundTrip(Kind(c.event), c.payload.value);
      ConcatSnoc(lines, LineOf(c));
    }
  }

  /** A caller that stops at the first error leaves exactly the accepted events' lines, each
      within the limit, and after a failed write at most the start of one more; a reader of
      complete lines sees exactly the accepted ones. */
  lemma {:induction false} StreamIsWholeLines(calls: seq<Call>)
    requires AllMarshalled(calls)
    ensures var (s, lines, fault) := Sent(calls);
      && (forall l <- lines :: IsLine(l) && |l| <= MAX_LINE)
      && (fault != Some(WriteFailed) ==> s.out == Concat(lines) && Split(s.out) == (lines, ""))
      && (fault == Some(WriteFailed) ==> exists c <- calls :: CutShort(s.out, lines, c))
    decreases |calls|
  {
    hide Emitted, LineOf, Split, IsLine, CutShort, Concat;
    var (s, lines, fault) := Sent(calls);
    if calls == [] {
      NoLines();
    } else {
      var n := |calls| - 1;
      assert calls[n] in calls;
      assert forall c <- calls[..n] :: c in calls;
      StreamIsWholeLines(calls[..n]);
      var (before, shorter, earlier) := Sent(calls[..n]);
      if earlier.None? {
        OneMoreCall(before, shorter, calls[n]);
      }
    }
    if fault != Some(WriteFailed) {
      SplitConcat(lines, "");
      assert Concat(lines) + "" == Concat(lines);
    }
  }

  lemma NoLines()
    ensures Concat([]) == ""
  {}

  /** A call whose line is written whole. */
  ghost predicate Good(c: Call)
    requires Marshalled(c)
  {
    c.payload.Some? && |LineOf(c)| <= 65536 && c.outcome.Written?
  }

  /** Why the first call that is not accepted is not. */
  function Reason(c: Call, ended: bool): EmitFault
    requires Marshalled(c)
  {
    if ended then AfterTerminal
    else if c.payload.None? then Unmarshalable
    else if |LineOf(c)| > 65536 then TooLong
    else WriteFailed
  }

  /** The lines are those of the first calls, each good and none but the last of them terminal; the
      call after them, if there is one, is the first that is bad or comes after a terminal event. */
  lemma {:induction false} SentAreTheFirst(calls: seq<Call>) returns (k: nat)
    requires AllMarshalled(calls)
    ensures k <= |calls| && forall i | 0 <= i < |calls| :: Marshalled(calls[i])
    ensures var (s, lines, fault) := Sent(calls);
      && |lines| == k && (forall i | 0 <= i < k :: Good(calls[i]) && lines[i] == LineOf(calls[i]))
      && (forall i | 0 <= i < k - 1 :: !IsTerminal(calls[i].event))
      && (s.terminal <==> k > 0 && IsTerminal(calls[k - 1].event))
      && (fault.None? <==> k == |calls|)
      && (k < |calls| ==> fault == Some(Reason(calls[k], s.terminal)) && (s.terminal || !Good(calls[k])))
    decreases |calls|
  {
    hide LineOf;
    forall i | 0 <= i < |calls| ensures Marshalled(calls[i]) {
      assert calls[i] in calls;
    }
    k := 0;
    if calls != [] {
      var n := |calls| - 1;
      assert forall c <- calls[..n] :: c in calls;
      k := SentAreTheFirst(calls[..n]);
      if k == n && Sent(calls).2.None? {
        k := n + 1;
      }
    }
  }

  /** What a caller that goes on after every error leaves. */
  function After(calls: seq<Call>): Stream
    requires forall c <- calls :: Marshalled(c)
    decreases |calls|
  {
    if calls == [] then Stream("", false)
    else
      var n := |calls| - 1;
      assert calls[n] in calls;
      assert forall c <- calls[..n] :: c in calls;
      Emitted(After(calls[..n]), calls[n]).0
  }

  /** The call at `k` was accepted, and its event ends the stream. */
  ghost predicate EndsAt(calls: seq<Call>, k: nat)
    requires AllMarshalled(calls)
  {
    && k < |calls| && IsTerminal(calls[k].event)
    && assert calls[k] in calls && forall c <- calls[..k] :: c in calls;
    Emitted(After(calls[..k]), calls[k]).1.None?
  }

  /** Over any calls, whatever the caller makes of their errors: once a terminal event was accepted
      every further call is refused and leaves the stream as it is; and before, none is refused for
      that. */
  lemma {:induction false} NothingAfterTheEnd(calls: seq<Call>, c: Call)
    requires AllMarshalled(calls) && Marshalled(c)
    ensures After(calls).terminal <==> exists k: nat :: EndsAt(calls, k)
    ensures (exists k: nat :: EndsAt(calls, k)) ==> Emitted(After(calls), c) == (After(calls), Some(AfterTerminal))
    ensures Emitted(After(calls), c).1 == Some(AfterTerminal) ==> exists k: nat :: EndsAt(calls, k)
    decreases |calls|
  {
    hide LineOf, Line, Kind;
    if calls != [] {
      var n := |calls| - 1;
      var before := calls[..n];
      assert calls[n] in calls && forall b <- before :: b in calls;
      NothingAfterTheEnd(before, calls[n]);
      EndsSooner(calls);
      assert EndsAt(calls, n) <==> IsTerminal(calls[n].event) && Emitted(After(before), calls[n]).1.None?;
      assert After(calls).terminal <==> After(before).terminal || EndsAt(calls, n);
      if exists k: nat :: EndsAt(before, k) {
        var k: nat :| EndsAt(before, k);
        assert EndsAt(calls, k);
      }
      if exists k: nat :: EndsAt(calls, k) {
        var k: nat :| EndsAt(calls, k);
        assert k == n || EndsAt(before, k);
      }
    }
  }

  lemma EndsSooner(calls: seq<Call>)
    requires AllMarshalled(calls) && calls != []
    ensures AllMarshalled(calls[..|calls| - 1])
    ensures forall k: nat :: k < |calls| - 1 ==> (EndsAt(calls, k) <==> EndsAt(calls[..|calls| - 1], k))
  {
    hide Emitted, After;
    var before := calls[..|calls| - 1];
    assert forall b <- before :: b in calls;
    forall k: nat | k < |before| ensures EndsAt(calls, k) <==> EndsAt(before, k) {
      assert before[..k] == calls[..k] && before[k] == calls[k];
    }
  }

  /** A caller that went on after a failed write would glue the next line to what is left of
      the failed one: the emitter alone keeps whole lines exactly when no write it attempts
      puts out a part of its line. */
  lemma GluedExactlyWhen(s: Stream, c: Call, lines: seq<string>)
    requires Marshalled(c)
    requires s.out == Concat(lines) && forall l <- lines :: IsLine(l)
    ensures var (t, fault) := Emitted(s, c);
      Split(t.out).1 != "" <==>
        && !s.terminal && c.payload.Some? && |LineOf(c)| <= MAX_LINE
        && c.outcome.Failed? && 0 < c.outcome.bytes < |LineOf(c)|
  {
    hide Kind, Line, Split;
    var (t, fault) := Emitted(s, c);
    SplitConcat(lines, "");
    assert Concat(lines) + "" == Concat(lines);
    if fault.None? || fault == Some(WriteFailed) {
      var line := LineOf(c);
      KindIsPlain(c.event);
      LineRoundTrip(Kind(c.event), c.payload.value);
      if fault.Some? && c.outcome.bytes < |line| {
        assert forall x <- line[..c.outcome.bytes] :: x in line[..|line| - 1];
        SplitConcat(lines, line[..c.outcome.bytes]);
      } else {
        ConcatSnoc(lines, line);
        SplitConcat(lines + [line], "");
        assert Concat(lines + [line]) + "" == Concat(lines) + line;
      }
    }
  }

  /** What then happens: after a write that put out a part of its line, the next line is read
      together with that part, for any two events whose lines are within the limit. */
  lemma HalfLineIsGlued(first: Call, next: Call)
    requires Marshalled(first) && Marshalled(next) && first.payload.Some? && next.payload.Some?
    requires |LineOf(first)| <= MAX_LINE && |LineOf(next)| <= MAX_LINE && next.outcome.Written?
    requires first.outcome.Failed? && 0 < first.outcome.bytes < |LineOf(first)|
    ensures var s := Emitted(Stream("", false), first).0;
      var (t, fault) := Emitted(s, next);
      var part := LineOf(first)[..first.outcome.bytes];
      fault.None? && Split(t.out) == ([part + LineOf(next)], "")
  {
    hide Split, Line, Kind, IsObject, IsLine, Concat;
    var line := LineOf(first);
    KindIsPlain(first.event);
    KindIsPlain(next.event);
    LineRoundTrip(Kind(first.event), first.payload.value);
    LineRoundTrip(Kind(next.event), next.payload.value);
    assert "" + line[..first.outcome.bytes] == line[..first.outcome.bytes];
    PartAndLine(line, first.outcome.bytes, LineOf(next));
  }

  lemma PartAndLine(line: string, k: nat, next: string)
    requires IsLine(line) && IsLine(next) && k < |line|
    ensures Split(line[..k] + next) == ([line[..k] + next], "")
  {
    hide Split;
    assert forall c <- line[..k] :: c in line[..|line| - 1];
    LineAppend(line[..k], next);
    var glued := line[..k] + next;
    SplitConcat([glued], "");
    assert Concat([glued]) + "" == glued;
  }
}

/** Go error values as trees: plain errors, errors carrying a progress code,
    errors wrapped with context and errors.Join nodes. A nil error is None. */
module Faults {
  import opened Text
  import opened Progress

  datatype Fault =
    | Plain(text: string)
    | Coded(code: string, inner: Fault)
    | Wrapped(context: string, inner: Fault)
    | Joined(parts: seq<Fault>)

  /** errors.As on codedError: the code of the first coded node, parents before
      children and join operands left to right. */
  function FirstCode(f: Fault): Option<string> {
    match f
    case Plain(_) => None
    case Coded(code, _) => Some(code)
    case Wrapped(_, inner) => FirstCode(inner)
    case Joined(parts) => FirstCodeOf(parts)
  }

  function FirstCodeOf(parts: seq<Fault>): Option<string> {
    if parts == [] then None
    else
      var first := FirstCode(parts[0]);
      if first.Some? then first else FirstCodeOf(parts[1..])
  }

  /** errorCode: the stable code a terminal error event carries. */
  function ErrorCode(f: Fault): string {
    match FirstCode(f)
    case Some(code) => code
    case None => CODE_STEP_FAILED
  }

  /** errors.Join of two possibly nil errors. */
  function Join(a: Option<Fault>, b: Option<Fault>): (r: Option<Fault>)
    ensures r.None? <==> a.None? && b.None?
  {
    match (a, b)
    case (None, None) => None
    case (Some(x), None) => Some(Joined([x]))
    case (None, Some(y)) => Some(Joined([y]))
    case (Some(x), Some(y)) => Some(Joined([x, y]))
  }

  /** errors.Is: `x` is `f` itself or one of the errors it wraps or joins. */
  predicate Contains(f: Fault, x: Fault) {
    f == x ||
    match f
    case Plain(_) => false
    case Coded(_, inner) => Contains(inner, x)
    case Wrapped(_, inner) => Contains(inner, x)
    case Joined(parts) => exists p <- parts :: Contains(p, x)
  }

  predicate Holds(f: Option<Fault>, x: Fault) {
    f.Some? && Contains(f.value, x)
  }

  /** Joining loses nothing. */
  lemma JoinHolds(a: Option<Fault>, b: Option<Fault>, x: Fault)
    ensures Holds(a, x) || Holds(b, x) ==> Holds(Join(a, b), x)
    ensures b.Some? ==> Holds(Join(a, b), b.value)
  {
    var j := Join(a, b);
    if a.Some? {
      assert j.value.parts[0] == a.value;
    }
    if b.Some? {
      assert Contains(b.value, b.value);
      assert j.value.parts[|j.value.parts| - 1] == b.value;
    }
  }

  /** The code of a join is the left error's when it has one, else the right's. */
  lemma JoinCode(a: Fault, b: Fault)
    ensures FirstCode(Joined([a, b])) == if FirstCode(a).Some? then FirstCode(a) else FirstCode(b)
    ensures FirstCode(Joined([a])) == FirstCode(a)
  {
    assert [a, b][1..] == [b] && [b][1..] == [] && [a][1..] == [];
    assert FirstCodeOf([b]) == FirstCode(b);
    assert FirstCodeOf([a]) == FirstCode(a);
  }

  /** Joining errors one after the other, as Run does with the cleanup failures. */
  function JoinAll(f: Option<Fault>, faults: seq<Fault>): (r: Option<Fault>)
    ensures r.None? <==> f.None? && faults == []
    decreases |faults|
  {
    if faults == [] then f else JoinAll(Join(f, Some(faults[0])), faults[1..])
  }

  lemma {:induction false} JoinAllHolds(f: Option<Fault>, faults: seq<Fault>, x: Fault)
    requires Holds(f, x) || x in faults
    ensures Holds(JoinAll(f, faults), x)
    decreases |faults|
  {
    if faults != [] {
      JoinHolds(f, Some(faults[0]), x);
      JoinHolds(f, Some(faults[0]), faults[0]);
      assert faults == [faults[0]] + faults[1..];
      JoinAllHolds(Join(f, Some(faults[0])), faults[1..], x);
    }
  }

  /** The code of errors joined one by one is the first code in join order: a
      later failure never changes a code that is already there. */
  lemma {:induction false} JoinAllCode(f: Option<Fault>, faults: seq<Fault>)
    requires f.Some? || faults != []
    ensures FirstCode(JoinAll(f, faults).value)
         == if f.Some? && FirstCode(f.value).Some? then FirstCode(f.value) else FirstCodeOf(faults)
    decreases |faults|
  {
    if faults != [] {
      var next := Join(f, Some(faults[0]));
      JoinCode(if f.Some? then f.value else faults[0], faults[0]);
      JoinAllCode(next, faults[1..]);
    }
  }

  /** err.Error(): joined messages stand on lines of their own. */
  function Message(f: Fault): string {
    match f
    case Plain(text) => text
    case Coded(_, inner) => Message(inner)
    case Wrapped(context, inner) => context + ": " + Message(inner)
    case Joined(parts) => Lines(parts)
  }

  function Lines(parts: seq<Fault>): string {
    if parts == [] then ""
    else if |parts| == 1 then Message(parts[0])
    else Message(parts[0]) + "\n" + Lines(parts[1..])
  }

  /** Every error that is held is shown: its message is a part of the whole message. */
  lemma {:induction false} MessageShows(f: Fault, x: Fault) returns (before: string, after: string)
    requires Contains(f, x)
    ensures Message(f) == before + Message(x) + after
    decreases f
  {
    hide Lines;
    before, after := "", "";
    if f != x {
      match f
      case Coded(_, inner) =>
        before, after := MessageShows(inner, x);
      case Wrapped(context, inner) =>
        before, after := MessageShows(inner, x);
        var head := context + ": ";
        assert head + (before + Message(x) + after) == (head + before) + Message(x) + after;
        before := head + before;
      case Joined(parts) =>
        var k: nat :| k < |parts| && Contains(parts[k], x);
        before, after := MessageShows(parts[k], x);
        var upTo, from := LinesShow(parts, k);
        Regroup(upTo, before, Message(x), after, from);
        before, after := upTo + before, after + from;
    }
  }

  lemma Regroup(a: string, b: string, c: string, d: string, e: string)
    ensures a + (b + c + d) + e == (a + b) + c + (d + e)
  {}

  lemma {:induction false} LinesShow(parts: seq<Fault>, k: nat) returns (before: string, after: string)
    requires k < |parts|
    ensures Lines(parts) == before + Message(parts[k]) + after
    ensures before == "" || before[|before| - 1] == '\n'
    ensures after == "" || after[0] == '\n'
    decreases k
  {
    hide Message;
    before, after := "", "";
    if k > 0 {
      var head, shown := Message(parts[0]) + "\n", Message(parts[k]);
      before, after := LinesShow(parts[1..], k - 1);
      assert head + (before + shown + after) == (head + before) + shown + after;
      before := head + before;
    } else if |parts| > 1 {
      after := "\n" + Lines(parts[1..]);
    }
  }
}

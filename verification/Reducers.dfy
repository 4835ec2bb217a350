/** The two frontends fold the same event stream independently; here they are compared. */
module Reducers {
  import opened Text
  import opened Progress
  import opened InstallView
  import opened GuiInstall

  /** The graphical state of a running install after `es`. */
  function ApplyAll(es: seq<Event>): GuiState {
    if es == [] then NEW_GUI.(phase := Running) else Applied(ApplyAll(es[..|es| - 1]), es[|es| - 1])
  }

  predicate NonNegative(steps: seq<StepInfo>) {
    forall s <- steps :: s.weight >= 0
  }

  /** Non-negative weights, and Done ends the stream. */
  predicate Weighted(es: seq<Event>) {
    && (forall k | 0 <= k < |es| :: es[k].Start? ==> NonNegative(es[k].steps))
    && (forall k | 0 <= k < |es| - 1 :: !es[k].Done?)
  }

  /** Weighted, and no step_progress counts negative bytes. */
  predicate WellFormed(es: seq<Event>) {
    Weighted(es) && forall k | 0 <= k < |es| :: es[k].StepProgress? && es[k].totalBytes > 0 ==> es[k].bytes >= 0
  }

  lemma Prefixes(es: seq<Event>)
    requires es != []
    ensures Weighted(es) ==> Weighted(es[..|es| - 1])
    ensures WellFormed(es) ==> WellFormed(es[..|es| - 1])
  {}

  // ---------- agreement ----------

  ghost predicate Linked(m: InstallModel, s: GuiState) {
    && m.steps == s.steps && m.totalWeight == s.totalWeight == WeightOf(s.steps) && NonNegative(s.steps)
    && (m.result.done <==> s.phase.Succeeded?)
    && (!m.result.done ==> m.currentIndex == s.current)
    && s.stepFraction == (if m.stepFraction > 0.0 then m.stepFraction else 0.0) <= 1.0
  }

  lemma {:induction false} AlwaysLinked(es: seq<Event>)
    requires Weighted(es)
    ensures Linked(HandleAll(es), ApplyAll(es))
  {
    hide Linked;
    if es == [] {
      FirstLinked();
    } else {
      Prefixes(es);
      AlwaysLinked(es[..|es| - 1]);
      var m := HandleAll(es[..|es| - 1]);
      assert !m.result.done by {
        NotDoneYet(es[..|es| - 1]);
      }
      LinkedStep(m, ApplyAll(es[..|es| - 1]), es[|es| - 1]);
    }
  }

  lemma FirstLinked()
    ensures Linked(NEW_MODEL, NEW_GUI.(phase := Running))
  {}

  lemma {:induction false} NotDoneYet(es: seq<Event>)
    requires forall k | 0 <= k < |es| :: !es[k].Done?
    ensures !HandleAll(es).result.done && !ApplyAll(es).phase.Succeeded?
  {
    hide HandleEvent, Applied;
    if es != [] {
      NotDoneYet(es[..|es| - 1]);
      assert !es[|es| - 1].Done?;
      OnlyDoneSucceeds(HandleAll(es[..|es| - 1]), ApplyAll(es[..|es| - 1]), es[|es| - 1]);
    }
  }

  lemma OnlyDoneSucceeds(m: InstallModel, s: GuiState, e: Event)
    requires !m.result.done && !s.phase.Succeeded? && !e.Done?
    ensures !HandleEvent(m, e).0.result.done && !Applied(s, e).phase.Succeeded?
  {
    hide PushTail, WeightOf, TuiFraction, GuiFraction, IsDeprecation, Logged;
  }

  lemma LinkedStep(m: InstallModel, s: GuiState, e: Event)
    requires Linked(m, s) && !m.result.done && (e.Start? ==> NonNegative(e.steps))
    ensures Linked(HandleEvent(m, e).0, Applied(s, e))
  {
    hide PushTail, WeightOf, NonNegative, IsDeprecation, Logged;
  }

  lemma {:induction false} WeightBounds(steps: seq<StepInfo>, i: nat, j: nat)
    requires i <= j <= |steps| && NonNegative(steps)
    ensures 0 <= WeightOf(steps[..i]) <= WeightOf(steps[..j])
    decreases j
  {
    if i < j {
      WeightBounds(steps, i, j - 1);
      assert steps[..j][..j - 1] == steps[..j - 1];
      assert steps[j - 1] in steps;
    } else if i > 0 {
      WeightBounds(steps, i - 1, i - 1);
      assert steps[..i][..i - 1] == steps[..i - 1];
      assert steps[i - 1] in steps;
    }
  }

  lemma Product(f: real, w: int)
    requires w >= 0
    ensures 0.0 <= f ==> 0.0 <= Share(f, w)
    ensures f <= 1.0 ==> Share(f, w) <= w as real
    ensures f < 0.0 && w > 0 ==> Share(f, w) < 0.0
    ensures Share(0.0, w) == 0.0 && Share(f, 0) == 0.0
  {}

  lemma ShareGrows(f: real, g: real, w: int)
    requires w >= 0 && f <= g
    ensures Share(f, w) <= Share(g, w)
  {
    assert (g - f) * w as real >= 0.0;
  }

  lemma CoveredBounds(steps: seq<StepInfo>, index: nat, f: real)
    requires NonNegative(steps) && f <= 1.0
    ensures Covered(steps, index, f) <= WeightOf(steps) as real
    ensures f >= 0.0 ==> 0.0 <= Covered(steps, index, f)
  {
    hide WeightOf, Share;
    assert steps[..|steps|] == steps;
    WeightBounds(steps, 0, |steps|);
    if index < |steps| {
      WeightBounds(steps, 0, index);
      WeightBounds(steps, index + 1, |steps|);
      NextWeight(steps, index);
      assert steps[index] in steps;
      Product(f, steps[index].weight);
    }
  }

  lemma NextWeight(steps: seq<StepInfo>, index: nat)
    requires index < |steps|
    ensures WeightOf(steps[..index + 1]) == WeightOf(steps[..index]) + steps[index].weight
  {
    assert steps[..index + 1][..index] == steps[..index];
  }

  lemma Quotient(x: real, total: int)
    requires total > 0
    ensures x <= total as real ==> x / total as real <= 1.0
    ensures 0.0 <= x ==> 0.0 <= x / total as real
  {}

  lemma QuotientsDiffer(x: real, y: real, total: int)
    requires total > 0
    ensures x / total as real == y / total as real <==> x == y
    ensures x <= y ==> x / total as real <= y / total as real
  {
    var a, b, t := x / total as real, y / total as real, total as real;
    assert a * t == x && b * t == y;
    if a > b {
      assert (a - b) * t > 0.0;
    }
  }

  // ---------- where the terminal view stands, read off the stream ----------

  predicate LastStart(es: seq<Event>, a: nat): (last: bool)
    ensures last ==> a < |es| && es[a].Start?
  {
    a < |es| && es[a].Start? && forall k | a < k < |es| :: !es[k].Start?
  }

  predicate LastStep(es: seq<Event>, b: nat): (last: bool)
    ensures last ==> b < |es| && es[b].StepStart?
  {
    b < |es| && es[b].StepStart? && forall k | b < k < |es| :: !es[k].StepStart?
  }

  predicate Counts(e: Event, index: int) {
    e.StepProgress? && e.index == index
  }

  /** The last step_progress of the step that began at `b`. */
  predicate LastCount(es: seq<Event>, b: nat, c: nat): (last: bool)
    ensures last ==> b < c < |es| && es[b].StepStart? && es[c].StepProgress?
  {
    && b < c < |es| && es[b].StepStart? && Counts(es[c], es[b].index)
    && forall k | c < k < |es| :: !Counts(es[k], es[b].index)
  }

  /** Not done, and the last step_progress of the last step started counts negative bytes of a
      positive total, in a step to which the last list gives a weight. */
  ghost predicate AtNegativeCount(es: seq<Event>) {
    && (forall k | 0 <= k < |es| :: !es[k].Done?)
    && exists a: nat, b: nat, c: nat ::
         LastStart(es, a) && LastStep(es, b) && LastCount(es, b, c) && Uncounted(es[a], es[b], es[c])
  }

  predicate Uncounted(listed: Event, begun: Event, count: Event)
    requires listed.Start? && begun.StepStart? && count.StepProgress?
  {
    && 0 <= begun.index < |listed.steps| && listed.steps[begun.index].weight != 0
    && count.totalBytes > 0 && count.bytes < 0
  }

  ghost predicate ListFollows(m: InstallModel, es: seq<Event>) {
    && (forall a: nat :: LastStart(es, a) ==> m.steps == es[a].steps)
    && (m.steps != [] ==> exists a: nat :: LastStart(es, a))
  }

  ghost predicate StepFollows(m: InstallModel, es: seq<Event>) {
    && (forall b: nat :: LastStep(es, b) ==> m.currentIndex == es[b].index)
    && (m.currentIndex >= 0 ==> exists b: nat :: LastStep(es, b))
  }

  ghost predicate CountFollows(m: InstallModel, es: seq<Event>) {
    && (forall b: nat, c: nat :: LastStep(es, b) && LastCount(es, b, c) ==> m.stepFraction == TuiFraction(es[c]))
    && (m.currentIndex >= 0 && m.stepFraction != 0.0 ==>
          exists b: nat, c: nat :: LastStep(es, b) && LastCount(es, b, c))
  }

  lemma {:induction false} AlwaysFollows(es: seq<Event>)
    ensures var m := HandleAll(es); ListFollows(m, es) && StepFollows(m, es) && CountFollows(m, es)
  {
    hide HandleEvent, ListFollows, StepFollows, CountFollows;
    if es == [] {
      NothingFollows();
    } else {
      AlwaysFollows(es[..|es| - 1]);
      var m := HandleAll(es[..|es| - 1]);
      ListFollowsOn(m, es);
      StepFollowsOn(m, es);
      CountFollowsOn(m, es);
    }
  }

  lemma NothingFollows()
    ensures ListFollows(NEW_MODEL, []) && StepFollows(NEW_MODEL, []) && CountFollows(NEW_MODEL, [])
  {}

  /** What one event leaves of the bar's own fields. */
  lemma BarFields(m: InstallModel, e: Event)
    ensures var n := HandleEvent(m, e).0;
      && n.steps == (if e.Start? then e.steps else m.steps)
      && n.currentIndex == (if e.StepStart? then e.index else m.currentIndex)
      && n.stepFraction ==
         (if e.StepStart? then 0.0 else if Counts(e, m.currentIndex) then TuiFraction(e) else m.stepFraction)
  {
    hide PushTail, WeightOf, TuiFraction, IsDeprecation;
  }

  lemma ListFollowsOn(m: InstallModel, es: seq<Event>)
    requires es != [] && ListFollows(m, es[..|es| - 1])
    ensures ListFollows(HandleEvent(m, es[|es| - 1]).0, es)
  {
    hide HandleEvent;
    var n := |es| - 1;
    BarFields(m, es[n]);
    if es[n].Start? {
      assert LastStart(es, n);
    } else {
      assert forall a: nat :: LastStart(es, a) <==> LastStart(es[..n], a);
    }
  }

  lemma StepFollowsOn(m: InstallModel, es: seq<Event>)
    requires es != [] && StepFollows(m, es[..|es| - 1])
    ensures StepFollows(HandleEvent(m, es[|es| - 1]).0, es)
  {
    hide HandleEvent;
    var n := |es| - 1;
    BarFields(m, es[n]);
    if es[n].StepStart? {
      assert LastStep(es, n);
    } else {
      EarlierStep(es);
      if m.currentIndex >= 0 {
        var b: nat :| LastStep(es[..n], b);
        assert LastStep(es, b);
      }
    }
  }

  lemma EarlierStep(es: seq<Event>)
    requires es != [] && !es[|es| - 1].StepStart?
    ensures forall b: nat :: LastStep(es, b) <==> LastStep(es[..|es| - 1], b)
  {}

  lemma EarlierCount(es: seq<Event>, b: nat)
    requires es != [] && b < |es| - 1 && es[b].StepStart?
    ensures Counts(es[|es| - 1], es[b].index) ==> forall c: nat :: LastCount(es, b, c) <==> c == |es| - 1
    ensures !Counts(es[|es| - 1], es[b].index) ==> forall c: nat :: LastCount(es, b, c) <==>
      LastCount(es[..|es| - 1], b, c)
  {}

  lemma CountFollowsOn(m: InstallModel, es: seq<Event>)
    requires es != [] && StepFollows(m, es[..|es| - 1]) && CountFollows(m, es[..|es| - 1])
    ensures CountFollows(HandleEvent(m, es[|es| - 1]).0, es)
  {
    hide HandleEvent, LastCount, LastStep, Counts, TuiFraction;
    var n := |es| - 1;
    var shorter, e := es[..n], es[n];
    BarFields(m, e);
    if e.StepStart? {
      NoneYet(es);
    } else {
      EarlierStep(es);
      forall b: nat, c: nat | LastStep(es, b) && LastCount(es, b, c)
        ensures HandleEvent(m, e).0.stepFraction == TuiFraction(es[c])
      {
        InPlace(es, b);
        EarlierCount(es, b);
        if !Counts(e, es[b].index) {
          InPlaceCount(es, b, c);
        }
      }
      if m.currentIndex >= 0 && HandleEvent(m, e).0.stepFraction != 0.0 {
        var b: nat :| LastStep(shorter, b);
        InPlace(es, b);
        EarlierCount(es, b);
        if Counts(e, m.currentIndex) {
          assert LastCount(es, b, n);
        } else {
          var b1: nat, c: nat :| LastStep(shorter, b1) && LastCount(shorter, b1, c);
          InPlace(es, b1);
          EarlierCount(es, b1);
          assert LastCount(es, b1, c);
        }
      }
    }
  }

  lemma NoneYet(es: seq<Event>)
    requires es != [] && es[|es| - 1].StepStart?
    ensures forall b: nat, c: nat :: !(LastStep(es, b) && LastCount(es, b, c))
  {}

  lemma InPlace(es: seq<Event>, b: nat)
    requires es != [] && LastStep(es[..|es| - 1], b)
    ensures b < |es| - 1 && es[b].StepStart? && es[b] == es[..|es| - 1][b]
  {}

  lemma InPlaceCount(es: seq<Event>, b: nat, c: nat)
    requires es != [] && LastCount(es[..|es| - 1], b, c)
    ensures c < |es| - 1 && es[c].StepProgress? && es[c] == es[..|es| - 1][c]
  {}

  /** What of the model makes the bars differ. */
  predicate Behind(m: InstallModel) {
    && !m.result.done && m.totalWeight != 0 && m.stepFraction < 0.0
    && 0 <= m.currentIndex < |m.steps| && m.steps[m.currentIndex].weight != 0
  }

  lemma BehindExactlyWhen(es: seq<Event>)
    requires Weighted(es)
    ensures Behind(HandleAll(es)) <==> AtNegativeCount(es)
  {
    hide HandleAll, ApplyAll, LastStart, LastStep, LastCount, Uncounted, ListFollows, StepFollows;
    hide CountFollows;
    var m := HandleAll(es);
    AlwaysFollows(es);
    AlwaysLinked(es);
    DoneExactlyWhen(es);
    if Behind(m) {
      var a, b, c := Whence(m, es);
      BehindAt(m, es, a, b, c);
    }
    if AtNegativeCount(es) {
      var a: nat, b: nat, c: nat :|
        LastStart(es, a) && LastStep(es, b) && LastCount(es, b, c) && Uncounted(es[a], es[b], es[c]);
      BehindAt(m, es, a, b, c);
    }
  }

  /** A bar that is behind has its list, its step and its fraction from these events. */
  lemma Whence(m: InstallModel, es: seq<Event>) returns (a: nat, b: nat, c: nat)
    requires ListFollows(m, es) && StepFollows(m, es) && CountFollows(m, es) && Behind(m)
    ensures LastStart(es, a) && LastStep(es, b) && LastCount(es, b, c)
  {
    hide LastStart, LastStep, LastCount;
    a :| LastStart(es, a);
    b, c :| LastStep(es, b) && LastCount(es, b, c);
  }

  lemma BehindAt(m: InstallModel, es: seq<Event>, a: nat, b: nat, c: nat)
    requires ListFollows(m, es) && StepFollows(m, es) && CountFollows(m, es)
    requires LastStart(es, a) && LastStep(es, b) && LastCount(es, b, c)
    requires NonNegative(m.steps) && m.totalWeight == WeightOf(m.steps) && !m.result.done
    ensures Behind(m) <==> Uncounted(es[a], es[b], es[c])
  {
    hide WeightOf, TuiFraction, LastStart, LastStep, LastCount, Uncounted, Behind;
    BehindThere(m, es, a, b, c);
  }

  lemma BehindThere(m: InstallModel, es: seq<Event>, a: nat, b: nat, c: nat)
    requires LastStart(es, a) && LastStep(es, b) && LastCount(es, b, c)
    requires m.steps == es[a].steps && m.currentIndex == es[b].index && m.stepFraction == TuiFraction(es[c])
    requires NonNegative(m.steps) && m.totalWeight == WeightOf(m.steps) && !m.result.done
    ensures Behind(m) <==> Uncounted(es[a], es[b], es[c])
  {
    hide WeightOf, TuiFraction;
    BelowZeroExactlyWhen(es[c]);
    if 0 <= m.currentIndex < |m.steps| && m.steps[m.currentIndex].weight != 0 {
      SomeWeight(m.steps, m.currentIndex);
    }
  }

  lemma SomeWeight(steps: seq<StepInfo>, i: nat)
    requires NonNegative(steps) && i < |steps| && steps[i].weight != 0
    ensures WeightOf(steps) > 0
  {
    WeightBounds(steps, 0, i);
    WeightBounds(steps, i + 1, |steps|);
    NextWeight(steps, i);
    assert steps[i] in steps && steps[..|steps|] == steps;
  }

  lemma DoneExactlyWhen(es: seq<Event>)
    requires Weighted(es)
    ensures HandleAll(es).result.done <==> exists k :: 0 <= k < |es| && es[k].Done?
  {
    if es != [] && es[|es| - 1].Done? {
      assert HandleAll(es).result.done;
    } else {
      assert forall k | 0 <= k < |es| :: !es[k].Done?;
      NotDoneYet(es);
    }
  }

  lemma BelowZeroExactlyWhen(e: Event)
    requires e.StepProgress?
    ensures TuiFraction(e) < 0.0 <==> e.totalBytes > 0 && e.bytes < 0
  {
    if e.totalBytes > 0 {
      var x, t := e.bytes as real, e.totalBytes as real;
      assert (x / t) * t == x;
    }
  }

  /** The two overall fractions are equal exactly when the stream does not stand at a negative
      byte count of a step with a weight: the terminal view alone leaves that case unclamped. */
  lemma AgreeExactlyWhen(es: seq<Event>)
    requires Weighted(es)
    ensures Overall(HandleAll(es)) == GuiOverall(ApplyAll(es)) <==> !AtNegativeCount(es)
  {
    AlwaysLinked(es);
    BarsAgreeExactlyWhen(HandleAll(es), ApplyAll(es));
    BehindExactlyWhen(es);
  }

  lemma BarsAgreeExactlyWhen(m: InstallModel, s: GuiState)
    requires Linked(m, s)
    ensures Overall(m) == GuiOverall(s) <==> !Behind(m)
  {
    hide Covered;
    if !m.result.done && m.totalWeight != 0 && m.currentIndex >= 0 {
      assert m.steps[..|m.steps|] == m.steps;
      WeightBounds(m.steps, 0, |m.steps|);
      CoveredBounds(m.steps, m.currentIndex, s.stepFraction);
      var there := Covered(m.steps, m.currentIndex, m.stepFraction);
      var here := Covered(m.steps, m.currentIndex, s.stepFraction);
      Quotient(here, m.totalWeight);
      QuotientsDiffer(here, there, m.totalWeight);
      CoveredDiffers(m.steps, m.currentIndex, m.stepFraction, s.stepFraction);
    }
  }

  lemma CoveredDiffers(steps: seq<StepInfo>, index: nat, f: real, g: real)
    requires NonNegative(steps) && g == (if f > 0.0 then f else 0.0)
    ensures Covered(steps, index, f) == Covered(steps, index, g)
      <==> !(f < 0.0 && index < |steps| && steps[index].weight != 0)
  {
    hide WeightOf, Share;
    if index < |steps| {
      assert steps[index] in steps;
      Product(f, steps[index].weight);
    }
  }

  /** On every well-formed stream the two frontends show the same fraction, in [0, 1]. */
  lemma SameFraction(es: seq<Event>)
    requires WellFormed(es)
    ensures Overall(HandleAll(es)) == GuiOverall(ApplyAll(es))
    ensures 0.0 <= GuiOverall(ApplyAll(es)) <= 1.0
  {
    BarsAgree(es);
    AlwaysLinked(es);
    var s := ApplyAll(es);
    if !s.phase.Succeeded? && s.totalWeight != 0 && s.current >= 0 {
      assert s.steps[..|s.steps|] == s.steps;
      WeightBounds(s.steps, 0, |s.steps|);
      CoveredBounds(s.steps, s.current, s.stepFraction);
      Quotient(Covered(s.steps, s.current, s.stepFraction), s.totalWeight);
    }
  }

  lemma BarsAgree(es: seq<Event>)
    requires WellFormed(es)
    ensures Overall(HandleAll(es)) == GuiOverall(ApplyAll(es))
  {
    AlwaysLinked(es);
    BarsAgreeExactlyWhen(HandleAll(es), ApplyAll(es));
    NeverBehind(es);
  }

  lemma {:induction false} NeverBehind(es: seq<Event>)
    requires WellFormed(es)
    ensures HandleAll(es).stepFraction >= 0.0
  {
    hide PushTail, WeightOf, IsDeprecation;
    if es != [] {
      Prefixes(es);
      NeverBehind(es[..|es| - 1]);
    }
  }

  /** Minus one byte of one: the terminal view shows -100%, the graphical one 0%. */
  lemma NegativeBytesDisagree()
    ensures var es := [Start([StepInfo("a", 1)]), StepStart(0, "a"), StepProgress(0, 0.0, -1, 1)];
      Weighted(es) && Overall(HandleAll(es)) == -1.0 && GuiOverall(ApplyAll(es)) == 0.0
  {
    hide *;
    var step := StepInfo("a", 1);
    var e1, e2, e3 := Start([step]), StepStart(0, "a"), StepProgress(0, 0.0, -1, 1);
    NothingYet();
    Snoc([], e1);
    Snoc([e1], e2);
    Snoc([e1, e2], e3);
    assert [] + [e1] == [e1] && [e1] + [e2] == [e1, e2] && [e1, e2] + [e3] == [e1, e2, e3];
    Listed(step);
    Begun(HandleAll([e1]), ApplyAll([e1]));
    Counted(HandleAll([e1, e2]), ApplyAll([e1, e2]));
    OneStep(step, HandleAll([e1, e2, e3]), ApplyAll([e1, e2, e3]));
    OneIsWeighted(step, e2, e3);
  }

  lemma OneIsWeighted(step: StepInfo, e2: Event, e3: Event)
    requires step.weight == 1 && e2.StepStart? && e3.StepProgress?
    ensures Weighted([Start([step]), e2, e3]) && Least(0.0, 1.0) == 0.0
  {}

  lemma Listed(step: StepInfo)
    ensures var m, s := HandleEvent(NEW_MODEL, Start([step])).0, Applied(NEW_GUI.(phase := Running), Start([step]));
      && m.steps == s.steps == [step] && m.totalWeight == s.totalWeight == WeightOf([step])
      && !m.result.done && s.phase.Running?
  {
    hide WeightOf, PushTail, Logged;
  }

  lemma Begun(m: InstallModel, s: GuiState)
    ensures var n, t := HandleEvent(m, StepStart(0, "a")).0, Applied(s, StepStart(0, "a"));
      && n.steps == m.steps && t.steps == s.steps && n.totalWeight == m.totalWeight && t.totalWeight == s.totalWeight
      && n.result == m.result && t.phase == s.phase && n.currentIndex == t.current == 0
  {
    hide WeightOf, PushTail, Logged;
  }

  lemma Counted(m: InstallModel, s: GuiState)
    requires m.currentIndex == s.current == 0
    ensures var n, t := HandleEvent(m, StepProgress(0, 0.0, -1, 1)).0, Applied(s, StepProgress(0, 0.0, -1, 1));
      && n.steps == m.steps && t.steps == s.steps && n.totalWeight == m.totalWeight && t.totalWeight == s.totalWeight
      && n.result == m.result && t.phase == s.phase && n.currentIndex == t.current == 0
      && n.stepFraction == -1.0 && t.stepFraction == 0.0
  {
    hide WeightOf, PushTail, Logged;
  }

  lemma OneStep(step: StepInfo, m: InstallModel, s: GuiState)
    requires m.steps == s.steps == [step] && m.totalWeight == s.totalWeight == WeightOf([step])
    requires step.weight == 1 && m.currentIndex == s.current == 0 && !m.result.done && s.phase.Running?
    ensures Overall(m) == m.stepFraction && GuiOverall(s) == Least(s.stepFraction, 1.0)
  {
    assert [step][..0] == [] && WeightOf([step][..0]) == 0 && WeightOf([step]) == 1;
  }

  lemma NothingYet()
    ensures HandleAll([]) == NEW_MODEL && ApplyAll([]) == NEW_GUI.(phase := Running)
  {}

  lemma Snoc(es: seq<Event>, e: Event)
    ensures HandleAll(es + [e]) == HandleEvent(HandleAll(es), e).0
    ensures ApplyAll(es + [e]) == Applied(ApplyAll(es), e)
  {
    hide HandleEvent, Applied;
    assert (es + [e])[..|es|] == es;
  }

  // ---------- progress ----------

  /** Start comes first, step indices increase within its list, and the fractions of one
      step never decrease. */
  predicate Orderly(es: seq<Event>) {
    && WellFormed(es)
    && (forall k | 0 <= k < |es| :: es[k].Start? ==> k == 0)
    && (forall k | 0 <= k < |es| :: es[k].StepStart? ==> es[0].Start? && 0 <= es[k].index < |es[0].steps|)
    && (forall j, k | 0 <= j < k < |es| :: es[j].StepStart? && es[k].StepStart? ==> es[j].index < es[k].index)
    && (forall j, k | 0 <= j < k < |es| :: es[j].StepProgress? && es[k].StepProgress? && es[j].index == es[k].index ==>
          GuiFraction(es[j]) <= GuiFraction(es[k]))
  }

  /** Where the graphical state got its step and its fraction from. */
  ghost predicate Sourced(es: seq<Event>, s: GuiState) {
    && s.steps == (if es != [] && es[0].Start? then es[0].steps else [])
    && (s.current == -1 || exists k :: 0 <= k < |es| && es[k].StepStart? && es[k].index == s.current)
    && (s.stepFraction == 0.0 || exists k :: 0 <= k < |es| && FractionFrom(es[k], s))
  }

  predicate FractionFrom(e: Event, s: GuiState) {
    e.StepProgress? && GuiFraction(e) == s.stepFraction && e.index == s.current
  }

  lemma {:induction false} AlwaysSourced(es: seq<Event>)
    requires Orderly(es) && forall k | 0 <= k < |es| :: !es[k].Done?
    ensures Sourced(es, ApplyAll(es))
  {
    hide Applied, HandleEvent;
    if es != [] {
      var shorter := es[..|es| - 1];
      Prefixes(es);
      AlwaysSourced(shorter);
      SourcedStep(es, ApplyAll(shorter));
    }
  }

  lemma SourcedStep(es: seq<Event>, s: GuiState)
    requires es != [] && Orderly(es) && Sourced(es[..|es| - 1], s)
    requires |es| == 1 ==> s == NEW_GUI.(phase := Running)
    requires !es[|es| - 1].Done?
    ensures Sourced(es, Applied(s, es[|es| - 1]))
  {
    hide WeightOf, Logged, GuiFraction, WellFormed;
    var shorter, e := es[..|es| - 1], es[|es| - 1];
    var t := Applied(s, e);
    forall k | 0 <= k < |shorter| ensures es[k] == shorter[k] {
    }
    if e.StepStart? || (e.StepProgress? && e.index == s.current) {
      assert e == es[|es| - 1];
    } else {
      assert forall k | 0 <= k < |shorter| :: FractionFrom(shorter[k], s) ==> FractionFrom(es[k], t);
    }
  }

  /** On an orderly stream the bar never moves back. */
  lemma NeverMovesBack(es: seq<Event>)
    requires es != [] && Orderly(es)
    ensures GuiOverall(ApplyAll(es[..|es| - 1])) <= GuiOverall(ApplyAll(es))
    ensures Overall(HandleAll(es[..|es| - 1])) <= Overall(HandleAll(es))
  {
    hide *;
    var shorter := es[..|es| - 1];
    OrderlyPrefix(es);
    ApplyLast(es);
    SameFraction(es);
    SameFraction(shorter);
    AlwaysSourced(shorter);
    AlwaysLinked(shorter);
    NotDoneYet(shorter);
    BarStepsForward(es, ApplyAll(shorter), HandleAll(shorter));
  }

  lemma OrderlyPrefix(es: seq<Event>)
    requires es != [] && Orderly(es)
    ensures var shorter := es[..|es| - 1];
      && Orderly(shorter) && (forall k | 0 <= k < |shorter| :: !shorter[k].Done?)
      && WellFormed(es) && Weighted(es) && WellFormed(shorter) && Weighted(shorter)
  {
    Prefixes(es);
  }

  lemma ApplyLast(es: seq<Event>)
    requires es != []
    ensures ApplyAll(es) == Applied(ApplyAll(es[..|es| - 1]), es[|es| - 1])
    ensures |es| == 1 ==> ApplyAll(es[..|es| - 1]) == NEW_GUI.(phase := Running)
  {
    hide Applied;
  }

  lemma BarStepsForward(es: seq<Event>, s: GuiState, m: InstallModel)
    requires es != [] && Orderly(es) && Sourced(es[..|es| - 1], s) && Linked(m, s) && !m.result.done
    requires |es| == 1 ==> s == NEW_GUI.(phase := Running)
    ensures GuiOverall(s) <= GuiOverall(Applied(s, es[|es| - 1]))
  {
    hide WeightOf, Logged, GuiFraction, WellFormed, Covered, Weighted;
    var e := es[|es| - 1];
    if s.totalWeight == 0 || s.current < 0 {
      assert GuiOverall(s) == 0.0;
      GuiAtLeastZero(es, s, m);
    } else {
      assert s.steps[..|s.steps|] == s.steps;
      WeightBounds(s.steps, 0, |s.steps|);
      CoveredForward(es, s);
      var t := Applied(s, e);
      if e.StepStart? || (e.StepProgress? && e.index == s.current) {
        QuotientsDiffer(Covered(s.steps, s.current, s.stepFraction), Covered(s.steps, t.current, t.stepFraction),
          s.totalWeight);
      }
    }
  }

  lemma GuiAtLeastZero(es: seq<Event>, s: GuiState, m: InstallModel)
    requires es != [] && Orderly(es) && Sourced(es[..|es| - 1], s) && Linked(m, s) && !m.result.done
    requires |es| == 1 ==> s == NEW_GUI.(phase := Running)
    ensures 0.0 <= GuiOverall(Applied(s, es[|es| - 1]))
  {
    hide Logged, GuiFraction, Covered, Sourced;
    var e := es[|es| - 1];
    LinkedStep(m, s, e);
    var t := Applied(s, e);
    if !t.phase.Succeeded? && t.totalWeight != 0 && t.current >= 0 {
      assert t.steps[..|t.steps|] == t.steps;
      WeightBounds(t.steps, 0, |t.steps|);
      CoveredBounds(t.steps, t.current, t.stepFraction);
      Quotient(Covered(t.steps, t.current, t.stepFraction), t.totalWeight);
    }
  }

  /** Within a step the fraction grows; the next step starts where the whole step ends. */
  lemma CoveredForward(es: seq<Event>, s: GuiState)
    requires es != [] && Orderly(es) && Sourced(es[..|es| - 1], s)
    requires NonNegative(s.steps) && s.stepFraction <= 1.0 && s.current >= 0 && !s.phase.Succeeded?
    ensures var e := es[|es| - 1];
      && (e.StepStart? ==>
            e.index >= 0 && Covered(s.steps, s.current, s.stepFraction) <= Covered(s.steps, e.index, 0.0))
      && (e.StepProgress? && e.index == s.current ==>
            Covered(s.steps, s.current, s.stepFraction) <= Covered(s.steps, s.current, GuiFraction(e)))
  {
    hide WellFormed, WeightOf, Share, GuiFraction, Weighted;
    var shorter, e := es[..|es| - 1], es[|es| - 1];
    forall k | 0 <= k < |shorter| ensures es[k] == shorter[k] {
    }
    var from :| 0 <= from < |shorter| && shorter[from].StepStart? && shorter[from].index == s.current;
    assert s.current < |s.steps|;
    var w := s.steps[s.current].weight;
    assert s.steps[s.current] in s.steps;
    if e.StepStart? {
      assert s.current < e.index;
      StepWeight(s.steps, s.current, e.index);
      assert s.steps[e.index] in s.steps;
      Product(0.0, s.steps[e.index].weight);
      Product(s.stepFraction, w);
    } else if e.StepProgress? && e.index == s.current {
      if s.stepFraction != 0.0 {
        var k :| 0 <= k < |shorter| && FractionFrom(shorter[k], s);
      }
      Clamping(e);
      ShareGrows(s.stepFraction, GuiFraction(e), w);
    }
  }

  lemma Clamping(e: Event)
    requires e.StepProgress?
    ensures 0.0 <= GuiFraction(e) <= 1.0
  {}

  lemma StepWeight(steps: seq<StepInfo>, i: nat, j: nat)
    requires i < j < |steps| && NonNegative(steps)
    ensures WeightOf(steps[..i]) + steps[i].weight <= WeightOf(steps[..j])
  {
    NextWeight(steps, i);
    WeightBounds(steps, i + 1, j);
  }

  // ---------- what the bar shows, and what else both tell ----------

  lemma {:induction false} WeightsAdd(a: seq<StepInfo>, b: seq<StepInfo>)
    ensures WeightOf(a + b) == WeightOf(a) + WeightOf(b)
    ensures |b| == 1 ==> WeightOf(b) == b[0].weight
  {
    if b == [] {
      assert a + b == a;
    } else {
      WeightsAdd(a, b[..|b| - 1]);
      assert (a + b)[..|a + b| - 1] == a + b[..|b| - 1];
    }
  }

  /** While a step of the last list counts its progress, the bar stands at the weight of the steps
      before it and the counted part of its own, of the whole list's weight. */
  lemma BarIsWeighted(es: seq<Event>, a: nat, b: nat, c: nat)
    requires Weighted(es) && LastStart(es, a) && LastStep(es, b) && LastCount(es, b, c)
    requires forall k | 0 <= k < |es| :: !es[k].Done?
    requires 0 <= es[b].index < |es[a].steps| && WeightOf(es[a].steps) != 0
    ensures
      var steps, i, e := es[a].steps, es[b].index, es[c];
      var bar := Overall(HandleAll(es)) * WeightOf(es[a].steps) as real;
      && (e.totalBytes > 0 && e.bytes <= e.totalBytes ==>
            bar == WeightOf(steps[..i]) as real + (e.bytes as real / e.totalBytes as real) * steps[i].weight as real)
      && (e.totalBytes > 0 && e.bytes > e.totalBytes ==> bar == WeightOf(steps[..i + 1]) as real)
      && (e.totalBytes <= 0 && 0.0 <= e.fraction <= 1.0 ==>
            bar == WeightOf(steps[..i]) as real + e.fraction * steps[i].weight as real)
  {
    hide HandleAll, ApplyAll, WeightOf, LastStart, LastStep, LastCount;
    var m := HandleAll(es);
    AlwaysFollows(es);
    AlwaysLinked(es);
    NotDoneYet(es);
    BarOfModel(m);
    NextWeight(es[a].steps, es[b].index);
    CountedPart(es[c]);
  }

  lemma BarOfModel(m: InstallModel)
    requires !m.result.done && m.totalWeight != 0 && 0 <= m.currentIndex < |m.steps|
    ensures Overall(m) * m.totalWeight as real ==
      WeightOf(m.steps[..m.currentIndex]) as real + m.stepFraction * m.steps[m.currentIndex].weight as real
  {
    hide WeightOf;
    var covered, total := Covered(m.steps, m.currentIndex, m.stepFraction), m.totalWeight as real;
    assert covered / total * total == covered;
  }

  lemma CountedPart(e: Event)
    requires e.StepProgress?
    ensures e.totalBytes > 0 && e.bytes <= e.totalBytes ==> TuiFraction(e) == e.bytes as real / e.totalBytes as real
    ensures e.totalBytes > 0 && e.bytes > e.totalBytes ==> TuiFraction(e) == 1.0
    ensures e.totalBytes <= 0 && 0.0 <= e.fraction <= 1.0 ==> TuiFraction(e) == e.fraction
  {
    if e.totalBytes > 0 {
      Fractions(e.bytes, e.totalBytes);
    }
  }

  lemma Fractions(x: int, total: int)
    requires total > 0
    ensures x <= total ==> x as real / total as real <= 1.0
    ensures x > total ==> x as real / total as real > 1.0
  {
    var q, t := x as real / total as real, total as real;
    assert q * t == x as real;
  }

  /** The one summary a run sends is what both show. */
  lemma {:induction false} SummaryIsShown(es: seq<Event>, k: nat)
    requires k < |es| && es[k].Summary? && forall j | 0 <= j < |es| && j != k :: !es[j].Summary?
    ensures HandleAll(es).result.summary == ApplyAll(es).summary == es[k].items
    decreases |es|
  {
    hide HandleEvent, Applied;
    var n := |es| - 1;
    var before := es[..n];
    TellsOn(HandleAll(before), ApplyAll(before), es[n]);
    if k < n {
      SummaryIsShown(before, k);
    } else {
      NoSummaryYet(before);
      assert [] + es[n].items == es[n].items;
    }
  }

  lemma {:induction false} NoSummaryYet(es: seq<Event>)
    requires forall j | 0 <= j < |es| :: !es[j].Summary?
    ensures HandleAll(es).result.summary == ApplyAll(es).summary == []
  {
    hide HandleEvent, Applied;
    if es != [] {
      NoSummaryYet(es[..|es| - 1]);
      TellsOn(HandleAll(es[..|es| - 1]), ApplyAll(es[..|es| - 1]), es[|es| - 1]);
    }
  }

  lemma TellsOn(m: InstallModel, s: GuiState, e: Event)
    ensures var n, t := HandleEvent(m, e).0, Applied(s, e);
      && n.result.summary == (if e.Summary? then e.items else m.result.summary)
      && t.summary == (if e.Summary? then s.summary + e.items else s.summary)
      && t.recoveryKey == (if e.RecoveryKey? then e.key else s.recoveryKey)
  {
    hide PushTail, WeightOf, TuiFraction, GuiFraction, IsDeprecation, Logged;
  }

  /** The graphical state holds the key of the last recovery_key, until it is acknowledged. */
  lemma {:induction false} LastKeyIsHeld(es: seq<Event>, k: nat)
    requires k < |es| && es[k].RecoveryKey? && forall j | k < j < |es| :: !es[j].RecoveryKey?
    ensures ApplyAll(es).recoveryKey == es[k].key
    decreases |es|
  {
    hide HandleEvent, Applied;
    var n := |es| - 1;
    TellsOn(HandleAll(es[..n]), ApplyAll(es[..n]), es[n]);
    if k < n {
      LastKeyIsHeld(es[..n], k);
    }
  }

  /** A stream that ends in an error is reported by both with the error's own step, code and
      message. */
  lemma SameDiagnosis(es: seq<Event>)
    requires es != [] && es[|es| - 1].Error?
    ensures var e, r, s := es[|es| - 1], HandleAll(es).result, ApplyAll(es);
      && r.failed && r.failedStep == e.step && r.errorCode == e.code && r.errorMessage == e.message
      && s.phase.Failed? && s.failedStep == e.step && s.errCode == e.code && s.errMessage == e.message
  {}

  /** Done puts the graphical list behind its last step. */
  lemma DoneEndsTheList(es: seq<Event>)
    requires es != [] && es[|es| - 1].Done?
    ensures var s := ApplyAll(es); s.phase.Succeeded? && s.current == |s.steps|
  {}

  /** The bytes the graphical state shows are those of the step's last step_progress; none before
      its first. */
  lemma {:induction false} BytesAreShown(es: seq<Event>, b: nat)
    requires LastStep(es, b) && forall k | 0 <= k < |es| :: !es[k].Done?
    ensures var s := ApplyAll(es);
      && s.current == es[b].index
      && (forall c: nat | LastCount(es, b, c) :: s.stepBytes == es[c].bytes && s.stepTotal == es[c].totalBytes)
      && ((forall k | b < k < |es| :: !Counts(es[k], es[b].index)) ==> s.stepBytes == s.stepTotal == 0)
    decreases |es|
  {
    hide Applied;
    var n := |es| - 1;
    var before := es[..n];
    BytesStep(ApplyAll(before), es[n]);
    if b < n {
      BytesAreShown(before, b);
      assert forall c: nat | c < n && LastCount(es, b, c) :: LastCount(before, b, c);
    }
  }

  lemma BytesStep(s: GuiState, e: Event)
    ensures var t := Applied(s, e);
      if e.StepStart? then t.current == e.index && t.stepBytes == t.stepTotal == 0
      else
        && (!e.Done? ==> t.current == s.current)
        && if e.StepProgress? && e.index == s.current then t.stepBytes == e.bytes && t.stepTotal == e.totalBytes
           else t.stepBytes == s.stepBytes && t.stepTotal == s.stepTotal
  {
    hide WeightOf, GuiFraction, Logged;
  }

  /** The graphical log is the last 200 lines narrated. */
  lemma {:induction false} LogIsTheLast200(es: seq<Event>)
    ensures ApplyAll(es).log == LastOf(Narrated(es), LOG_LEN)
  {
    hide Applied;
    if es != [] {
      var n := |es| - 1;
      LogIsTheLast200(es[..n]);
      LogsOn(ApplyAll(es[..n]), es[n]);
      LastAgain(Narrated(es[..n]), LineOf(es[n]));
    }
  }

  lemma LogsOn(s: GuiState, e: Event)
    ensures Applied(s, e).log == if LineOf(e) == [] then s.log else LastOf(s.log + LineOf(e), LOG_LEN)
  {
    hide WeightOf, GuiFraction;
  }

  lemma LastAgain(lines: seq<TailLine>, line: seq<TailLine>)
    requires |line| <= 1
    ensures line == [] ==> lines + line == lines
    ensures |line| == 1 ==> LastOf(LastOf(lines, LOG_LEN) + line, LOG_LEN) == LastOf(lines + line, LOG_LEN)
  {}

  // ---------- the outcome ----------

  /** What the command that ran the terminal view returns (reportTUIResult): nothing wrong
      exactly when the view saw Done and the pipeline did not fail besides. */
  predicate TuiSucceeded(m: InstallModel, pipelineFault: Option<string>) {
    m.result.done && (pipelineFault.None? || m.result.failed)
  }

  /** Both frontends call the same runs successful: Done was the outcome and the pipeline
      returned no error, however the stream ended. */
  lemma SameOutcome(es: seq<Event>, pipelineFault: Option<string>)
    requires forall k | 0 <= k < |es| - 1 :: !IsTerminal(es[k])
    ensures var m := HandleAll(es);
      var ended := if m.finished then m else Update(m, ChannelClosed).0;
      var s := Closed(ApplyAll(es), pipelineFault);
      && (TuiSucceeded(ended, pipelineFault) <==> s.phase.Succeeded?)
      && (s.phase.Succeeded? <==> es != [] && es[|es| - 1].Done? && pipelineFault.None?)
      && (s.phase.Succeeded? || s.phase.Failed?)
      && (es == [] || !IsTerminal(es[|es| - 1]) ==>
            ended.result.errorCode == s.errCode == CODE_STREAM_TRUNCATED)
  {
    hide HandleEvent, Applied;
    if es == [] {
      Outcomes(NEW_MODEL, NEW_GUI.(phase := Running), pipelineFault);
    } else {
      StillRunning(es[..|es| - 1]);
      var m, s, e := HandleAll(es[..|es| - 1]), ApplyAll(es[..|es| - 1]), es[|es| - 1];
      Ends(m, s, e);
      Outcomes(HandleEvent(m, e).0, Applied(s, e), pipelineFault);
    }
  }

  ghost predicate Open(m: InstallModel, s: GuiState) {
    !m.finished && !m.result.done && !m.result.failed && s.phase.Running?
  }

  lemma Ends(m: InstallModel, s: GuiState, e: Event)
    requires Open(m, s)
    ensures var n, t := HandleEvent(m, e).0, Applied(s, e);
      && (!IsTerminal(e) ==> Open(n, t))
      && (IsTerminal(e) ==> n.finished && n.result.done == e.Done? && n.result.failed == e.Error?
                            && t.phase == if e.Done? then Succeeded else Failed)
  {
    hide PushTail, WeightOf, TuiFraction, GuiFraction, IsDeprecation, Logged;
  }

  lemma Outcomes(m: InstallModel, s: GuiState, pipelineFault: Option<string>)
    requires Open(m, s) || (m.finished && m.result.done != m.result.failed
                            && s.phase == if m.result.done then Succeeded else Failed)
    ensures var ended := if m.finished then m else Update(m, ChannelClosed).0;
      var t := Closed(s, pipelineFault);
      && (TuiSucceeded(ended, pipelineFault) <==> t.phase.Succeeded?)
      && (t.phase.Succeeded? <==> s.phase.Succeeded? && pipelineFault.None?)
      && (t.phase.Succeeded? || t.phase.Failed?)
      && (Open(m, s) ==> ended.result.errorCode == t.errCode == CODE_STREAM_TRUNCATED)
  {}

  lemma {:induction false} StillRunning(es: seq<Event>)
    requires forall k | 0 <= k < |es| :: !IsTerminal(es[k])
    ensures Open(HandleAll(es), ApplyAll(es))
  {
    hide HandleEvent, Applied, Open;
    if es == [] {
      Fresh();
    } else {
      StillRunning(es[..|es| - 1]);
      assert !IsTerminal(es[|es| - 1]);
      Ends(HandleAll(es[..|es| - 1]), ApplyAll(es[..|es| - 1]), es[|es| - 1]);
    }
  }

  lemma Fresh()
    ensures Open(NEW_MODEL, NEW_GUI.(phase := Running))
  {}
}

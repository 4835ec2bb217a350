/** Everything that can happen to the graphical installer, interleaved: scans, clicks,
    signals, a pipeline and its consumer goroutine (gui/internal/installer/app.go). */
module GuiRuns {
  import opened Text
  import opened Progress
  import opened GuiInstall
  import opened GuiApp

  /** A closure waiting for the main thread. */
  datatype Post =
    | ApplyEvent(event: Event)
    | Completion(err: Option<string>)
    | ScanDone(disks: seq<Disk>, failed: bool)
    | SignalPost

  /** `live` counts running pipelines; `stream` holds events the consumer has not posted yet;
      `outcome` is a finished pipeline's error that the consumer has not posted; `silent`
      says that the last pipeline has emitted its terminal event. `good` is the last
      successful scan and `installs` the choices every pipeline was started with. */
  datatype System = System(
    app: App, live: nat, stream: seq<Event>, outcome: Option<Option<string>>, silent: bool,
    posts: seq<Post>, good: seq<Disk>, installs: seq<Choices>, exited: bool)

  const LAUNCHED := System(NEW_APP, 0, [], None, true, [], [], [], false)

  datatype Action =
    | PostScan(disks: seq<Disk>, failed: bool)
    | PostSignal
    | RunPost
    | SelectDisk(k: nat)
    | Answer(n: int)
    | Review(ok: bool)
    | OpenConfirm
    | ClickInstall(valid: bool)
    | ClickStop
    | ClickRetry(reviewOk: bool)
    | AcknowledgeKey
    | CloseWindow
    | QuitAll
    | PipelineEmits(event: Event)
    | PipelineReturns(err: Option<string>)
    | ConsumerPosts
    | ProcessExits

  predicate Enabled(s: System, a: Action) {
    match a
    case PipelineEmits(_) => s.live > 0 && !s.silent
    case PipelineReturns(_) => s.live > 0
    case ConsumerPosts => s.stream != [] || s.outcome.Some?
    case ProcessExits => s.app.exit.closed && (s.app.hasCancel ==> s.live == 0)
    case PostScan(_, _) => true
    case PostSignal => true
    case RunPost => s.posts != [] && !s.app.exit.closed
    case SelectDisk(k) =>
      !s.app.exit.closed && !s.app.scan.err && k < |s.app.scan.disks| && s.app.scan.disks[k].refused == ""
    case OpenConfirm => !s.app.exit.closed && s.app.reviewed.Some?
    case ClickInstall(_) => !s.app.exit.closed && s.app.confirmOpen
    case ClickRetry(_) => !s.app.exit.closed && s.app.inst.phase.Failed?
    case AcknowledgeKey => !s.app.exit.closed && KeyPending(s.app)
    case _ => !s.app.exit.closed
  }

  function Handle(s: System, p: Post): System {
    match p
    case ApplyEvent(e) => s.(app := s.app.(inst := Applied(s.app.inst, e)))
    case Completion(err) => s.(app := Completed(s.app, err))
    case ScanDone(disks, failed) =>
      s.(app := Scanned(s.app, disks, failed), good := if failed then s.good else disks)
    case SignalPost => s.(app := Signalled(s.app))
  }

  function Click(s: System, a: Action): System
    requires Enabled(s, a)
  {
    match a
    case SelectDisk(k) =>
      s.(app := s.app.(c := s.app.c.(disk := s.app.scan.disks[k].path), scan := s.app.scan.(notice := false)))
    case Answer(n) => s.(app := s.app.(c := s.app.c.(answers := n)))
    case Review(ok) => s.(app := s.app.(reviewed := if ok then Some(s.app.c) else None))
    case OpenConfirm => s.(app := s.app.(confirmOpen := true))
    case ClickInstall(valid) =>
      var t := s.(app := Started(s.app, valid));
      if MayStart(s.app, valid) then
        t.(live := s.live + 1, silent := false, installs := s.installs + [s.app.c])
      else t
    case ClickStop => s.(app := Cancelled(s.app))
    case ClickRetry(reviewOk) => s.(app := Retried(s.app, reviewOk))
    case AcknowledgeKey => s.(app := s.app.(inst := s.app.inst.(recoveryKey := "")))
    case CloseWindow => s.(app := CloseRequested(s.app))
    case QuitAll => s.(app := QuitRequested(s.app))
    case _ => s
  }

  function Apply(s: System, a: Action): System {
    if !Enabled(s, a) then s
    else
      match a
      case PostScan(disks, failed) => s.(posts := s.posts + [ScanDone(disks, failed)])
      case PostSignal => s.(posts := s.posts + [SignalPost])
      case RunPost => Handle(s.(posts := s.posts[1..]), s.posts[0])
      case PipelineEmits(e) => s.(stream := s.stream + [e], silent := IsTerminal(e))
      case PipelineReturns(err) => s.(live := s.live - 1, outcome := Some(err), silent := true)
      case ConsumerPosts =>
        if s.stream != [] then s.(stream := s.stream[1..], posts := s.posts + [ApplyEvent(s.stream[0])])
        else s.(outcome := None, posts := s.posts + [Completion(s.outcome.value)])
      case ProcessExits => s.(exited := true)
      case _ => Click(s, a)
  }

  function ApplyAll(s: System, actions: seq<Action>): System
    decreases |actions|
  {
    if actions == [] then s else Apply(ApplyAll(s, actions[..|actions| - 1]), actions[|actions| - 1])
  }

  // ---------- the invariant ----------

  /** The posts that belong to an install, in order. */
  function Pending(posts: seq<Post>): seq<Post> {
    if posts == [] then []
    else if posts[0].ApplyEvent? || posts[0].Completion? then [posts[0]] + Pending(posts[1..])
    else Pending(posts[1..])
  }

  function Events(es: seq<Event>): seq<Post> {
    if es == [] then [] else [ApplyEvent(es[0])] + Events(es[1..])
  }

  function Way(posts: seq<Post>, stream: seq<Event>, outcome: Option<Option<string>>): seq<Post> {
    Pending(posts) + Events(stream) + if outcome.Some? then [Completion(outcome.value)] else []
  }

  /** Everything the current pipeline has put on its way to the main thread. */
  function OnItsWay(s: System): seq<Post> {
    Way(s.posts, s.stream, s.outcome)
  }

  predicate TerminalPost(p: Post) {
    p.ApplyEvent? && IsTerminal(p.event)
  }

  predicate HasCompletion(way: seq<Post>) {
    way != [] && way[|way| - 1].Completion?
  }

  /** One install at a time: a cancel function is kept exactly while a pipeline runs or its
      completion is on its way, events reach the attempt that runs, and after a terminal
      event only the completion is left. */
  predicate OneInstall(way: seq<Post>, hasCancel: bool, running: bool, live: nat, silent: bool) {
    && live + (if HasCompletion(way) then 1 else 0) == (if hasCancel then 1 else 0)
    && (forall k | 0 <= k < |way| - 1 :: way[k].ApplyEvent?)
    && (way != [] ==> way[|way| - 1].ApplyEvent? || way[|way| - 1].Completion?)
    && (forall k | 0 <= k < |way| :: TerminalPost(way[k]) ==>
          silent && (k == |way| - 1 || (k == |way| - 2 && HasCompletion(way))))
    && (way != [] && way[0].ApplyEvent? ==> running)
    && (running ==> hasCancel)
    && (!silent ==> running && live > 0)
  }

  ghost predicate Exclusive(s: System) {
    && OneInstall(OnItsWay(s), s.app.hasCancel, Installing(s.app), s.live, s.silent)
    && (s.exited ==> s.app.exit.closed && s.live == 0)
  }

  lemma {:induction false} PendingSnoc(posts: seq<Post>, p: Post)
    ensures Pending(posts + [p]) == Pending(posts) + if p.ApplyEvent? || p.Completion? then [p] else []
  {
    if posts != [] {
      PendingSnoc(posts[1..], p);
      assert (posts + [p])[1..] == posts[1..] + [p];
    }
  }

  lemma {:induction false} EventsSnoc(es: seq<Event>, e: Event)
    ensures Events(es + [e]) == Events(es) + [ApplyEvent(e)]
  {
    if es != [] {
      EventsSnoc(es[1..], e);
      assert (es + [e])[1..] == es[1..] + [e];
    }
  }

  /** What is on its way moves in at the back and out at the front. */
  lemma WayBack(posts: seq<Post>, stream: seq<Event>, e: Event, err: Option<string>)
    ensures Way(posts, stream + [e], None) == Way(posts, stream, None) + [ApplyEvent(e)]
    ensures Way(posts, stream, Some(err)) == Way(posts, stream, None) + [Completion(err)]
  {
    EventsSnoc(stream, e);
  }

  lemma WayFront(posts: seq<Post>, stream: seq<Event>, outcome: Option<Option<string>>)
    requires posts != []
    ensures var own := posts[0].ApplyEvent? || posts[0].Completion?;
      && (own ==> Way(posts, stream, outcome) == [posts[0]] + Way(posts[1..], stream, outcome))
      && (!own ==> Way(posts, stream, outcome) == Way(posts[1..], stream, outcome))
  {
    assert Pending(posts) ==
      (if posts[0].ApplyEvent? || posts[0].Completion? then [posts[0]] else []) + Pending(posts[1..]);
  }

  lemma WayThrough(posts: seq<Post>, stream: seq<Event>, outcome: Option<Option<string>>, p: Post)
    ensures p.ScanDone? || p.SignalPost? ==> Way(posts + [p], stream, outcome) == Way(posts, stream, outcome)
    ensures stream != [] ==>
      Way(posts + [ApplyEvent(stream[0])], stream[1..], outcome) == Way(posts, stream, outcome)
    ensures stream == [] && outcome.Some? ==>
      Way(posts + [Completion(outcome.value)], [], None) == Way(posts, [], outcome)
  {
    PendingSnoc(posts, p);
    if stream != [] {
      PendingSnoc(posts, ApplyEvent(stream[0]));
      assert Events(stream) == [ApplyEvent(stream[0])] + Events(stream[1..]);
    }
    if outcome.Some? {
      PendingSnoc(posts, Completion(outcome.value));
    }
  }

  lemma Popped(p: Post, rest: seq<Post>, hasCancel: bool, running: bool, live: nat, silent: bool)
    requires OneInstall([p] + rest, hasCancel, running, live, silent)
    ensures p.ApplyEvent? ==> OneInstall(rest, hasCancel, running && !TerminalPost(p), live, silent)
    ensures p.Completion? ==> OneInstall(rest, false, false, live, silent) && live == 0 && silent && rest == []
  {
    var way := [p] + rest;
    assert way[0] == p;
    forall k | 0 <= k < |rest| ensures rest[k] == way[k + 1] {
    }
    if rest != [] {
      assert rest[|rest| - 1] == way[|way| - 1] && rest[0] == way[1];
      assert HasCompletion(rest) == HasCompletion(way);
    }
  }

  lemma Pushed(way: seq<Post>, hasCancel: bool, running: bool, live: nat, silent: bool, p: Post)
    requires OneInstall(way, hasCancel, running, live, silent) && live > 0
    ensures p.ApplyEvent? && !silent ==> OneInstall(way + [p], hasCancel, running, live, TerminalPost(p))
    ensures p.Completion? ==> OneInstall(way + [p], hasCancel, running, live - 1, true)
  {}

  /** No event, and no handler but a start, sets the phase to running, and none but the completion drops
      the cancel function. */
  lemma EventHandler(s: GuiState, e: Event)
    ensures s.phase.Running? && !IsTerminal(e) ==> Applied(s, e).phase.Running?
    ensures IsTerminal(e) || !s.phase.Running? ==> !Applied(s, e).phase.Running?
  {
    hide Logged, GuiFraction;
  }

  lemma Handlers(a: App, disks: seq<Disk>, failed: bool, err: Option<string>)
    ensures !Installing(Completed(a, err)) && !Completed(a, err).hasCancel
    ensures forall b <- [Scanned(a, disks, failed), Signalled(a), Cancelled(a), CloseRequested(a), QuitRequested(a)] ::
      b.inst == a.inst && b.hasCancel == a.hasCancel
  {
    hide Logged, GuiFraction, NextChoice;
  }

  lemma OneAtATime(s: System)
    requires Exclusive(s)
    ensures s.live <= 1 && (s.live > 0 ==> s.outcome.None? && s.app.hasCancel)
  {
    assert s.outcome.Some? ==> HasCompletion(OnItsWay(s));
  }

  lemma StartStep(way: seq<Post>, hasCancel: bool, running: bool, live: nat, silent: bool)
    requires OneInstall(way, hasCancel, running, live, silent)
    ensures !hasCancel ==> live == 0 && way == [] && OneInstall(way, true, true, live + 1, false)
  {}

  lemma ExclusiveStep(s: System, a: Action)
    requires Exclusive(s)
    ensures Exclusive(Apply(s, a))
  {
    hide OneInstall, Way, Handle, Click, CloseRequested;
    if Enabled(s, a) {
      OneAtATime(s);
      match a
      case PipelineEmits(e) =>
        WayBack(s.posts, s.stream, e, None);
        Pushed(OnItsWay(s), s.app.hasCancel, Installing(s.app), s.live, s.silent, ApplyEvent(e));
      case PipelineReturns(err) =>
        WayBack(s.posts, s.stream, Done, err);
        Pushed(OnItsWay(s), s.app.hasCancel, Installing(s.app), s.live, s.silent, Completion(err));
      case PostScan(disks, failed) => WayThrough(s.posts, s.stream, s.outcome, ScanDone(disks, failed));
      case PostSignal => WayThrough(s.posts, s.stream, s.outcome, SignalPost);
      case ConsumerPosts => WayThrough(s.posts, s.stream, s.outcome, SignalPost);
      case ProcessExits =>
        assert s.live > 0 ==> s.app.hasCancel;
      case RunPost => PostStep(s);
      case _ => ClickStep(s, a);
    }
  }

  lemma ClickStep(s: System, a: Action)
    requires Exclusive(s) && Enabled(s, a)
    requires !a.PipelineEmits? && !a.PipelineReturns? && !a.PostScan? && !a.PostSignal? && !a.ConsumerPosts?
      && !a.ProcessExits? && !a.RunPost?
    ensures Exclusive(Click(s, a))
  {
    hide OneInstall, Way, CloseRequested, QuitRequested, Cancelled;
    Handlers(s.app, [], false, None);
    StartStep(OnItsWay(s), s.app.hasCancel, Installing(s.app), s.live, s.silent);
    RetryStep(OnItsWay(s), s.app.hasCancel, Installing(s.app), s.live, s.silent);
  }

  lemma RetryStep(way: seq<Post>, hasCancel: bool, running: bool, live: nat, silent: bool)
    requires OneInstall(way, hasCancel, running, live, silent)
    ensures !running ==> OneInstall(way, hasCancel, false, live, silent)
  {}

  lemma PostStep(s: System)
    requires Exclusive(s) && Enabled(s, RunPost)
    ensures Exclusive(Apply(s, RunPost))
  {
    hide Way, OneInstall, Scanned, Completed, Signalled, Applied;
    WayFront(s.posts, s.stream, s.outcome);
    var p, next := s.posts[0], OnItsWay(s.(posts := s.posts[1..]));
    match p
    case ApplyEvent(e) =>
      Popped(p, next, s.app.hasCancel, Installing(s.app), s.live, s.silent);
      EventHandler(s.app.inst, e);
    case Completion(err) =>
      Popped(p, next, s.app.hasCancel, Installing(s.app), s.live, s.silent);
      Handlers(s.app, [], false, err);
    case ScanDone(disks, failed) => Handlers(s.app, disks, failed, None);
    case SignalPost => Handlers(s.app, [], false, None);
  }

  // ---------- the chosen disk ----------

  predicate SomeUsable(disks: seq<Disk>, path: string) {
    exists d <- disks :: d.path == path && d.refused == ""
  }

  predicate SoundChoice(s: System) {
    var scan, chosen := s.app.scan, s.app.c.disk;
    && (chosen != "" ==> scan.scanned && SomeUsable(s.good, chosen))
    && (!scan.err ==> scan.disks == s.good)
    && (!scan.scanned ==> s.good == [])
    && (forall c <- s.installs :: c.disk != "")
  }

  lemma {:induction false} FirstIsSome(disks: seq<Disk>, path: string)
    ensures Usable(disks, path) ==> SomeUsable(disks, path)
    ensures FirstUsable(disks).Some? ==> SomeUsable(disks, FirstUsable(disks).value.path)
    ensures FirstAt(disks, path).Some? ==> FirstAt(disks, path).value.path == path
  {
    if disks != [] {
      FirstIsSome(disks[1..], path);
      assert disks == [disks[0]] + disks[1..];
    }
  }

  lemma ChoiceStep(s: System, a: Action)
    requires SoundChoice(s)
    ensures SoundChoice(Apply(s, a))
  {
    hide Handle, Click, SomeUsable;
    if Enabled(s, a) {
      match a
      case RunPost =>
        ChoicePost(s.(posts := s.posts[1..]), s.posts[0]);
      case _ => ChoiceClick(s, a);
    }
  }

  lemma ChoicePost(s: System, p: Post)
    requires SoundChoice(s)
    ensures SoundChoice(Handle(s, p))
  {
    hide FirstUsable, Usable, Applied, Completed, Signalled, SomeUsable;
    match p
    case ScanDone(disks, failed) => FirstIsSome(disks, s.app.c.disk);
    case Completion(err) => SameChoice(s.app, err);
    case SignalPost => SameChoice(s.app, None);
    case _ =>
  }

  lemma SameChoice(a: App, err: Option<string>)
    ensures forall b <- [Completed(a, err), Signalled(a), Cancelled(a), CloseRequested(a), QuitRequested(a)] ::
      b.c == a.c && b.scan == a.scan
  {
    hide Closed;
  }

  lemma ChoiceClick(s: System, a: Action)
    requires SoundChoice(s) && Enabled(s, a)
    ensures SoundChoice(Click(s, a))
  {
    hide Cancelled, CloseRequested, QuitRequested, SomeUsable;
    SameChoice(s.app, None);
    if a.SelectDisk? {
      Selected(s.good, a.k);
    }
  }

  lemma Selected(disks: seq<Disk>, k: nat)
    ensures k < |disks| && disks[k].refused == "" ==> SomeUsable(disks, disks[k].path)
  {}

  // ---------- leaving ----------

  predicate SafeExit(s: System) {
    SafeApp(s.app)
  }

  lemma ExitStep(s: System, a: Action)
    requires SafeExit(s)
    ensures SafeExit(Apply(s, a))
  {
    hide Handle, Click;
    if Enabled(s, a) {
      match a
      case RunPost => ExitPost(s.(posts := s.posts[1..]), s.posts[0]);
      case _ => ExitClick(s, a);
    }
  }

  predicate SafeApp(a: App) {
    && (a.exit.closed ==> !Installing(a) && (KeyPending(a) ==> a.exit.forceQuit))
    && (a.exit.forceQuit ==> a.exit.signals > 0 || a.exit.quitWhenDone)
  }

  lemma ExitPost(s: System, p: Post)
    requires SafeExit(s) && !s.app.exit.closed
    ensures SafeExit(Handle(s, p))
  {
    hide Applied, Completed, Signalled, Scanned;
    match p
    case Completion(err) => CompletionIsSafe(s.app, err);
    case SignalPost => SignalIsSafe(s.app);
    case ScanDone(disks, failed) => ScanKeepsExit(s.app, disks, failed);
    case _ =>
  }

  lemma CompletionIsSafe(a: App, err: Option<string>)
    requires SafeApp(a) && !a.exit.closed
    ensures SafeApp(Completed(a, err))
  {
    hide Closed;
    CompletionRuns(a, err);
  }

  lemma SignalIsSafe(a: App)
    requires SafeApp(a) && !a.exit.closed
    ensures SafeApp(Signalled(a))
  {}

  lemma ScanKeepsExit(a: App, disks: seq<Disk>, failed: bool)
    ensures Scanned(a, disks, failed).exit == a.exit
  {}

  lemma ExitClick(s: System, a: Action)
    requires SafeExit(s) && Enabled(s, a)
    ensures SafeExit(Click(s, a))
  {}

  lemma CompletionRuns(a: App, err: Option<string>)
    ensures !Closed(a.inst, err).phase.Running?
  {}

  // ---------- every interleaving ----------

  ghost predicate Inv(s: System) {
    Exclusive(s) && SoundChoice(s) && SafeExit(s)
  }

  lemma {:induction false} EveryInterleaving(actions: seq<Action>)
    ensures Inv(ApplyAll(LAUNCHED, actions))
    decreases |actions|
  {
    hide Exclusive, SoundChoice, SafeExit, Apply;
    if actions == [] {
      LaunchedInv();
    } else {
      EveryInterleaving(actions[..|actions| - 1]);
      var s, a := ApplyAll(LAUNCHED, actions[..|actions| - 1]), actions[|actions| - 1];
      ExclusiveStep(s, a);
      ChoiceStep(s, a);
      ExitStep(s, a);
    }
  }

  lemma LaunchedInv()
    ensures Inv(LAUNCHED)
  {}

  /** At most one pipeline is ever alive, and while one is, its cancel function is kept, so
      another start is refused; the process never exits with a pipeline alive. */
  lemma OnePipeline(actions: seq<Action>)
    ensures var s := ApplyAll(LAUNCHED, actions);
      && s.live <= 1
      && (s.live == 1 || Installing(s.app) ==> s.app.hasCancel && forall valid :: !MayStart(s.app, valid))
      && (s.exited ==> s.live == 0)
  {
    EveryInterleaving(actions);
    OneAtATime(ApplyAll(LAUNCHED, actions));
  }

  /** Every event reaches the attempt whose pipeline emitted it: none is ever applied to an
      attempt that has ended, nor to one that a retry made afterwards. */
  lemma EventsReachTheirAttempt(actions: seq<Action>)
    ensures var s := ApplyAll(LAUNCHED, actions);
      s.posts != [] ==>
        && (s.posts[0].ApplyEvent? ==> Installing(s.app) && s.app.hasCancel)
        && (s.posts[0].Completion? ==> s.app.hasCancel && s.live == 0)
  {
    hide Way;
    EveryInterleaving(actions);
    var s := ApplyAll(LAUNCHED, actions);
    if s.posts != [] {
      WayFront(s.posts, s.stream, s.outcome);
      if s.posts[0].Completion? {
        Popped(s.posts[0], OnItsWay(s.(posts := s.posts[1..])), s.app.hasCancel, Installing(s.app), s.live, s.silent);
      }
    }
  }

  /** A pipeline is started with exactly the reviewed choices, onto a disk that the last
      successful scan listed as usable. */
  lemma StartsAsReviewed(actions: seq<Action>, valid: bool)
    ensures var s := ApplyAll(LAUNCHED, actions);
      var t := Apply(s, ClickInstall(valid));
      t.live > s.live ==>
        && t.installs == s.installs + [s.app.c] && s.app.reviewed == Some(s.app.c)
        && s.live == 0 && SomeUsable(s.good, s.app.c.disk)
  {
    EveryInterleaving(actions);
    OneAtATime(ApplyAll(LAUNCHED, actions));
  }

  /** The window closes only when no install runs, and over an unacknowledged recovery key
      only after a signal or a quit asked for during the install. */
  lemma ClosesSafely(actions: seq<Action>)
    ensures var s := ApplyAll(LAUNCHED, actions);
      s.app.exit.closed ==>
        !Installing(s.app) && (KeyPending(s.app) ==> s.app.exit.signals > 0 || s.app.exit.quitWhenDone)
  {
    hide Exclusive, SoundChoice;
    EveryInterleaving(actions);
  }

  // ---------- what a click or a signal does come to ----------

  /** A confirmed click starts a pipeline exactly when none runs, none's completion is pending, and
      the choices are those that were reviewed, with a disk and a valid recipe. */
  lemma StartsExactlyWhen(s: System, valid: bool)
    requires !s.app.exit.closed && s.app.confirmOpen
    ensures var a, t := s.app, Apply(s, ClickInstall(valid));
      if !a.inst.phase.Running? && !a.hasCancel && a.reviewed == Some(a.c) && a.c.disk != "" && valid then
        && t.live == s.live + 1 && t.installs == s.installs + [a.c] && t.app.hasCancel && !t.app.confirmOpen
        && t.app.inst == NEW_GUI.(phase := Running) && !t.app.canceling && t.app.c == a.c
      else t == s.(app := a.(confirmOpen := false))
  {}

  /** What the user chose, answered and had reviewed is what an idle window's confirmed click
      installs; without a good review it installs nothing. */
  lemma ClicksInstall(s: System, k: nat, n: int, ok: bool, valid: bool)
    requires Enabled(s, SelectDisk(k)) && s.app.scan.disks[k].path != "" && !Installing(s.app) && !s.app.hasCancel
    ensures var t := Apply(Apply(Apply(s, SelectDisk(k)), Answer(n)), Review(ok));
      var u := Apply(Apply(t, OpenConfirm), ClickInstall(valid));
      && !t.app.scan.notice && t.app.c == s.app.c.(disk := s.app.scan.disks[k].path, answers := n)
      && (ok && valid ==> u.live == s.live + 1 && u.installs == s.installs + [t.app.c])
      && (!ok || !valid ==> u.live == s.live && u.installs == s.installs)
  {}

  /** Retry leaves nothing of the failed attempt, and a confirmed click then starts a pipeline
      exactly when the review made anew succeeded, the recipe is valid, a disk is chosen, and the
      failed attempt's completion has come. */
  lemma RetryStartsOver(s: System, reviewOk: bool, valid: bool)
    requires !s.app.exit.closed && s.app.inst.phase.Failed?
    ensures var t := Apply(s, ClickRetry(reviewOk));
      t == s.(app := s.app.(inst := t.app.inst, canceling := false, reviewed := t.app.reviewed))
      && t.app.inst == NEW_GUI && t.app.reviewed == if reviewOk then Some(s.app.c) else None
    ensures var t := Apply(Apply(Apply(s, ClickRetry(reviewOk)), OpenConfirm), ClickInstall(valid));
      if reviewOk && valid && s.app.c.disk != "" && !s.app.hasCancel then
        t.live == s.live + 1 && t.installs == s.installs + [s.app.c]
      else t.live == s.live && t.installs == s.installs
  {
    hide Logged, GuiFraction;
  }

  /** Stop marks a running install as being cancelled, once, and nothing else. */
  lemma StopCancels(s: System)
    requires !s.app.exit.closed
    ensures Apply(s, ClickStop) ==
      if s.app.hasCancel && s.app.inst.phase.Running? then s.(app := s.app.(canceling := true)) else s
  {}

  /** A request to close closes the window or says why not, and does nothing else. */
  lemma ClosesOrExplains(s: System)
    requires !s.app.exit.closed
    ensures var a, t := s.app, Apply(s, CloseWindow);
      if !a.inst.phase.Running? && (a.inst.recoveryKey == "" || a.exit.forceQuit) then
        t == s.(app := a.(exit := a.exit.(closed := true)))
      else t == s.(app := a.(exit := a.exit.(closeDenied := true)))
  {}

  /** A quit does too in an idle window; one during an install cancels it, and its completion closes
      the window. */
  lemma QuitsOrCancels(s: System, err: Option<string>)
    requires !s.app.exit.closed
    ensures var t := Apply(s, QuitAll);
      if Installing(s.app) then
        && (s.app.hasCancel ==> t.app.canceling) && !t.app.exit.closed && Completed(t.app, err).exit.closed
      else t == Apply(s, CloseWindow)
  {
    hide Logged, GuiFraction;
    CompletionRuns(s.app, err);
  }

  /** What is posted waits behind what was posted before it, and is handled when its turn comes. */
  lemma PostsTakeTurns(s: System, p: Post, disks: seq<Disk>, failed: bool)
    requires s.posts == [p] && !s.app.exit.closed && !Handle(s, p).app.exit.closed
    ensures var t := Handle(s, p).(posts := []);
      && Apply(Apply(Apply(s, PostScan(disks, failed)), RunPost), RunPost).app == Scanned(t.app, disks, failed)
      && Apply(Apply(Apply(s, PostSignal), RunPost), RunPost).app == Signalled(t.app)
  {
    hide Applied, Completed, Signalled, Scanned;
    assert (s.posts + [SignalPost])[1..] == [SignalPost];
    assert (s.posts + [ScanDone(disks, failed)])[1..] == [ScanDone(disks, failed)];
  }

  /** Signals leave: the second at the latest closes an idle window, the first one if no key is
      shown, and else it is only answered; one during an install cancels it, and its completion
      closes the window. */
  lemma SignalsLeave(a: App, err: Option<string>)
    ensures !a.inst.phase.Running? ==> Signalled(Signalled(a)).exit.closed
    ensures !a.inst.phase.Running? && (a.inst.recoveryKey == "" || a.exit.signals > 0) ==> Signalled(a).exit.closed
    ensures !a.inst.phase.Running? && a.inst.recoveryKey != "" && a.exit.signals == 0 ==>
      Signalled(a) == a.(exit := a.exit.(signals := 1, closeDenied := true))
    ensures a.inst.phase.Running? ==>
      (a.hasCancel ==> Signalled(a).canceling) && Completed(Signalled(a), err).exit.closed
  {
    hide Logged, GuiFraction;
    CompletionRuns(a, err);
  }

  // ---------- the way out ----------

  predicate Leads(a: Action) {
    a.PipelineReturns? || a.ConsumerPosts? || a.RunPost? || a.PostSignal? || a.ProcessExits?
  }

  /** Nobody is locked in: whatever has happened, the pipeline's return, what is on its way and two
      signals lead to the process's end. */
  lemma AlwaysAWayOut(actions: seq<Action>) returns (more: seq<Action>)
    ensures ApplyAll(ApplyAll(LAUNCHED, actions), more).exited
    ensures forall a <- more :: Leads(a)
  {
    EveryInterleaving(actions);
    more := WayOut(ApplyAll(LAUNCHED, actions));
  }

  function Left(s: System): nat {
    2 * (2 * s.live + |s.stream| + if s.outcome.Some? then 1 else 0) + |s.posts|
  }

  lemma {:induction false} WayOut(s: System) returns (more: seq<Action>)
    requires Exclusive(s)
    ensures ApplyAll(s, more).exited && forall a <- more :: Leads(a)
    decreases Left(s)
  {
    hide Exclusive, Handle;
    if s.live > 0 {
      more := Next(s, PipelineReturns(None));
    } else if s.app.exit.closed {
      more := ExitNow(s);
    } else if s.stream != [] || s.outcome.Some? {
      more := Next(s, ConsumerPosts);
    } else if s.posts != [] {
      HandledStays(s.(posts := s.posts[1..]), s.posts[0]);
      more := Next(s, RunPost);
    } else {
      more := TwoSignals(s);
    }
  }

  lemma {:induction false} Next(s: System, a: Action) returns (more: seq<Action>)
    requires Exclusive(s) && Leads(a) && Left(Apply(s, a)) < Left(s)
    ensures ApplyAll(s, more).exited && forall a <- more :: Leads(a)
    decreases Left(s), 0
  {
    hide Exclusive, Apply, ApplyAll;
    ExclusiveStep(s, a);
    var rest := WayOut(Apply(s, a));
    more := [a] + rest;
    AfterOne(s, a, rest);
  }

  lemma HandledStays(s: System, p: Post)
    ensures var t := Handle(s, p);
      t.live == s.live && t.stream == s.stream && t.outcome == s.outcome && t.posts == s.posts
  {
    hide Applied, Completed, Signalled, Scanned;
  }

  lemma TwoSignals(s: System) returns (more: seq<Action>)
    requires Exclusive(s) && Left(s) == 0 && !s.app.exit.closed
    ensures ApplyAll(s, more).exited && forall a <- more :: Leads(a)
  {
    hide Signalled, Apply, ApplyAll;
    Idle(s);
    SignalsLeave(s.app, None);
    var first, second := s.(app := Signalled(s.app)), s.(app := Signalled(Signalled(s.app)));
    if first.app.exit.closed {
      more := ExitNow(first);
    } else {
      more := ExitNow(second);
      more := Signal(first, more);
    }
    more := Signal(s, more);
  }

  lemma Idle(s: System)
    requires Exclusive(s) && Left(s) == 0
    ensures !Installing(s.app) && !s.app.hasCancel && s.live == 0 && s.posts == []
    ensures Signalled(s.app).hasCancel == s.app.hasCancel
    ensures Signalled(Signalled(s.app)).hasCancel == s.app.hasCancel
  {
    assert OnItsWay(s) == [];
  }

  lemma ExitNow(s: System) returns (more: seq<Action>)
    requires s.app.exit.closed && s.live == 0
    ensures ApplyAll(s, more).exited && forall a <- more :: Leads(a)
  {
    more := [ProcessExits];
    assert more[..0] == [];
  }

  lemma Signal(s: System, more: seq<Action>) returns (all: seq<Action>)
    requires s.posts == [] && !s.app.exit.closed && (forall a <- more :: Leads(a))
    requires ApplyAll(s.(app := Signalled(s.app)), more).exited
    ensures ApplyAll(s, all).exited && forall a <- all :: Leads(a)
  {
    hide Signalled, ApplyAll;
    all := [PostSignal] + ([RunPost] + more);
    AfterOne(s, PostSignal, [RunPost] + more);
    AfterOne(Apply(s, PostSignal), RunPost, more);
    assert Apply(Apply(s, PostSignal), RunPost) == s.(app := Signalled(s.app));
  }

  lemma {:induction false} AfterOne(s: System, a: Action, more: seq<Action>)
    ensures ApplyAll(s, [a] + more) == ApplyAll(Apply(s, a), more)
    decreases |more|
  {
    hide Apply;
    var all, n := [a] + more, |more|;
    assert all[..n] == if n == 0 then [] else [a] + more[..n - 1];
    if n > 0 {
      AfterOne(s, a, more[..n - 1]);
    } else {
      assert ApplyAll(s, []) == s && all == [a];
    }
  }

  // ---------- the recovery key ----------

  /** This action shows the window a recovery key. */
  ghost predicate BringsKey(s: System, a: Action, key: string) {
    Enabled(s, a) && a.RunPost? && s.posts[0] == ApplyEvent(RecoveryKey(key))
  }

  /** This one takes it away: the user's word that it is saved, a new attempt, or another key. */
  ghost predicate TakesKey(s: System, a: Action) {
    && Enabled(s, a)
    && (|| a.AcknowledgeKey? || a.ClickRetry?
        || (a.ClickInstall? && MayStart(s.app, a.valid))
        || (a.RunPost? && s.posts[0].ApplyEvent? && s.posts[0].event.RecoveryKey?))
  }

  /** In every interleaving a recovery key that was shown stays until it is taken, and while one is
      there a close is refused unless the quit is forced. */
  lemma {:induction false} KeyStays(s: System, actions: seq<Action>, i: nat, key: string)
    requires i < |actions| && BringsKey(ApplyAll(s, actions[..i]), actions[i], key)
    requires forall j | i < j < |actions| :: !TakesKey(ApplyAll(s, actions[..j]), actions[j])
    ensures var a := ApplyAll(s, actions).app;
      && a.inst.recoveryKey == key
      && (key != "" && !a.exit.forceQuit && !a.exit.closed ==> !CloseRequested(a).exit.closed)
    decreases |actions|
  {
    hide Apply, BringsKey, TakesKey;
    var n := |actions| - 1;
    var before := ApplyAll(s, actions[..n]);
    KeyMove(before, actions[n]);
    if i < n {
      assert actions[..n][..i] == actions[..i] && actions[..n][i] == actions[i];
      forall j | i < j < n ensures !TakesKey(ApplyAll(s, actions[..n][..j]), actions[..n][j]) {
        assert actions[..n][..j] == actions[..j];
      }
      KeyStays(s, actions[..n], i, key);
    } else {
      KeyBrought(before, actions[n], key);
    }
    KeyBlocksClose(ApplyAll(s, actions).app);
  }

  /** Once its key is acknowledged a window is without one until a pipeline shows another. */
  lemma {:induction false} AcknowledgedIsGone(s: System, actions: seq<Action>, i: nat)
    requires i < |actions| && actions[i].AcknowledgeKey? && KeyPending(ApplyAll(s, actions[..i]).app)
    requires !ApplyAll(s, actions[..i]).app.exit.closed
    requires forall j | i < j < |actions| :: forall key :: !BringsKey(ApplyAll(s, actions[..j]), actions[j], key)
    ensures ApplyAll(s, actions).app.inst.recoveryKey == ""
    decreases |actions|
  {
    hide Apply, BringsKey;
    var n := |actions| - 1;
    var before := ApplyAll(s, actions[..n]);
    if i < n {
      assert actions[..n][..i] == actions[..i] && actions[..n][i] == actions[i];
      forall j, key | i < j < n ensures !BringsKey(ApplyAll(s, actions[..n][..j]), actions[..n][j], key) {
        assert actions[..n][..j] == actions[..j];
      }
      AcknowledgedIsGone(s, actions[..n], i);
      StaysAway(before, actions[n]);
    } else {
      Acknowledged(before);
    }
  }

  lemma Acknowledged(s: System)
    requires KeyPending(s.app) && !s.app.exit.closed
    ensures Apply(s, AcknowledgeKey).app.inst.recoveryKey == ""
  {}

  lemma StaysAway(s: System, a: Action)
    requires s.app.inst.recoveryKey == "" && forall key :: !BringsKey(s, a, key)
    ensures Apply(s, a).app.inst.recoveryKey == ""
  {
    hide Applied, Completed, Signalled, Scanned, NextChoice, CloseAllowed, Persistable;
    if TakesKey(s, a) {
      assert a.RunPost? ==> BringsKey(s, a, s.posts[0].event.key);
    } else {
      KeyMove(s, a);
    }
  }

  lemma KeyBlocksClose(a: App)
    ensures a.inst.recoveryKey != "" && !a.exit.forceQuit && !a.exit.closed ==> !CloseRequested(a).exit.closed
  {}

  lemma KeyBrought(s: System, a: Action, key: string)
    requires BringsKey(s, a, key)
    ensures Apply(s, a).app.inst.recoveryKey == key
  {}

  lemma KeyMove(s: System, a: Action)
    ensures !TakesKey(s, a) ==> Apply(s, a).app.inst.recoveryKey == s.app.inst.recoveryKey
  {
    hide Handle, Click;
    if Enabled(s, a) && !TakesKey(s, a) {
      match a
      case RunPost => KeyPost(s.(posts := s.posts[1..]), s.posts[0]);
      case _ => KeyClick(s, a);
    }
  }

  lemma KeyPost(s: System, p: Post)
    requires !(p.ApplyEvent? && p.event.RecoveryKey?)
    ensures Handle(s, p).app.inst.recoveryKey == s.app.inst.recoveryKey
  {
    hide Applied, Completed, Scanned, Signalled;
    match p
    case ApplyEvent(e) => KeyAfter(s.app.inst, e);
    case Completion(err) => KeyAtEnd(s.app, err);
    case ScanDone(disks, failed) => OthersKeep(s.app, Scanned(s.app, disks, failed), disks, failed);
    case SignalPost => OthersKeep(s.app, Signalled(s.app), [], true);
  }

  lemma KeyAfter(s: GuiState, e: Event)
    ensures Applied(s, e).recoveryKey == if e.RecoveryKey? then e.key else s.recoveryKey
  {
    hide Logged, GuiFraction;
  }

  lemma KeyAtEnd(a: App, err: Option<string>)
    ensures Completed(a, err).inst.recoveryKey == a.inst.recoveryKey
  {
    hide Logged, GuiFraction, Cancelled, CloseRequested;
    var b := a.(inst := Closed(a.inst, err), hasCancel := false);
    Handlers(Forced(b), [], true, err);
  }

  lemma OthersKeep(a: App, b: App, disks: seq<Disk>, failed: bool)
    requires b == Scanned(a, disks, failed) || b == Signalled(a)
    ensures b.inst == a.inst
  {
    hide Scanned, Signalled;
    Handlers(a, disks, failed, None);
    var all := [Scanned(a, disks, failed), Signalled(a), Cancelled(a), CloseRequested(a), QuitRequested(a)];
    assert all[0] == Scanned(a, disks, failed) && all[1] == Signalled(a);
  }

  lemma KeyClick(s: System, a: Action)
    requires Enabled(s, a) && !TakesKey(s, a)
    ensures Click(s, a).app.inst.recoveryKey == s.app.inst.recoveryKey
  {
    hide Applied, NextChoice, CloseAllowed, Persistable;
  }

  ghost predicate FirstWithPath(disks: seq<Disk>, path: string, k: nat) {
    k < |disks| && disks[k].path == path && forall j | 0 <= j < k :: disks[j].path != path
  }

  /** The first entry with this path, which is the one that counts, is not refused. */
  ghost predicate StillUsable(disks: seq<Disk>, path: string) {
    exists k: nat :: FirstWithPath(disks, path, k) && disks[k].refused == ""
  }

  ghost predicate FirstNotRefused(disks: seq<Disk>, k: nat) {
    k < |disks| && disks[k].refused == "" && forall j | 0 <= j < k :: disks[j].refused != ""
  }

  lemma {:induction false} FirstAtIs(disks: seq<Disk>, path: string, k: nat)
    requires FirstWithPath(disks, path, k)
    ensures FirstAt(disks, path) == Some(disks[k])
    decreases k
  {
    if k > 0 {
      FirstAtIs(disks[1..], path, k - 1);
    }
  }

  lemma {:induction false} FirstAtWhere(disks: seq<Disk>, path: string) returns (k: nat)
    ensures FirstAt(disks, path).Some? ==> FirstWithPath(disks, path, k) && FirstAt(disks, path).value == disks[k]
  {
    k := 0;
    if disks != [] && disks[0].path != path {
      k := FirstAtWhere(disks[1..], path);
      k := k + 1;
    }
  }

  lemma UsableIs(disks: seq<Disk>, path: string)
    ensures Usable(disks, path) <==> StillUsable(disks, path)
  {
    hide FirstAt;
    var k := FirstAtWhere(disks, path);
    if StillUsable(disks, path) {
      var j: nat :| FirstWithPath(disks, path, j) && disks[j].refused == "";
      FirstAtIs(disks, path, j);
    }
  }

  lemma {:induction false} FirstUsableWhere(disks: seq<Disk>) returns (k: nat)
    ensures FirstUsable(disks).None? ==> forall j | 0 <= j < |disks| :: disks[j].refused != ""
    ensures FirstUsable(disks).Some? ==> FirstNotRefused(disks, k) && FirstUsable(disks).value == disks[k]
  {
    k := 0;
    if disks != [] && disks[0].refused != "" {
      k := FirstUsableWhere(disks[1..]);
      k := k + 1;
      forall j | 0 <= j < |disks| && FirstUsable(disks).None? ensures disks[j].refused != "" {
        assert j > 0 ==> disks[j] == disks[1..][j - 1];
      }
    }
  }

  /** A successful scan keeps an earlier choice, and the notice as it was, exactly when the first
      entry with its path is there and not refused; else the choice is cleared with a notice. With
      no choice the first successful scan chooses the first entry that is not refused, if there is
      one, and a later scan none. A failed scan leaves the choice alone. */
  lemma ScanKeepsOrClears(a: App, disks: seq<Disk>, failed: bool)
    ensures var b := Scanned(a, disks, failed);
      && b.c.answers == a.c.answers && (b.scan.scanned <==> a.scan.scanned || !failed)
      && b.scan.disks == disks && (b.scan.err <==> failed)
      && (failed ==> b.c == a.c && b.scan.notice == a.scan.notice)
      && (!failed && a.c.disk != "" ==>
            if StillUsable(disks, a.c.disk) then b.c == a.c && b.scan.notice == a.scan.notice
            else b.c.disk == "" && b.scan.notice)
      && (!failed && a.c.disk == "" ==> b.scan.notice == a.scan.notice)
      && (!failed && a.c.disk == "" && a.scan.scanned ==> b.c == a.c)
      && (!failed && a.c.disk == "" && !a.scan.scanned ==>
            || (b.c.disk == "" && forall k | 0 <= k < |disks| :: disks[k].refused != "")
            || (exists k: nat :: FirstNotRefused(disks, k) && b.c.disk == disks[k].path))
  {
    hide Usable, FirstUsable, StillUsable, FirstNotRefused;
    UsableIs(disks, a.c.disk);
    var k := FirstUsableWhere(disks);
  }

  /** After the first successful scan nothing but the user's own selection ever moves the
      choice to another disk, whatever scans, installs and retries come in between. */
  lemma {:induction false} OnlyTheUserChooses(s: System, actions: seq<Action>)
    requires s.app.scan.scanned && forall k | 0 <= k < |actions| :: !actions[k].SelectDisk?
    ensures var t := ApplyAll(s, actions);
      t.app.scan.scanned && (t.app.c.disk == s.app.c.disk || t.app.c.disk == "")
    decreases |actions|
  {
    hide Apply;
    if actions != [] {
      OnlyTheUserChooses(s, actions[..|actions| - 1]);
      ChoiceMove(ApplyAll(s, actions[..|actions| - 1]), actions[|actions| - 1]);
    }
  }

  /** A scan whose handling finds the chosen disk gone or refused. */
  ghost predicate ClearsChoice(s: System, a: Action) {
    && Enabled(s, a) && a.RunPost? && s.posts[0].ScanDone?
    && !s.posts[0].failed && !StillUsable(s.posts[0].disks, s.app.c.disk)
  }

  /** And what the user selected stays chosen until another selection or such a scan. */
  lemma {:induction false} SelectionStays(s: System, actions: seq<Action>, i: nat, path: string)
    requires i < |actions| && actions[i].SelectDisk? && Enabled(ApplyAll(s, actions[..i]), actions[i])
    requires ApplyAll(s, actions[..i]).app.scan.disks[actions[i].k].path == path != ""
    requires forall j | i < j < |actions| ::
      !actions[j].SelectDisk? && !ClearsChoice(ApplyAll(s, actions[..j]), actions[j])
    ensures ApplyAll(s, actions).app.c.disk == path
    decreases |actions|
  {
    hide Apply, Enabled, ClearsChoice;
    var n := |actions| - 1;
    var before := ApplyAll(s, actions[..n]);
    if i < n {
      assert actions[..n][..i] == actions[..i] && actions[..n][i] == actions[i];
      forall j | i < j < n ensures !ClearsChoice(ApplyAll(s, actions[..n][..j]), actions[..n][j]) {
        assert actions[..n][..j] == actions[..j];
      }
      SelectionStays(s, actions[..n], i, path);
      ChoiceHolds(before, actions[n]);
    } else {
      Chosen(before, actions[n].k);
    }
  }

  lemma Chosen(s: System, k: nat)
    requires Enabled(s, SelectDisk(k))
    ensures Apply(s, SelectDisk(k)).app.c.disk == s.app.scan.disks[k].path
  {}

  lemma ChoiceHolds(s: System, a: Action)
    requires s.app.c.disk != "" && !a.SelectDisk? && !ClearsChoice(s, a)
    ensures Apply(s, a).app.c.disk == s.app.c.disk
  {
    hide Handle, Click, StillUsable;
    if Enabled(s, a) {
      match a
      case RunPost =>
        HoldsByPost(s.(posts := s.posts[1..]), s.posts[0]);
      case _ => MoveByClick(s, a);
    }
  }

  lemma HoldsByPost(s: System, p: Post)
    requires s.app.c.disk != "" && (p.ScanDone? && !p.failed ==> StillUsable(p.disks, s.app.c.disk))
    ensures Handle(s, p).app.c.disk == s.app.c.disk
  {
    hide Applied, Completed, Signalled, Scanned, StillUsable;
    match p
    case ScanDone(disks, failed) => ScanKeepsOrClears(s.app, disks, failed);
    case Completion(err) => SameChoice(s.app, err);
    case _ => SameChoice(s.app, None);
  }

  lemma ChoiceMove(s: System, a: Action)
    requires s.app.scan.scanned && !a.SelectDisk?
    ensures var t := Apply(s, a); t.app.scan.scanned && (t.app.c.disk == s.app.c.disk || t.app.c.disk == "")
  {
    hide Handle, Click;
    if Enabled(s, a) {
      match a
      case RunPost => MoveByPost(s.(posts := s.posts[1..]), s.posts[0]);
      case _ => MoveByClick(s, a);
    }
  }

  lemma MoveByPost(s: System, p: Post)
    requires s.app.scan.scanned
    ensures var t := Handle(s, p); t.app.scan.scanned && (t.app.c.disk == s.app.c.disk || t.app.c.disk == "")
  {
    hide Applied, Completed, Signalled, Scanned;
    match p
    case ScanDone(disks, failed) => ScanKeepsOrClears(s.app, disks, failed);
    case Completion(err) => SameChoice(s.app, err);
    case _ => SameChoice(s.app, None);
  }

  lemma MoveByClick(s: System, a: Action)
    requires Enabled(s, a) && !a.SelectDisk?
    ensures Click(s, a).app.scan == s.app.scan && Click(s, a).app.c.disk == s.app.c.disk
  {
    hide Cancelled, CloseRequested, QuitRequested;
    SameChoice(s.app, None);
  }
}

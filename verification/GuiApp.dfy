/** The graphical installer's main-thread state (gui/internal/installer/app.go): disk
    scans, the one install, cancelling, retrying and closing. */
module GuiApp {
  import opened Text
  import opened Progress
  import opened GuiInstall

  datatype Disk = Disk(path: string, refused: string)

  /** The chosen disk and everything else the pages ask for. */
  datatype Choices = Choices(disk: string, answers: int)

  /** The last scan, and the notice that a choice was cleared. */
  datatype Scan = Scan(disks: seq<Disk>, err: bool, scanned: bool, notice: bool)

  /** What decides whether the window may go. */
  datatype Exit = Exit(quitWhenDone: bool, forceQuit: bool, signals: nat, closeDenied: bool, closed: bool)

  datatype App = App(
    scan: Scan, c: Choices, reviewed: Option<Choices>, confirmOpen: bool,
    inst: GuiState, canceling: bool, hasCancel: bool, exit: Exit)

  const NEW_APP := App(Scan([], false, false, false), Choices("", 0), None, false,
                       NEW_GUI, false, false, Exit(false, false, 0, false, false))

  function Installing(a: App): bool {
    a.inst.phase.Running?
  }

  function KeyPending(a: App): bool {
    a.inst.recoveryKey != ""
  }

  // ---------- scans ----------

  /** The first entry with that path: the one that decides. */
  function FirstAt(disks: seq<Disk>, path: string): Option<Disk> {
    if disks == [] then None
    else if disks[0].path == path then Some(disks[0])
    else FirstAt(disks[1..], path)
  }

  function FirstUsable(disks: seq<Disk>): Option<Disk> {
    if disks == [] then None
    else if disks[0].refused == "" then Some(disks[0])
    else FirstUsable(disks[1..])
  }

  predicate Usable(disks: seq<Disk>, path: string) {
    var d := FirstAt(disks, path);
    d.Some? && d.value.refused == ""
  }

  /** The disk chosen after a successful scan: the earlier choice while its first entry is
      not refused; and for the first scan, when nothing is chosen, the first usable disk. */
  function NextChoice(chosen: string, first: bool, disks: seq<Disk>): string {
    if chosen != "" then (if Usable(disks, chosen) then chosen else "")
    else if first && FirstUsable(disks).Some? then FirstUsable(disks).value.path
    else ""
  }

  lemma LaterScan(chosen: string, first: bool, disks: seq<Disk>)
    ensures chosen != "" ==> NextChoice(chosen, first, disks) == NextChoice(chosen, false, disks)
    ensures chosen == "" && !first ==> NextChoice(chosen, first, disks) == ""
  {}

  function Scanned(a: App, disks: seq<Disk>, failed: bool): App {
    if failed then a.(scan := a.scan.(disks := disks, err := true))
    else
      var next := NextChoice(a.c.disk, !a.scan.scanned, disks);
      a.(scan := Scan(disks, false, true, a.scan.notice || (a.c.disk != "" && next == "")),
         c := a.c.(disk := next))
  }

  // ---------- install, cancel, retry ----------

  /** What persist demands: the recipe is still the reviewed one and valid. */
  predicate Persistable(a: App, valid: bool) {
    a.reviewed == Some(a.c) && a.c.disk != "" && valid
  }

  predicate MayStart(a: App, valid: bool) {
    !Installing(a) && !a.hasCancel && Persistable(a, valid)
  }

  function Started(a: App, valid: bool): App {
    if MayStart(a, valid) then
      a.(confirmOpen := false, inst := NEW_GUI.(phase := Running), canceling := false, hasCancel := true)
    else a.(confirmOpen := false)
  }

  function Cancelled(a: App): App {
    if a.hasCancel && Installing(a) then a.(canceling := true) else a
  }

  /** retry, with the review made anew for the current choices. */
  function Retried(a: App, reviewOk: bool): App {
    a.(inst := NEW_GUI, canceling := false, reviewed := if reviewOk then Some(a.c) else None)
  }

  // ---------- leaving ----------

  function CloseAllowed(a: App): bool {
    !Installing(a) && (!KeyPending(a) || a.exit.forceQuit)
  }

  function CloseRequested(a: App): App {
    a.(exit := if CloseAllowed(a) then a.exit.(closed := true) else a.exit.(closeDenied := true))
  }

  function Forced(a: App): App {
    a.(exit := a.exit.(forceQuit := true))
  }

  /** The application's quit: OnBeforeQuit, then the window's OnClose. */
  function QuitRequested(a: App): App {
    if Installing(a) then Cancelled(a.(exit := a.exit.(quitWhenDone := true))) else CloseRequested(a)
  }

  function Signalled(a: App): App {
    var b := a.(exit := a.exit.(signals := a.exit.signals + 1));
    if Installing(a) then QuitRequested(b)
    else if KeyPending(a) && b.exit.signals == 1 then b.(exit := b.exit.(closeDenied := true))
    else QuitRequested(Forced(b))
  }

  /** The post that follows the end of the stream and of the pipeline. */
  function Completed(a: App, err: Option<string>): App {
    var b := a.(inst := Closed(a.inst, err), hasCancel := false);
    if a.exit.quitWhenDone then QuitRequested(Forced(b)) else b
  }

  // ---------- the handlers ----------

  class AppWindow {
    var disks: seq<Disk>
    var disksErr: bool
    var disksScanned: bool
    var c: Choices
    var diskNotice: bool
    var reviewed: Option<Choices>
    var confirmOpen: bool
    var inst: GuiState   // a struct value, as in the source; InstallState.View gives its contents
    var canceling: bool
    var hasCancel: bool
    var quitWhenDone: bool
    var forceQuit: bool
    var signals: nat
    var closeDenied: bool
    var closed: bool

    ghost function View(): App
      reads this
    {
      App(Scan(disks, disksErr, disksScanned, diskNotice), c, reviewed, confirmOpen, inst, canceling, hasCancel,
          Exit(quitWhenDone, forceQuit, signals, closeDenied, closed))
    }

    constructor ()
      ensures View() == NEW_APP
    {
      disks, disksErr, disksScanned, c, diskNotice := [], false, false, Choices("", 0), false;
      reviewed, confirmOpen := None, false;
      inst := NEW_GUI;
      canceling, hasCancel, quitWhenDone, forceQuit := false, false, false, false;
      signals, closeDenied, closed := 0, false, false;
    }

    /** setDisks' first loop: the choice stands only if its first entry is not refused. */
    method ConfirmChoice(found: seq<Disk>)
      requires c.disk != ""
      modifies this`c, this`diskNotice
      ensures c == old(c).(disk := NextChoice(old(c.disk), false, found))
      ensures diskNotice == (old(diskNotice) || c.disk == "")
    {
      var i := 0;
      while i < |found|
        invariant 0 <= i <= |found| && FirstAt(found, c.disk) == FirstAt(found[i..], c.disk)
      {
        if found[i].path == c.disk {
          if found[i].refused != "" {
            c := c.(disk := "");
            diskNotice := true;
          }
          return;
        }
        i := i + 1;
      }
      c := c.(disk := "");
      diskNotice := true;
    }

    /** Its second loop: the first usable disk, if there is one. */
    method ChooseFirst(found: seq<Disk>)
      requires c.disk == ""
      modifies this`c
      ensures c == old(c).(disk := NextChoice("", true, found))
    {
      var i := 0;
      while i < |found|
        invariant 0 <= i <= |found| && FirstUsable(found) == FirstUsable(found[i..])
      {
        if found[i].refused == "" {
          c := c.(disk := found[i].path);
          return;
        }
        i := i + 1;
      }
    }

    method SetDisks(found: seq<Disk>, failed: bool)
      modifies this`disks, this`disksErr, this`disksScanned, this`c, this`diskNotice
      ensures View() == Scanned(old(View()), found, failed)
    {
      hide NextChoice;
      disks, disksErr := found, failed;
      if failed {
        return;
      }
      var first := !disksScanned;
      disksScanned := true;
      LaterScan(c.disk, first, found);
      if c.disk != "" {
        ConfirmChoice(found);
      } else if first {
        ChooseFirst(found);
      }
    }

    /** startInstall; `valid` is whether the persisted recipe loads and validates. */
    method StartInstall(valid: bool) returns (launched: bool)
      modifies this`confirmOpen, this`inst, this`canceling, this`hasCancel
      ensures View() == Started(old(View()), valid)
      ensures launched == MayStart(old(View()), valid)
    {
      confirmOpen := false;
      if inst.phase.Running? || hasCancel {
        return false;
      }
      if reviewed != Some(c) || c.disk == "" || !valid {
        return false;
      }
      inst := NEW_GUI;
      inst := inst.(phase := Running);
      canceling := false;
      hasCancel := true;
      launched := true;
    }

    method Cancel()
      modifies this`canceling
      ensures View() == Cancelled(old(View()))
    {
      if hasCancel && inst.phase.Running? {
        canceling := true;
      }
    }

    method Retry(reviewOk: bool)
      modifies this`inst, this`canceling, this`reviewed
      ensures View() == Retried(old(View()), reviewOk)
    {
      inst := NEW_GUI;
      canceling := false;
      reviewed := if reviewOk then Some(c) else None;
    }

    method RequestClose()
      modifies this`closed, this`closeDenied
      ensures View() == CloseRequested(old(View()))
    {
      if inst.phase.Running? || (inst.recoveryKey != "" && !forceQuit) {
        closeDenied := true;
      } else {
        closed := true;
      }
    }

    method QuitApp()
      modifies this`closed, this`closeDenied, this`quitWhenDone, this`canceling
      ensures View() == QuitRequested(old(View()))
    {
      if inst.phase.Running? {
        quitWhenDone := true;
        Cancel();
      } else {
        RequestClose();
      }
    }

    method OnSignal()
      modifies this`signals, this`closed, this`closeDenied, this`quitWhenDone, this`canceling, this`forceQuit
      ensures View() == Signalled(old(View()))
    {
      hide Cancelled, CloseRequested;
      signals := signals + 1;
      if inst.phase.Running? {
        quitWhenDone := true;
        Cancel();
      } else if inst.recoveryKey != "" && signals == 1 {
        closeDenied := true;
      } else {
        forceQuit := true;
        QuitApp();
      }
    }

    method Complete(err: Option<string>)
      modifies this`inst, this`hasCancel, this`closed, this`closeDenied, this`quitWhenDone
      modifies this`canceling, this`forceQuit
      ensures View() == Completed(old(View()), err)
    {
      inst := Closed(inst, err);
      hasCancel := false;
      if quitWhenDone {
        forceQuit := true;
        QuitApp();
      }
    }
  }
}

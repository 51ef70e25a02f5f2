/** The watchers of a folder session: set up in the background, replaced, forwarded and stopped, in every
    interleaving. `internal/app/folder_session.go`. */
module FolderSession {
  import opened Wrappers
  import I = Invalidations

  /** The goroutine that sets up one watcher. Installed and Forwarding hold the watcher it replaced. */
  datatype Phase =
    | Waiting | Creating | Created(ok: bool) | Discarding
    | Installed(previous: Option<nat>) | Forwarding(previous: Option<nat>) | Reconciling(left: nat) | Done

  datatype Watcher = Missing | Open | Closed

  /** The goroutine that forwards a watcher's events. */
  datatype Forward = NotStarted | Ranging | Carrying | Ended

  /** `sent` are the invalidations sent to reconcile what changed while the watcher was set up. */
  datatype Setup = Setup(id: nat, phase: Phase, canceled: bool, watcher: Watcher, forward: Forward, sent: seq<I.Kind>)

  const RECONCILE: seq<I.Kind> := [I.Files, I.Graph]

  /** How far the one call of stop has come; `captured` is the watcher it took over. */
  datatype Stop = Running | Marked(captured: Option<nat>) | Canceled(captured: Option<nat>)
                | SetupsDone(captured: Option<nat>) | WatcherClosed | Stopped

  /** `setups` are all setups ever started, and a watcher goes by the number of its setup. `crashed` is set
      by a send on the closed event channel, or by closing it twice. */
  datatype State = State(setups: seq<Setup>, current: Option<nat>, watchID: nat, watchCancel: Option<nat>,
                         closed: bool, live: bool, stop: Stop, eventsClosed: bool, crashed: bool)

  const INITIAL := State([], None, 0, None, false, true, Running, false, false)

  datatype Step =
    | StartWatcher | Begin(j: nat) | Create(j: nat, ok: bool) | Install(j: nat) | Discard(j: nat)
    | StartForward(j: nat) | ClosePrevious(j: nat) | Reconcile(j: nat) | GiveUp(j: nat)
    | Range(j: nat) | Send(j: nat) | Abort(j: nat) | EndOfEvents(j: nat)
    | StopMarks | StopCancels | SetupsWaited | StopClosesWatcher | ForwardsWaited

  predicate ContextEnded(s: State, j: nat)
    requires j < |s.setups|
  {
    s.setups[j].canceled || !s.live
  }

  predicate At(s: State, j: nat, phase: Phase) {
    j < |s.setups| && s.setups[j].phase == phase
  }

  predicate Carries(s: State, j: nat, forward: Forward) {
    j < |s.setups| && s.setups[j].forward == forward
  }

  predicate Can(s: State, step: Step) {
    match step
    case StartWatcher => true
    case Begin(j) => At(s, j, Waiting) && (j == 0 || At(s, j - 1, Done) || ContextEnded(s, j))
    case Create(j, _) => At(s, j, Creating)
    case Install(j) => j < |s.setups| && s.setups[j].phase.Created?
    case Discard(j) => At(s, j, Discarding)
    case StartForward(j) => j < |s.setups| && s.setups[j].phase.Installed?
    case ClosePrevious(j) => j < |s.setups| && s.setups[j].phase.Forwarding?
    case Reconcile(j) => j < |s.setups| && s.setups[j].phase.Reconciling?
    case GiveUp(j) => j < |s.setups| && s.setups[j].phase.Reconciling? && !s.live
    case Range(j) => Carries(s, j, Ranging)
    case Send(j) => Carries(s, j, Carrying)
    case Abort(j) => Carries(s, j, Carrying) && !s.live
    case EndOfEvents(j) => Carries(s, j, Ranging) && s.setups[j].watcher.Closed?
    case StopMarks => s.stop.Running?
    case StopCancels => s.stop.Marked?
    case SetupsWaited => s.stop.Canceled? && forall j :: 0 <= j < |s.setups| ==> s.setups[j].phase.Done?
    case StopClosesWatcher => s.stop.SetupsDone?
    case ForwardsWaited => s.stop.WatcherClosed? && forall j :: 0 <= j < |s.setups| ==> s.setups[j].forward in {NotStarted, Ended}
  }

  function With(s: State, j: nat, setup: Setup): State
    requires j < |s.setups|
  {
    s.(setups := s.setups[j := setup])
  }

  /** Closing a watcher, if there is one to close. */
  function Close(setups: seq<Setup>, which: Option<nat>): (r: seq<Setup>)
    ensures |r| == |setups|
  {
    if which.Some? && which.value < |setups| && setups[which.value].watcher.Open?
    then setups[which.value := setups[which.value].(watcher := Closed)] else setups
  }

  function Cancel(setups: seq<Setup>, which: Option<nat>): (r: seq<Setup>)
    ensures |r| == |setups|
  {
    if which.Some? && which.value < |setups| then setups[which.value := setups[which.value].(canceled := true)] else setups
  }

  function AfterStart(s: State): State {
    if s.closed then s
    else
      s.(setups := Cancel(s.setups, s.watchCancel) + [Setup(s.watchID + 1, Waiting, false, Missing, NotStarted, [])],
         watchID := s.watchID + 1, watchCancel := Some(|s.setups|))
  }

  /** A finished setup comes too late when the session was closed or a newer setup started. */
  predicate Late(s: State, j: nat)
    requires j < |s.setups|
  {
    s.closed || s.setups[j].id != s.watchID
  }

  /** The locked section that installs a finished watcher, or finds that it came too late. */
  function AfterInstall(s: State, j: nat): State
    requires j < |s.setups| && s.setups[j].phase.Created?
  {
    var (ok, t) := (s.setups[j].phase.ok, With(s, j, s.setups[j].(phase := InstallPhase(s, j))));
    if Late(s, j) then t
    else if !ok then t.(watchCancel := None)
    else t.(watchCancel := None, current := Some(j))
  }

  function InstallPhase(s: State, j: nat): Phase
    requires j < |s.setups| && s.setups[j].phase.Created?
  {
    if !s.setups[j].phase.ok then Phase.Done else if Late(s, j) then Discarding else Installed(s.current)
  }

  /** What the goroutine that sets up one watcher does. */
  predicate SetupStep(step: Step) {
    step.Begin? || step.Create? || step.Install? || step.Discard? || step.StartForward? || step.ClosePrevious?
    || step.Reconcile? || step.GiveUp?
  }

  /** The setup that makes the step, after it. */
  function Moved(s: State, step: Step): Setup
    requires Can(s, step) && SetupStep(step)
  {
    var setup := s.setups[step.j];
    match step
    case Begin(j) => setup.(phase := if ContextEnded(s, j) then Done else Creating)
    case Create(_, ok) => setup.(phase := Created(ok), watcher := if ok then Open else Missing)
    case Install(j) => setup.(phase := InstallPhase(s, j))
    case Discard(_) => setup.(phase := Done, watcher := if setup.watcher.Open? then Closed else setup.watcher)
    case StartForward(_) => setup.(phase := Forwarding(setup.phase.previous), forward := Ranging)
    case ClosePrevious(_) => setup.(phase := Reconciling(2))
    case Reconcile(_) =>
      if setup.phase.left == 0 then setup.(phase := Done)
      else setup.(phase := Reconciling(setup.phase.left - 1), sent := setup.sent + [if setup.sent == [] then I.Files else I.Graph])
    case GiveUp(_) => setup.(phase := Done)
  }

  function AfterSetup(s: State, step: Step): (t: State)
    requires Can(s, step) && SetupStep(step)
    ensures |t.setups| == |s.setups|
  {
    var t := With(s, step.j, Moved(s, step));
    match step
    case Install(j) => AfterInstall(s, j)
    case ClosePrevious(j) => t.(setups := Close(t.setups, s.setups[j].phase.previous))
    case Reconcile(j) => t.(crashed := s.crashed || (s.setups[j].phase.left > 0 && s.eventsClosed))
    case _ => t
  }

  function After(s: State, step: Step): (t: State)
    requires Can(s, step)
    ensures |s.setups| <= |t.setups|
  {
    match step
    case StartWatcher => AfterStart(s)
    case Range(j) => With(s, j, s.setups[j].(forward := Carrying))
    case Send(j) => With(s, j, s.setups[j].(forward := Ranging)).(crashed := s.crashed || s.eventsClosed)
    case Abort(j) => With(s, j, s.setups[j].(forward := Ended))
    case EndOfEvents(j) => With(s, j, s.setups[j].(forward := Ended))
    case StopMarks =>
      s.(closed := true, watchID := s.watchID + 1, setups := Cancel(s.setups, s.watchCancel), watchCancel := None,
         current := None, stop := Marked(s.current))
    case StopCancels => s.(live := false, stop := Canceled(s.stop.captured))
    case SetupsWaited => s.(stop := SetupsDone(s.stop.captured))
    case StopClosesWatcher => s.(setups := Close(s.setups, s.stop.captured), stop := WatcherClosed)
    case ForwardsWaited => s.(eventsClosed := true, crashed := s.crashed || s.eventsClosed, stop := Stopped)
    case _ => AfterSetup(s, step)
  }

  // ------------------------------------------------------ the invariant

  /** Who may close a watcher: the session that has it as its current one, the setup that made it, the setup
      of the watcher that replaced it, or stop, which took it over. */
  datatype Closer = TheSession | ItsSetup | Successor(k: nat) | TheStop

  predicate Replaces(phase: Phase, j: nat) {
    (phase.Installed? || phase.Forwarding?) && phase.previous == Some(j)
  }

  predicate Closes(s: State, c: Closer, j: nat) {
    match c
    case TheSession => s.current == Some(j)
    case ItsSetup => j < |s.setups| && (s.setups[j].phase == Created(true) || s.setups[j].phase.Discarding?)
    case Successor(k) => k < |s.setups| && Replaces(s.setups[k].phase, j)
    case TheStop => (s.stop.Marked? || s.stop.Canceled? || s.stop.SetupsDone?) && s.stop.captured == Some(j)
  }

  /** A watcher is open exactly while somebody is there to close it, and then nobody else is. */
  ghost predicate OneCloser(s: State, j: nat)
    requires j < |s.setups|
  {
    && (s.setups[j].watcher.Open? ==> exists c :: Closes(s, c, j))
    && (forall c :: Closes(s, c, j) ==> s.setups[j].watcher.Open?)
    && (forall c, d :: Closes(s, c, j) && Closes(s, d, j) ==> c == d)
  }

  ghost predicate SetupOk(s: State, j: nat)
    requires j < |s.setups|
  {
    var setup := s.setups[j];
    && OneCloser(s, j)
    && (setup.phase.Waiting? || setup.phase.Creating? ==> setup.watcher.Missing?)
    && (NotYetForwarding(setup.phase) ==> setup.forward.NotStarted?)
    && (setup.watcher.Missing? ==> setup.forward.NotStarted?)
    && (setup.phase == Created(false) ==> setup.watcher.Missing?)
    && (setup.phase == Created(true) || setup.phase.Installed? ==> !setup.watcher.Missing?)
    && SentOk(setup, s.live)
  }

  /** An installed watcher's setup sends both invalidations, unless the session ends first. */
  predicate SentOk(setup: Setup, live: bool) {
    && (NotYetForwarding(setup.phase) || setup.phase.Forwarding? ==> setup.sent == [])
    && (setup.phase.Reconciling? ==> setup.phase.left <= 2 && setup.sent == RECONCILE[..2 - setup.phase.left])
    && (setup.phase.Reconciling? || setup.phase.Forwarding? ==> !setup.forward.NotStarted?)
    && (setup.phase.Done? && !setup.forward.NotStarted? ==> setup.sent == RECONCILE || !live)
  }

  predicate NotYetForwarding(phase: Phase) {
    phase.Waiting? || phase.Creating? || phase.Created? || phase.Discarding? || phase.Installed?
  }

  predicate NotYetInstalled(phase: Phase) {
    phase.Waiting? || phase.Creating? || phase.Created?
  }

  ghost predicate Stages(s: State) {
    && (s.closed <==> !s.stop.Running?)
    && (s.closed ==> s.current.None?)
    && (s.live <==> s.stop.Running? || s.stop.Marked?)
    && (s.stop.SetupsDone? || s.stop.WatcherClosed? || s.stop.Stopped? ==>
          forall j :: 0 <= j < |s.setups| ==> s.setups[j].phase.Done?)
    && (s.eventsClosed <==> s.stop.Stopped?)
    && (s.stop.Stopped? ==> forall j :: 0 <= j < |s.setups| ==> s.setups[j].forward in {NotStarted, Ended})
    && !s.crashed
  }

  /** Watchers that somebody is to close have been set up. */
  ghost predicate InRange(s: State) {
    forall c, j: nat :: Closes(s, c, j) ==> j < |s.setups|
  }

  /** Ids increase with every setup; only the newest of an open session carries the current one. */
  ghost predicate Ids(s: State) {
    && (forall i, j :: 0 <= i < j < |s.setups| ==> s.setups[i].id < s.setups[j].id)
    && (forall j :: 0 <= j < |s.setups| ==> s.setups[j].id <= s.watchID)
    && (s.closed ==> forall j :: 0 <= j < |s.setups| ==> s.setups[j].id < s.watchID)
    && (!s.closed && s.setups != [] ==> s.setups[|s.setups| - 1].id == s.watchID)
  }

  predicate Newest(s: State, j: nat) {
    !s.closed && j == |s.setups| - 1
  }

  /** Whoever has not installed its watcher yet is canceled, or is the newest and can be canceled. */
  ghost predicate Cancels(s: State) {
    && (s.watchCancel.Some? ==> Newest(s, s.watchCancel.value))
    && (forall j :: 0 <= j < |s.setups| && NotYetInstalled(s.setups[j].phase) ==>
          s.setups[j].canceled || (Newest(s, j) && s.watchCancel == Some(j)))
  }

  ghost predicate Inv(s: State) {
    && Stages(s) && InRange(s) && Ids(s) && Cancels(s)
    && forall j :: 0 <= j < |s.setups| ==> SetupOk(s, j)
  }

  /** What a setup's step does to the session as a whole. */
  lemma SetupFields(s: State, step: Step)
    requires SetupStep(step) && Can(s, step)
    ensures var (t, j) := (AfterSetup(s, step), step.j);
      && j < |s.setups| == |t.setups| && t.stop == s.stop && t.closed == s.closed && t.watchID == s.watchID && t.live == s.live
      && t.eventsClosed == s.eventsClosed && (t.crashed ==> s.crashed || s.eventsClosed)
      && t.watchCancel == (if step.Install? && !Late(s, j) then None else s.watchCancel)
      && t.current == (if Installs(s, step) then Some(j) else s.current)
  {
    hide Moved, Close;
  }

  /** It moves its own setup, and may close one watcher. */
  ghost predicate MovesOne(s: State, step: Step, t: State)
    requires Can(s, step) && SetupStep(step)
  {
    && |t.setups| == |s.setups|
    && (forall k :: 0 <= k < |s.setups| ==>
          t.setups[k].(watcher := Missing) == (if k == step.j then Moved(s, step) else s.setups[k]).(watcher := Missing))
    && (forall k :: 0 <= k < |s.setups| && !(step.ClosePrevious? && s.setups[step.j].phase.previous == Some(k)) ==>
          t.setups[k] == if k == step.j then Moved(s, step) else s.setups[k])
  }

  lemma SetupFrame(s: State, step: Step)
    requires SetupStep(step) && Can(s, step)
    ensures MovesOne(s, step, AfterSetup(s, step))
  {
    if step.ClosePrevious? {
      CloseFrame(s, step.j);
    } else {
      assert AfterSetup(s, step).setups == s.setups[step.j := Moved(s, step)];
      hide AfterSetup, Moved;
    }
  }

  lemma CloseFrame(s: State, j: nat)
    requires Can(s, ClosePrevious(j))
    ensures MovesOne(s, ClosePrevious(j), AfterSetup(s, ClosePrevious(j)))
  {
  }

  lemma PreviousIsClosed(s: State, j: nat, k: nat)
    requires Can(s, ClosePrevious(j)) && s.setups[j].phase.previous == Some(k) && k < |s.setups|
    ensures !AfterSetup(s, ClosePrevious(j)).setups[k].watcher.Open?
    ensures AfterSetup(s, ClosePrevious(j)).setups[k].watcher.Missing? <==> s.setups[k].watcher.Missing?
  {
  }

  lemma StagesKept(s: State, step: Step)
    requires Inv(s) && Can(s, step)
    ensures Stages(After(s, step))
  {
    hide OneCloser, InRange, Ids, Cancels;
  }

  /** Who is who does not change, nobody is canceled, and no setup gets back to where it can be installed. */
  ghost predicate SameSetups(s: State, step: Step, t: State) {
    && |t.setups| == |s.setups| && t.watchID == s.watchID && t.closed == s.closed
    && (forall j :: 0 <= j < |s.setups| ==>
          && t.setups[j].id == s.setups[j].id && t.setups[j].canceled == s.setups[j].canceled
          && (NotYetInstalled(t.setups[j].phase) ==> NotYetInstalled(s.setups[j].phase)))
    && (t.watchCancel == s.watchCancel
        || (step.Install? && step.j < |s.setups| && !Late(s, step.j) && t.watchCancel.None?
            && !NotYetInstalled(t.setups[step.j].phase)))
  }

  lemma MostStepsKeepSetups(s: State, step: Step)
    requires Can(s, step) && !step.StartWatcher? && !step.StopMarks?
    ensures SameSetups(s, step, After(s, step))
  {
    if SetupStep(step) { SetupStepsKeepSetups(s, step); }
  }

  lemma SetupStepsKeepSetups(s: State, step: Step)
    requires SetupStep(step) && Can(s, step)
    ensures SameSetups(s, step, AfterSetup(s, step))
  {
    SetupFields(s, step);
    SetupFrame(s, step);
    SetupPhases(s, step);
    hide AfterSetup, SetupStep;
    assert Moved(s, step).id == s.setups[step.j].id && Moved(s, step).canceled == s.setups[step.j].canceled;
  }

  lemma IdsKept(s: State, step: Step)
    requires Ids(s) && Can(s, step)
    ensures Ids(After(s, step))
  {
    if !step.StartWatcher? && !step.StopMarks? {
      MostStepsKeepSetups(s, step);
      hide Can, After;
    }
  }

  lemma CancelsKept(s: State, step: Step)
    requires Ids(s) && Cancels(s) && Can(s, step) && Stages(s)
    ensures Cancels(After(s, step))
  {
    hide Stages;
    if !step.StartWatcher? && !step.StopMarks? {
      MostStepsKeepSetups(s, step);
      var t := After(s, step);
      assert t.watchCancel != s.watchCancel ==> step.j == |s.setups| - 1;
      hide Can, After;
    }
  }

  lemma InRangeKept(s: State, step: Step)
    requires InRange(s) && Can(s, step)
    ensures InRange(After(s, step))
  {
    var t := After(s, step);
    forall c, i: nat | Closes(t, c, i) ensures i < |t.setups| {
      if c != ItsSetup {
        CloserBefore(s, step, c, i);
        assert Closes(s, Before(s, step, c), i);
      }
    }
  }

  predicate Installs(s: State, step: Step) {
    step.Install? && step.j < |s.setups| && s.setups[step.j].phase == Created(true)
    && !Late(s, step.j)
  }

  /** Who was to close a watcher before the step, given who is after it. */
  function Before(s: State, step: Step, c: Closer): Closer {
    if Installs(s, step) && c == TheSession then ItsSetup
    else if Installs(s, step) && c == Successor(step.j) then TheSession
    else if step.StopMarks? && c == TheStop then TheSession
    else c
  }

  /** ... and who is after it, given who was before. */
  function Later(s: State, step: Step, c: Closer, i: nat): Closer {
    if Installs(s, step) && c == ItsSetup && i == step.j then TheSession
    else if Installs(s, step) && c == TheSession then Successor(step.j)
    else if step.StopMarks? && c == TheSession then TheStop
    else c
  }

  lemma CloserBefore(s: State, step: Step, c: Closer, i: nat)
    requires Can(s, step) && Closes(After(s, step), c, i)
    ensures (c == ItsSetup && step == Create(i, true)) || Closes(s, Before(s, step, c), i)
  {
    if SetupStep(step) { SetupCloserBefore(s, step, c, i); } else { OtherCloserBefore(s, step, c, i); }
  }

  lemma SetupCloserBefore(s: State, step: Step, c: Closer, i: nat)
    requires SetupStep(step) && Can(s, step) && Closes(AfterSetup(s, step), c, i)
    ensures (c == ItsSetup && step == Create(i, true)) || Closes(s, Before(s, step, c), i)
  {
    SetupPhases(s, step);
    hide AfterSetup;
  }

  /** ... so of all phases only its own changes. */
  lemma SetupPhases(s: State, step: Step)
    requires SetupStep(step) && Can(s, step)
    ensures var (t, j) := (AfterSetup(s, step), step.j);
      && j < |s.setups| == |t.setups| && t.stop == s.stop && t.current == (if Installs(s, step) then Some(j) else s.current)
      && (forall k :: 0 <= k < |s.setups| ==> t.setups[k].phase == if k == j then Moved(s, step).phase else s.setups[k].phase)
  {
    SetupFields(s, step);
    SetupFrame(s, step);
    hide AfterSetup, Moved;
    var t, j := AfterSetup(s, step), step.j;
    forall k | 0 <= k < |s.setups| ensures t.setups[k].phase == if k == j then Moved(s, step).phase else s.setups[k].phase {
      assert t.setups[k].phase == t.setups[k].(watcher := Missing).phase;
    }
  }

  lemma OtherCloserBefore(s: State, step: Step, c: Closer, i: nat)
    requires !SetupStep(step) && Can(s, step) && Closes(After(s, step), c, i)
    ensures Closes(s, Before(s, step, c), i)
  {
    PhasesStay(s, step);
    hide Can;
  }

  /** Forwarders and stop leave the phases of setups alone; a new setup waits. */
  lemma PhasesStay(s: State, step: Step)
    requires !SetupStep(step) && Can(s, step)
    ensures var t := After(s, step);
      && |s.setups| <= |t.setups|
      && (forall k :: 0 <= k < |s.setups| ==> t.setups[k].phase == s.setups[k].phase)
      && (forall k :: |s.setups| <= k < |t.setups| ==> t.setups[k] == Setup(t.setups[k].id, Waiting, false, Missing, NotStarted, []))
  {
  }

  lemma CloserLater(s: State, step: Step, c: Closer, i: nat)
    requires Can(s, step) && Closes(s, c, i) && i < |s.setups| && After(s, step).setups[i].watcher.Open?
    ensures Closes(After(s, step), Later(s, step, c, i), i)
  {
    if SetupStep(step) { SetupCloserLater(s, step, c, i); } else { OtherCloserLater(s, step, c, i); }
  }

  lemma SetupCloserLater(s: State, step: Step, c: Closer, i: nat)
    requires SetupStep(step) && Can(s, step) && Closes(s, c, i) && i < |s.setups|
    requires AfterSetup(s, step).setups[i].watcher.Open?
    ensures Closes(AfterSetup(s, step), Later(s, step, c, i), i)
  {
    SetupFields(s, step);
    SetupFrame(s, step);
    SetupPhases(s, step);
    if step.ClosePrevious? && s.setups[step.j].phase.previous == Some(i) { PreviousIsClosed(s, step.j, i); }
    hide AfterSetup;
  }

  lemma OtherCloserLater(s: State, step: Step, c: Closer, i: nat)
    requires !SetupStep(step) && Can(s, step) && Closes(s, c, i) && i < |s.setups|
    requires After(s, step).setups[i].watcher.Open?
    ensures Closes(After(s, step), Later(s, step, c, i), i)
  {
    PhasesStay(s, step);
  }

  /** A watcher is closed by its closer, who has nothing left to close then. */
  lemma ClosedByItsCloser(s: State, step: Step, i: nat) returns (c: Closer)
    requires Can(s, step) && i < |s.setups| && s.setups[i].watcher.Open? && !After(s, step).setups[i].watcher.Open?
    ensures !step.Create? ==> Closes(s, c, i) && !Closes(After(s, step), c, i)
    ensures !step.Create? ==> forall d :: Before(s, step, d) == d
  {
    c := if step.Discard? then ItsSetup else if step.ClosePrevious? then Successor(step.j) else TheStop;
    if SetupStep(step) {
      if !step.Create? { SetupClosesItsOwn(s, step, i, c); }
    } else {
      StopClosesItsOwn(s, step, i);
    }
  }

  lemma SetupClosesItsOwn(s: State, step: Step, i: nat, c: Closer)
    requires SetupStep(step) && Can(s, step) && i < |s.setups| && s.setups[i].watcher.Open? && !step.Create?
    requires !AfterSetup(s, step).setups[i].watcher.Open?
    requires c == if step.Discard? then ItsSetup else if step.ClosePrevious? then Successor(step.j) else TheStop
    ensures Closes(s, c, i) && !Closes(AfterSetup(s, step), c, i) && (step.Discard? || step.ClosePrevious?)
  {
    SetupFields(s, step);
    SetupFrame(s, step);
    SetupPhases(s, step);
    hide AfterSetup;
  }

  lemma StopClosesItsOwn(s: State, step: Step, i: nat)
    requires !SetupStep(step) && Can(s, step) && i < |s.setups| && s.setups[i].watcher.Open?
    requires !After(s, step).setups[i].watcher.Open?
    ensures Closes(s, TheStop, i) && !Closes(After(s, step), TheStop, i) && !step.StopMarks?
  {
    hide AfterSetup;
  }

  /** Watchers are opened by their own setup only. */
  lemma OpenBefore(s: State, step: Step, i: nat)
    requires Can(s, step) && i < |s.setups| && step != Create(i, true)
    ensures After(s, step).setups[i].watcher.Open? ==> s.setups[i].watcher.Open?
  {
    if SetupStep(step) { SetupOpenBefore(s, step, i); }
  }

  lemma SetupOpenBefore(s: State, step: Step, i: nat)
    requires SetupStep(step) && Can(s, step) && i < |s.setups| && step != Create(i, true)
    ensures AfterSetup(s, step).setups[i].watcher.Open? ==> s.setups[i].watcher.Open?
  {
    SetupFields(s, step);
    SetupFrame(s, step);
    if step.ClosePrevious? && s.setups[step.j].phase.previous == Some(i) { PreviousIsClosed(s, step.j, i); }
    hide AfterSetup;
  }

  lemma CloserKept(s: State, step: Step, i: nat)
    requires Can(s, step) && i < |s.setups| && SetupOk(s, i)
    ensures OneCloser(After(s, step), i)
  {
    var t := After(s, step);
    assert OneCloser(s, i);
    hide AfterSetup, AfterStart, Moved;
    if step == Create(i, true) {
      CreatedHasItsSetup(s, i);
    } else {
      OpenBefore(s, step, i);
      if t.setups[i].watcher.Open? {
        var c :| Closes(s, c, i);
        CloserLater(s, step, c, i);
      } else {
        NobodyClosesClosed(s, step, i);
      }
      hide Can, After;
      forall c, d | Closes(t, c, i) && Closes(t, d, i) ensures c == d {
        CloserBefore(s, step, c, i);
        CloserBefore(s, step, d, i);
        SameBefore(s, step, c, d, i);
      }
    }
  }

  lemma CreatedHasItsSetup(s: State, i: nat)
    requires At(s, i, Creating) && SetupOk(s, i)
    ensures OneCloser(After(s, Create(i, true)), i)
  {
    var t := After(s, Create(i, true));
    assert Closes(t, ItsSetup, i);
    forall c | Closes(t, c, i) ensures c == ItsSetup {
      assert !Closes(s, c, i);
    }
  }

  lemma NobodyClosesClosed(s: State, step: Step, i: nat)
    requires Can(s, step) && i < |s.setups| && SetupOk(s, i) && step != Create(i, true)
    requires !After(s, step).setups[i].watcher.Open?
    ensures forall c :: !Closes(After(s, step), c, i)
  {
    var t := After(s, step);
    if s.setups[i].watcher.Open? {
      var o := ClosedByItsCloser(s, step, i);
      CreatesMissing(s, step, i);
      forall c ensures Closes(t, c, i) ==> c == o {
        if Closes(t, c, i) { CloserBefore(s, step, c, i); }
      }
    } else {
      forall c ensures !Closes(t, c, i) {
        assert !Closes(s, Before(s, step, c), i);
        if Closes(t, c, i) { CloserBefore(s, step, c, i); }
      }
    }
  }

  lemma CreatesMissing(s: State, step: Step, i: nat)
    requires Can(s, step) && i < |s.setups| && SetupOk(s, i) && s.setups[i].watcher.Open?
    ensures step.Create? ==> After(s, step).setups[i].watcher.Open?
  {
  }

  lemma SameBefore(s: State, step: Step, c: Closer, d: Closer, i: nat)
    requires Can(s, step) && Closes(After(s, step), c, i) && Closes(After(s, step), d, i)
    requires Before(s, step, c) == Before(s, step, d)
    ensures c == d
  {
  }

  lemma SetupKept(s: State, step: Step, i: nat)
    requires Inv(s) && Can(s, step) && i < |s.setups|
    ensures SetupOk(After(s, step), i)
  {
    assert SetupOk(s, i);
    CloserKept(s, step, i);
    hide OneCloser, Stages, InRange, Ids, Cancels;
    if SetupStep(step) { SetupStateKept(s, step, i); }
  }

  lemma SetupStateKept(s: State, step: Step, i: nat)
    requires SetupStep(step) && Can(s, step) && i < |s.setups| && SetupOk(s, i) && OneCloser(AfterSetup(s, step), i)
    ensures SetupOk(AfterSetup(s, step), i)
  {
    SetupFields(s, step);
    SetupFrame(s, step);
    if step.ClosePrevious? && s.setups[step.j].phase.previous == Some(i) { PreviousIsClosed(s, step.j, i); }
    var x, y := AfterSetup(s, step).setups[i], if i == step.j then Moved(s, step) else s.setups[i];
    SameButWatcher(x, y, s.live);
    if i == step.j { MovedSendsRight(s, step); }
    hide OneCloser, AfterSetup, SentOk;
  }

  lemma SameButWatcher(x: Setup, y: Setup, live: bool)
    requires x.(watcher := Missing) == y.(watcher := Missing)
    ensures x.phase == y.phase && x.forward == y.forward && (SentOk(x, live) <==> SentOk(y, live))
  {
    assert x.phase == x.(watcher := Missing).phase && x.forward == x.(watcher := Missing).forward;
    assert y.phase == y.(watcher := Missing).phase && y.forward == y.(watcher := Missing).forward;
    assert x.sent == x.(watcher := Missing).sent && y.sent == y.(watcher := Missing).sent;
  }

  lemma MovedSendsRight(s: State, step: Step)
    requires SetupStep(step) && Can(s, step) && SetupOk(s, step.j)
    ensures SentOk(Moved(s, step), s.live)
  {
    hide OneCloser;
  }

  lemma StepKeepsInv(s: State, step: Step)
    requires Inv(s) && Can(s, step)
    ensures Inv(After(s, step))
  {
    StagesKept(s, step);
    IdsKept(s, step);
    CancelsKept(s, step);
    InRangeKept(s, step);
    var t := After(s, step);
    hide Stages, Ids, Cancels, Can;
    forall i | 0 <= i < |t.setups| ensures SetupOk(t, i) {
      if i < |s.setups| { SetupKept(s, step, i); } else { NewSetupIsOk(s, step, i); }
    }
  }

  lemma NotYetCurrent(s: State, j: nat)
    requires Inv(s) && j < |s.setups| && s.setups[j].phase.Created?
    ensures s.current != Some(j)
    ensures s.setups[j].id == s.watchID && !s.closed <==> Newest(s, j)
  {
    assert SetupOk(s, j);
    assert s.current == Some(j) ==> Closes(s, TheSession, j);
    assert s.setups[j].phase.ok ==> Closes(s, ItsSetup, j);
  }

  lemma NewSetupIsOk(s: State, step: Step, i: nat)
    requires InRange(s) && Can(s, step) && |s.setups| <= i < |After(s, step).setups|
    ensures SetupOk(After(s, step), i)
  {
    forall c ensures !Closes(After(s, step), c, i) { assert !Closes(s, c, i); }
  }

  // ------------------------------------------------------ the locked sections, in place

  class Session {
    var setups: seq<Setup>
    var current: Option<nat>
    var watchID: nat
    var watchCancel: Option<nat>
    var closed: bool
    var live: bool
    var stop: Stop
    var eventsClosed: bool
    var crashed: bool

    ghost function View(): State
      reads this
    {
      State(setups, current, watchID, watchCancel, closed, live, stop, eventsClosed, crashed)
    }

    ghost predicate Valid()
      reads this
    {
      Inv(View())
    }

    constructor ()
      ensures Valid() && View() == INITIAL
    {
      setups, current, watchID, watchCancel, closed := [], None, 0, None, false;
      live, stop, eventsClosed, crashed := true, Running, false, false;
    }

    /** Of all setups only the new one can still install its watcher, and any other that has not done so is
        canceled; a closed session starts none. */
    method DoStartWatcher()
      requires Valid()
      modifies this
      ensures Valid() && (closed ==> View() == old(View()))
      ensures !closed ==> |setups| == |old(setups)| + 1 && watchCancel == Some(|setups| - 1)
      ensures !closed ==> setups[|setups| - 1].phase.Waiting?
      ensures forall j :: 0 <= j < |old(setups)| && NotYetInstalled(setups[j].phase) ==> setups[j].canceled
      ensures forall j :: 0 <= j < |old(setups)| && setups[j].phase.Created? ==> AfterInstall(View(), j).current == current
      ensures View() == AfterStart(old(View()))
    {
      StepKeepsInv(View(), StartWatcher);
      if closed { return; }
      setups := Cancel(setups, watchCancel);
      watchCancel := Some(|setups|);
      watchID := watchID + 1;
      setups := setups + [Setup(watchID, Waiting, false, Missing, NotStarted, [])];
    }

    /** The watcher becomes current exactly when it was made by the newest setup of an open session; then this
        setup has the replaced one to close, and otherwise its own. */
    method DoInstall(j: nat)
      requires Valid() && j < |setups| && setups[j].phase.Created?
      modifies this
      ensures Valid()
      ensures current == Some(j) <==> !closed && j == |setups| - 1 && old(setups[j].phase.ok)
      ensures current == Some(j) && old(current).Some? ==> Closes(View(), Successor(j), old(current).value)
      ensures current != Some(j) ==> current == old(current) && (old(setups[j].phase.ok) ==> Closes(View(), ItsSetup, j))
      ensures View() == AfterInstall(old(View()), j)
    {
      StepKeepsInv(View(), Install(j));
      NotYetCurrent(View(), j);
      var setup := setups[j];
      var ok := setup.phase.ok;
      if closed || setup.id != watchID {
        setups := setups[j := setup.(phase := if ok then Discarding else Done)];
        return;
      }
      watchCancel := None;
      if !ok {
        setups := setups[j := setup.(phase := Done)];
        return;
      }
      var previous := current;
      current := Some(j);
      setups := setups[j := setup.(phase := Installed(previous))];
    }

    /** Nothing is started or installed any more, and the current watcher is stop's to close. */
    method DoStop()
      requires Valid() && stop.Running?
      modifies this
      ensures Valid() && AfterStart(View()) == View()
      ensures forall j :: 0 <= j < |setups| && setups[j].phase.Created? ==> AfterInstall(View(), j).current.None?
      ensures forall j :: 0 <= j < |setups| && NotYetInstalled(setups[j].phase) ==> setups[j].canceled
      ensures old(current).Some? ==> Closes(View(), TheStop, old(current).value)
      ensures View() == After(old(View()), StopMarks)
    {
      StepKeepsInv(View(), StopMarks);
      closed := true;
      watchID := watchID + 1;
      if watchCancel.Some? {
        setups := Cancel(setups, watchCancel);
        watchCancel := None;
      }
      stop := Marked(current);
      current := None;
    }
  }

  ghost predicate Run(states: seq<State>, steps: seq<Step>) {
    && |states| == |steps| + 1 && states[0] == INITIAL
    && forall n :: 0 <= n < |steps| ==> Can(states[n], steps[n]) && states[n + 1] == After(states[n], steps[n])
  }

  lemma {:induction false} EveryRunKeepsInv(states: seq<State>, steps: seq<Step>)
    requires Run(states, steps)
    ensures forall n :: 0 <= n < |states| ==> Inv(states[n])
  {
    hide Can, After;
    var m := |steps|;
    if m > 0 {
      EveryRunKeepsInv(states[..m], steps[..m - 1]);
      assert Inv(states[..m][m - 1]);
      StepKeepsInv(states[m - 1], steps[m - 1]);
    }
  }

  predicate IsOver(setup: Setup) {
    !setup.watcher.Open? && setup.phase.Done? && (setup.forward.NotStarted? || setup.forward.Ended?)
  }

  /** Nothing is ever sent on the closed event channel. Once stop is through, every watcher ever created is
      closed, every setup and every forwarder has ended, and nothing new is set up. */
  lemma StopLeavesNothing(states: seq<State>, steps: seq<Step>, n: nat)
    requires Run(states, steps) && n < |states|
    ensures !states[n].crashed
    ensures states[n].stop.Stopped? ==> AfterStart(states[n]) == states[n]
    ensures states[n].stop.Stopped? ==> forall j :: 0 <= j < |states[n].setups| ==> IsOver(states[n].setups[j])
  {
    EveryRunKeepsInv(states, steps);
    var s := states[n];
    assert Inv(s);
    if s.stop.Stopped? {
      forall j | 0 <= j < |s.setups| ensures IsOver(s.setups[j]) { NobodyCloses(s, j); }
    }
  }

  /** In every run a watcher is open exactly while somebody is there to close it, and that is one only: the
      session, the setup that made it, the one that replaced it, or stop. So none is closed twice. */
  lemma EveryOpenWatcherHasACloser(states: seq<State>, steps: seq<Step>, n: nat, j: nat)
    requires Run(states, steps) && n < |states| && j < |states[n].setups|
    ensures states[n].setups[j].watcher.Open? <==> exists c :: Closes(states[n], c, j)
    ensures forall c, d :: Closes(states[n], c, j) && Closes(states[n], d, j) ==> c == d
  {
    EveryRunKeepsInv(states, steps);
    assert Inv(states[n]);
    assert SetupOk(states[n], j);
  }

  /** In every run a watcher is installed only by the newest setup of a session that is not closed. */
  lemma OnlyTheNewestInstalls(states: seq<State>, steps: seq<Step>, n: nat)
    requires Run(states, steps) && n < |steps| && states[n + 1].current.Some? && states[n + 1].current != states[n].current
    ensures steps[n].Install? && states[n + 1].current == Some(steps[n].j)
    ensures steps[n].j == |states[n].setups| - 1 && !states[n].closed
  {
    EveryRunKeepsInv(states, steps);
    assert Inv(states[n]) && Can(states[n], steps[n]) && states[n + 1] == After(states[n], steps[n]);
    if steps[n].Install? { NotYetCurrent(states[n], steps[n].j); }
  }

  /** Once a watcher has been installed and its setup has ended, files and graph have been invalidated, so that what
      changed during the setup is seen; only the session's end comes before that. */
  lemma InstalledWatchersReconcile(states: seq<State>, steps: seq<Step>, n: nat, j: nat)
    requires Run(states, steps) && n < |states| && j < |states[n].setups|
    requires states[n].setups[j].phase.Done? && !states[n].setups[j].forward.NotStarted?
    ensures states[n].live ==> states[n].setups[j].sent == RECONCILE
  {
    EveryRunKeepsInv(states, steps);
    assert Inv(states[n]);
    assert SetupOk(states[n], j);
  }

  // ------------------------------------------------------ stop comes to an end

  /** Steps the session takes by itself, without an event from a watcher or room in the event channel. */
  predicate Internal(step: Step) {
    !step.StartWatcher? && !step.Range? && !step.Send? && !step.Reconcile? && !step.StopMarks?
  }

  function SetupWork(setup: Setup): nat {
    (match setup.phase
     case Waiting => 7
     case Creating => 6
     case Created(_) => 5
     case Installed(_) => 4
     case Forwarding(_) => 2
     case Reconciling(_) => 1
     case Discarding => 1
     case Done => 0)
    + (if setup.forward.Ranging? || setup.forward.Carrying? then 1 else 0)
  }

  function SetupsWork(setups: seq<Setup>): nat {
    if setups == [] then 0 else SetupsWork(setups[..|setups| - 1]) + SetupWork(setups[|setups| - 1])
  }

  /** How many steps of its own the session has left at most. */
  function Work(s: State): nat {
    SetupsWork(s.setups)
    + (match s.stop
       case Running => 5
       case Marked(_) => 4
       case Canceled(_) => 3
       case SetupsDone(_) => 2
       case WatcherClosed => 1
       case Stopped => 0)
  }

  lemma {:induction false} WorkOfUpdate(setups: seq<Setup>, j: nat, setup: Setup)
    requires j < |setups|
    ensures SetupsWork(setups[j := setup]) + SetupWork(setups[j]) == SetupsWork(setups) + SetupWork(setup)
  {
    var n := |setups| - 1;
    if j < n {
      assert setups[j := setup][..n] == setups[..n][j := setup];
      WorkOfUpdate(setups[..n], j, setup);
    } else {
      assert setups[j := setup][..n] == setups[..n];
    }
  }

  /** Closing a watcher or canceling a setup leaves the work to do as it is. */
  lemma WorkOfClose(setups: seq<Setup>, which: Option<nat>)
    ensures SetupsWork(Close(setups, which)) == SetupsWork(setups)
    ensures SetupsWork(Cancel(setups, which)) == SetupsWork(setups)
  {
    if which.Some? && which.value < |setups| {
      WorkOfUpdate(setups, which.value, setups[which.value].(watcher := Closed));
      WorkOfUpdate(setups, which.value, setups[which.value].(canceled := true));
    }
  }

  /** Once stop has begun no step adds work, and every step of the session's own takes some away. */
  lemma WorkShrinks(s: State, step: Step)
    requires Inv(s) && Can(s, step) && !s.stop.Running?
    ensures !After(s, step).stop.Running?
    ensures Work(After(s, step)) <= Work(s)
    ensures Internal(step) ==> Work(After(s, step)) < Work(s)
  {
    hide SetupsWork, OneCloser, Ids, Cancels, InRange, AfterSetup;
    if SetupStep(step) {
      assert SetupOk(s, step.j);
      SetupWorkShrinks(s, step);
    } else {
      ForwardWorkShrinks(s, step);
    }
  }

  lemma SetupWorkShrinks(s: State, step: Step)
    requires SetupStep(step) && Can(s, step) && SetupOk(s, step.j)
    ensures var t := AfterSetup(s, step);
      t.stop == s.stop && SetupsWork(t.setups) <= SetupsWork(s.setups)
      && (Internal(step) ==> SetupsWork(t.setups) < SetupsWork(s.setups))
  {
    hide SetupsWork, OneCloser;
    var moved := s.setups[step.j := Moved(s, step)];
    WorkOfUpdate(s.setups, step.j, Moved(s, step));
    if step.ClosePrevious? { WorkOfClose(moved, s.setups[step.j].phase.previous); }
  }

  lemma ForwardWorkShrinks(s: State, step: Step)
    requires !SetupStep(step) && Can(s, step) && !s.stop.Running? && s.closed
    ensures !After(s, step).stop.Running?
    ensures Work(After(s, step)) <= Work(s) && (Internal(step) ==> Work(After(s, step)) < Work(s))
  {
    hide SetupsWork, AfterSetup;
    if step.Range? || step.Send? || step.Abort? || step.EndOfEvents? {
      WorkOfUpdate(s.setups, step.j, After(s, step).setups[step.j]);
    } else if step.StopClosesWatcher? {
      WorkOfClose(s.setups, s.stop.captured);
    }
  }

  /** stop does not wait for anybody outside: until it is through, the session can take a step of its own,
      and that brings it nearer its end. */
  lemma StopCanGoOn(states: seq<State>, steps: seq<Step>, n: nat) returns (step: Step)
    requires Run(states, steps) && n < |states|
    requires !states[n].stop.Running? && !states[n].stop.Stopped?
    ensures Internal(step) && Can(states[n], step) && Work(After(states[n], step)) < Work(states[n])
  {
    EveryRunKeepsInv(states, steps);
    var s := states[n];
    assert Inv(s);
    step := NextOfStop(s);
    WorkShrinks(s, step);
  }

  lemma NextOfStop(s: State) returns (step: Step)
    requires Inv(s) && !s.stop.Running? && !s.stop.Stopped?
    ensures Internal(step) && Can(s, step)
  {
    hide Ids, Cancels, InRange;
    if s.stop.Marked? {
      step := StopCancels;
    } else if s.stop.SetupsDone? {
      step := StopClosesWatcher;
    } else if s.stop.Canceled? {
      if j :| 0 <= j < |s.setups| && !s.setups[j].phase.Done? {
        step := match s.setups[j].phase
          case Waiting => Begin(j)
          case Creating => Create(j, false)
          case Created(_) => Install(j)
          case Discarding => Discard(j)
          case Installed(_) => StartForward(j)
          case Forwarding(_) => ClosePrevious(j)
          case Reconciling(_) => GiveUp(j);
      } else {
        step := SetupsWaited;
      }
    } else {
      if j :| 0 <= j < |s.setups| && s.setups[j].forward !in {NotStarted, Ended} {
        assert SetupOk(s, j);
        NobodyCloses(s, j);
        step := if s.setups[j].forward.Carrying? then Abort(j) else EndOfEvents(j);
      } else {
        step := ForwardsWaited;
      }
    }
  }

  /** After stop has closed its watcher every watcher is closed. */
  lemma NobodyCloses(s: State, j: nat)
    requires Inv(s) && j < |s.setups| && (s.stop.WatcherClosed? || s.stop.Stopped?)
    ensures !s.setups[j].watcher.Open?
  {
    assert SetupOk(s, j);
    forall c ensures !Closes(s, c, j) {
    }
  }

  function OwnSteps(steps: seq<Step>): nat {
    if steps == [] then 0 else OwnSteps(steps[..|steps| - 1]) + (if Internal(steps[|steps| - 1]) then 1 else 0)
  }

  /** However receivers, watchers and callers behave: after stop has begun the session takes at most as many
      steps of its own as it had work then, so with StopCanGoOn it cannot take steps forever without ending. */
  lemma {:induction false} StopIsBounded(states: seq<State>, steps: seq<Step>, m: nat, n: nat)
    requires Run(states, steps) && m <= n < |states| && !states[m].stop.Running?
    ensures !states[n].stop.Running? && OwnSteps(steps[m..n]) + Work(states[n]) <= Work(states[m])
    decreases n - m
  {
    hide Inv, Work, Internal, Can, After;
    if m < n {
      StopIsBounded(states, steps, m, n - 1);
      EveryRunKeepsInv(states, steps);
      assert steps[m..n][..n - 1 - m] == steps[m..n - 1] && steps[m..n][n - 1 - m] == steps[n - 1];
      assert Can(states[n - 1], steps[n - 1]) && states[n] == After(states[n - 1], steps[n - 1]) && Inv(states[n - 1]);
      WorkShrinks(states[n - 1], steps[n - 1]);
    }
  }
}

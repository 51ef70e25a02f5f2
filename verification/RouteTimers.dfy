/** What dormancy timers and pending refreshes mean over every run of the registry:
    `internal/app/folder_registry.go`. A backend retires only after a grace period without any use, and
    a refresh that was asked for is not forgotten. */
module RouteTimers {
  import opened Wrappers
  import opened FolderRoute
  import opened RouteLifecycle
  import opened FolderRegistry

  /** While somebody holds the latch no armed timer is left; only a retirement leaves its own timer behind. */
  ghost predicate TimersKept(s: State) {
    && TimersOk(s.entry)
    && (s.phase !in {Phase.Idle, Retiring} ==> s.entry.dormancyID !in s.entry.timers)
    && (s.phase == Retiring ==> s.entry.session.None?)
  }

  /** Steps by which somebody uses the route, or shutdown takes it: an activation, an acquisition that gets
      the backend, a new subscriber. */
  predicate Uses(s: State, closing: bool, e: Event) {
    match e
    case Latch(TryActivate) => true
    case Requests(_, TryAcquire) => Acquire(s.entry, closing).1.Some?
    case SubscriberDelta(delta) => delta > 0
    case ShutsDown(Mark) => true
    case _ => false
  }

  lemma LatchKeepsTimers(s: State, closing: bool, l: LatchStep)
    requires Inv(s, closing) && TimersKept(s) && CanLatch(s, l)
    ensures TimersKept(AfterLatch(s, closing, l))
  {
    hide OneLive, Counted, Stopping, Generations;
  }

  lemma RequestKeepsTimers(s: State, closing: bool, r: Request, step: RequestStep)
    requires TimersKept(s) && Latched(s) && CanRequest(s, r, step)
    ensures TimersKept(AfterRequest(s, closing, r, step))
  {
    hide CanMove, Moved;
  }

  lemma ShutdownKeepsTimers(s: State, closing: bool, stage: ShutdownStep)
    requires TimersKept(s) && Stopping(s, closing) && CanShutdown(s, closing, stage)
    ensures TimersKept(AfterShutdown(s, closing, stage))
  {
  }

  lemma OtherStepKeepsTimers(s: State, closing: bool, e: Event)
    requires TimersKept(s) && Latched(s) && Enabled(s, closing, e) && !e.Latch? && !e.Requests? && !e.ShutsDown?
    ensures TimersKept(Apply(s, closing, e))
  {
    hide CanMove, Moved, CanRequest, AfterRequest, CanLatch, AfterLatch, CanShutdown, AfterShutdown;
  }

  lemma InvParts(s: State, closing: bool)
    requires Inv(s, closing)
    ensures Latched(s) && Stopping(s, closing)
  {
  }

  lemma StepKeepsTimers(s: State, closing: bool, e: Event)
    requires Inv(s, closing) && TimersKept(s) && Enabled(s, closing, e)
    ensures TimersKept(Apply(s, closing, e))
  {
    hide Inv, TimersKept;
    assert Latched(s) && Stopping(s, closing) by { InvParts(s, closing); }
    hide Latched, Stopping, CanLatch, AfterLatch, CanRequest, AfterRequest, CanShutdown, AfterShutdown, AfterMove;
    match e
    case Latch(l) => LatchKeepsTimers(s, closing, l);
    case Requests(r, step) => RequestKeepsTimers(s, closing, r, step);
    case ShutsDown(stage) => ShutdownKeepsTimers(s, closing, stage);
    case _ => OtherStepKeepsTimers(s, closing, e);
  }

  ghost predicate Grown(e: Entry, f: Entry) {
    e.dormancyID <= f.dormancyID && e.timers <= f.timers
  }

  lemma LatchOutdates(s: State, closing: bool, l: LatchStep)
    requires CanLatch(s, l)
    ensures Grown(s.entry, AfterLatch(s, closing, l).entry)
    ensures l == TryActivate ==> s.entry.dormancyID < AfterLatch(s, closing, l).entry.dormancyID
  {
  }

  lemma RequestOutdates(s: State, closing: bool, r: Request, step: RequestStep)
    requires CanRequest(s, r, step)
    ensures Grown(s.entry, AfterRequest(s, closing, r, step).entry)
    ensures Uses(s, closing, Requests(r, step)) ==> s.entry.dormancyID < AfterRequest(s, closing, r, step).entry.dormancyID
  {
    hide CanMove, Moved;
  }

  /** Ids only grow, no armed id is forgotten, and every use outdates all of them. */
  lemma StepOutdates(s: State, closing: bool, e: Event)
    requires Enabled(s, closing, e)
    ensures Grown(s.entry, Apply(s, closing, e).entry)
    ensures Uses(s, closing, e) ==> s.entry.dormancyID < Apply(s, closing, e).entry.dormancyID
  {
    hide CanMove, Moved, CanLatch, AfterLatch, CanRequest, AfterRequest;
    match e
    case Latch(l) => LatchOutdates(s, closing, l);
    case Requests(r, step) => RequestOutdates(s, closing, r, step);
    case _ =>
  }

  ghost predicate AllKept(r: Registry) {
    forall n :: n in r.routes ==> TimersKept(r.routes[n])
  }

  lemma StepKeepsAll(r: Registry, step: Step)
    requires Good(r) && AllKept(r) && CanStep(r, step)
    ensures AllKept(After(r, step))
  {
    hide Inv, Enabled, Apply, TimersKept;
    match step
    case AddRoute(name) => FreshIsKept();
    case OnRoute(name, e) => StepKeepsTimers(r.routes[name], r.closing, e);
    case _ =>
  }

  lemma FreshIsKept()
    ensures TimersKept(Fresh)
  {
  }

  lemma {:induction false} EveryRunKeepsTimers(steps: seq<Step>)
    requires Run(steps).Some?
    ensures AllKept(Run(steps).value)
  {
    hide AllKept, Good, CanStep, After;
    if steps == [] {
      NothingIsKept();
    } else {
      EveryRunKeepsTimers(steps[..|steps| - 1]);
      EveryRunIsGood(steps[..|steps| - 1]);
      StepKeepsAll(Run(steps[..|steps| - 1]).value, steps[|steps| - 1]);
    }
  }

  lemma NothingIsKept()
    ensures AllKept(Empty)
  {
  }

  /** In every run a timer that fires retires the backend exactly when it is the armed one, whatever other
      timers were stopped too late; then the route is idle and nobody holds its backend. */
  lemma OnlyTheArmedTimerRetires(steps: seq<Step>, name: string, id: nat)
    requires Run(steps).Some? && name in Run(steps).value.routes && id in Run(steps).value.routes[name].entry.timers
    ensures var (s, closing) := (Run(steps).value.routes[name], Run(steps).value.closing);
      && (Retire(s.entry, closing, id).1.Some? <==> !closing && s.entry.dormancy == Some(id))
      && (Retire(s.entry, closing, id).1.Some? ==> s.holding == map[] && s.entry.subscribers == 0 && s.phase == Phase.Idle)
  {
    hide Run;
    EveryRunKeepsTimers(steps);
    EveryRunIsGood(steps);
    var s := Run(steps).value.routes[name];
    assert TimersKept(s) && Inv(s, Run(steps).value.closing);
    FiringRetiresIffArmed(s.entry, Run(steps).value.closing, id);
    assert |s.holding| == 0 ==> s.holding == map[];
  }

  lemma {:induction false} PrefixRuns(steps: seq<Step>, more: seq<Step>)
    requires Run(steps + more).Some?
    ensures Run(steps).Some?
    decreases |more|
  {
    if more == [] {
      assert steps + more == steps;
    } else {
      assert (steps + more)[..|steps + more| - 1] == steps + more[..|more| - 1];
      PrefixRuns(steps, more[..|more| - 1]);
    }
  }

  /** From one state of a run to a later one routes stay, ids only grow and no armed id is forgotten. */
  lemma {:induction false} IdsOnlyGrow(steps: seq<Step>, more: seq<Step>, name: string)
    requires Run(steps + more).Some?
    ensures Run(steps).Some?
    ensures name in Run(steps).value.routes ==>
      && name in Run(steps + more).value.routes
      && Grown(Run(steps).value.routes[name].entry, Run(steps + more).value.routes[name].entry)
    decreases |more|
  {
    hide Enabled, Apply;
    PrefixRuns(steps, more);
    if more == [] {
      assert steps + more == steps;
    } else {
      var n := |more| - 1;
      assert (steps + more)[..|steps + more| - 1] == steps + more[..n];
      IdsOnlyGrow(steps, more[..n], name);
      var r := Run(steps + more[..n]).value;
      if more[n].OnRoute? { StepOutdates(r.routes[more[n].name], r.closing, more[n].event); }
    }
  }

  /** The grace period is without use: once somebody has used the route, no timer armed before retires it,
      however late it fires. */
  lemma OutdatedTimerNeverRetires(steps: seq<Step>, use: Event, more: seq<Step>, name: string, id: nat)
    requires Run(steps + [OnRoute(name, use)] + more).Some?
    requires Run(steps).Some? && name in Run(steps).value.routes && id in Run(steps).value.routes[name].entry.timers
    requires Uses(Run(steps).value.routes[name], Run(steps).value.closing, use)
    ensures var r := Run(steps + [OnRoute(name, use)] + more).value;
      name in r.routes && Retire(r.routes[name].entry, r.closing, id).1.None?
  {
    hide Enabled, Apply, Uses, Retire;
    var used := steps + [OnRoute(name, use)];
    IdsOnlyGrow(used, more, name);
    assert used[..|used| - 1] == steps;
    var r := Run(steps).value;
    StepOutdates(r.routes[name], r.closing, use);
    EveryRunKeepsTimers(steps);
    assert TimersKept(r.routes[name]);
    OldIdIsRefused(Run(used + more).value.routes[name].entry, Run(used + more).value.closing, id);
  }

  lemma OldIdIsRefused(e: Entry, closing: bool, id: nat)
    requires id < e.dormancyID
    ensures Retire(e, closing, id).1.None?
  {
  }

  // ------------------------------------------------------ pending refreshes

  /** Steps that ask for a refresh: opening the folder again, or a refresh that failed. */
  predicate Asks(s: State, closing: bool, e: Event) {
    (e.OpenAgain? && !s.entry.shutting && !closing) || e == Latch(RefreshEnds(true))
  }

  /** Somebody takes the latch, to refresh the backend or to build one. */
  predicate Begins(r: Registry, step: Step, name: string) {
    step == OnRoute(name, Latch(TryActivate)) && name in r.routes && EnsureActive(r.routes[name].entry, r.closing).1 == Began
  }

  lemma PendingStays(s: State, closing: bool, e: Event)
    requires Enabled(s, closing, e) && s.entry.refreshPending
    requires e == Latch(TryActivate) ==> EnsureActive(s.entry, closing).1 != Began
    ensures Apply(s, closing, e).entry.refreshPending
  {
    hide CanMove, Moved;
  }

  lemma {:induction false} PendingUntilBegun(steps: seq<Step>, more: seq<Step>, name: string)
    requires Run(steps + more).Some? && Run(steps).Some? && name in Run(steps).value.routes
    requires Run(steps).value.routes[name].entry.refreshPending
    requires forall n :: 0 <= n < |more| && Run(steps + more[..n]).Some? ==> !Begins(Run(steps + more[..n]).value, more[n], name)
    ensures name in Run(steps + more).value.routes && Run(steps + more).value.routes[name].entry.refreshPending
    decreases |more|
  {
    hide Enabled, Apply, EnsureActive;
    if more == [] {
      assert steps + more == steps;
    } else {
      var n := |more| - 1;
      assert (steps + more)[..|steps + more| - 1] == steps + more[..n];
      assert forall k :: 0 <= k < n ==> more[..n][..k] == more[..k];
      PendingUntilBegun(steps, more[..n], name);
      var r := Run(steps + more[..n]).value;
      assert !Begins(r, more[n], name);
      if more[n].OnRoute? && more[n].name == name { PendingStays(r.routes[name], r.closing, more[n].event); }
    }
  }

  /** A refresh that was asked for is not forgotten: until somebody takes the latch for it, nobody is told
      that the backend is current. */
  lemma RefreshIsNotForgotten(steps: seq<Step>, ask: Event, more: seq<Step>, name: string)
    requires Run(steps + [OnRoute(name, ask)] + more).Some? && Run(steps).Some? && name in Run(steps).value.routes
    requires Asks(Run(steps).value.routes[name], Run(steps).value.closing, ask)
    requires var asked := steps + [OnRoute(name, ask)];
      forall n :: 0 <= n < |more| && Run(asked + more[..n]).Some? ==> !Begins(Run(asked + more[..n]).value, more[n], name)
    ensures var r := Run(steps + [OnRoute(name, ask)] + more).value;
      name in r.routes && EnsureActive(r.routes[name].entry, r.closing).1 != Current
  {
    var asked := steps + [OnRoute(name, ask)];
    PrefixRuns(asked, more);
    assert asked[..|asked| - 1] == steps;
    PendingUntilBegun(asked, more, name);
  }

  // ------------------------------------------------------ who is subscribed

  /** What the step adds to or takes from the subscribers of a route. */
  function Change(step: Step, name: string): int {
    if step.OnRoute? && step.name == name && step.event.SubscriberDelta? then step.event.delta else 0
  }

  /** How many more have joined than left. */
  function Balance(steps: seq<Step>, name: string): int {
    if steps == [] then 0 else Balance(steps[..|steps| - 1], name) + Change(steps[|steps| - 1], name)
  }

  /** The lowest balance on the way; below zero only if more left than had joined. */
  function Lowest(steps: seq<Step>, name: string): (low: int)
    ensures low <= 0 && low <= Balance(steps, name)
  {
    if steps == [] then 0
    else
      var before := Lowest(steps[..|steps| - 1], name);
      if Balance(steps, name) < before then Balance(steps, name) else before
  }

  lemma StepCountsChange(s: State, closing: bool, e: Event)
    requires Enabled(s, closing, e)
    ensures var (n, d) := (s.entry.subscribers, if e.SubscriberDelta? then e.delta else 0);
      Apply(s, closing, e).entry.subscribers == if n + d < 0 then 0 else n + d
  {
    hide CanMove, Moved;
  }

  /** In every run the count is the balance, lifted by what had to be cut off below zero. */
  lemma {:induction false} SubscribersAreCounted(steps: seq<Step>, name: string)
    requires Run(steps).Some?
    ensures name in Run(steps).value.routes ==>
      Run(steps).value.routes[name].entry.subscribers == Balance(steps, name) - Lowest(steps, name)
    ensures name !in Run(steps).value.routes ==> Balance(steps, name) == Lowest(steps, name) == 0
  {
    hide Enabled, Apply;
    if steps != [] {
      var n := |steps| - 1;
      SubscribersAreCounted(steps[..n], name);
      var r := Run(steps[..n]).value;
      if steps[n].OnRoute? { StepCountsChange(r.routes[steps[n].name], r.closing, steps[n].event); }
    }
  }

  /** While more have joined a route than left it no timer retires it, whichever fires; and with nobody ever
      leaving who had not joined, the count is exactly who is there. */
  lemma SubscribersKeepTheRoute(steps: seq<Step>, name: string, id: nat)
    requires Run(steps).Some? && name in Run(steps).value.routes
    ensures var r := Run(steps).value;
      && (Balance(steps, name) > 0 ==> Retire(r.routes[name].entry, r.closing, id).1.None?)
      && (Lowest(steps, name) == 0 ==> r.routes[name].entry.subscribers == Balance(steps, name))
  {
    hide Run;
    SubscribersAreCounted(steps, name);
  }
}

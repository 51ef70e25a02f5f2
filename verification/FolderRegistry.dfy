/** The registry of folder routes and its shutdown: `internal/app/folder_registry.go`. What holds over
    every run, for any number of routes and any interleaving. */
module FolderRegistry {
  import opened Wrappers
  import FolderRoute
  import opened RouteLifecycle

  datatype Registry = Registry(closing: bool, routes: map<string, State>, entries: Option<set<string>>, returned: bool)

  datatype Step =
    | AddRoute(name: string)
    | StartShutdown
    | ListEntries
    | OnRoute(name: string, event: Event)
    | Return

  const Empty: Registry := Registry(false, map[], None, false)

  /** shutdown marks every listed route before it collects any, and collects all before it drains any. */
  predicate InOrder(r: Registry, stage: ShutdownStep) {
    && r.entries.Some?
    && (stage == Collect ==> forall n :: n in r.entries.value && n in r.routes ==> r.routes[n].shutdown != NotMarked)
    && (stage == Drain ==> forall n :: n in r.entries.value && n in r.routes ==> r.routes[n].shutdown !in {NotMarked, Marked})
  }

  predicate CanStep(r: Registry, step: Step) {
    match step
    case AddRoute(name) => !r.closing && name !in r.routes
    case StartShutdown => true
    case ListEntries => r.closing && r.entries.None?
    case OnRoute(name, e) =>
      && name in r.routes && Enabled(r.routes[name], r.closing, e)
      && (e.ShutsDown? ==> InOrder(r, e.stage) && name in r.entries.value)
    case Return => r.entries.Some? && forall n :: n in r.entries.value ==> n in r.routes && r.routes[n].shutdown == Closed
  }

  function After(r: Registry, step: Step): Registry
    requires CanStep(r, step)
  {
    match step
    case AddRoute(name) => r.(routes := r.routes[name := Fresh])
    case StartShutdown => r.(closing := true)
    case ListEntries => r.(entries := Some(r.routes.Keys))
    case OnRoute(name, e) => r.(routes := r.routes[name := Apply(r.routes[name], r.closing, e)])
    case Return => r.(returned := true)
  }

  /** The state a run ends in, if every step was possible when taken. */
  function Run(steps: seq<Step>): Option<Registry> {
    if steps == [] then Some(Empty)
    else
      match Run(steps[..|steps| - 1])
      case None => None
      case Some(r) =>
        if CanStep(r, steps[|steps| - 1]) then Some(After(r, steps[|steps| - 1])) else None
  }

  ghost predicate Good(r: Registry) {
    && (forall n :: n in r.routes ==> Inv(r.routes[n], r.closing))
    && (r.entries.Some? ==> r.closing && r.entries.value == r.routes.Keys)
    && (r.returned ==> r.entries.Some? && forall n :: n in r.routes ==> r.routes[n].shutdown == Closed)
  }

  lemma StepKeepsGood(r: Registry, step: Step)
    requires Good(r) && CanStep(r, step)
    ensures Good(After(r, step))
  {
    hide Inv, Enabled, Apply;
    match step
    case AddRoute(name) => FreshIsInv(r.closing);
    case StartShutdown =>
      forall n | n in r.routes ensures Inv(r.routes[n], true) {
        if !r.closing { ClosingKeepsInv(r.routes[n]); }
      }
    case OnRoute(name, e) =>
      StepKeepsInv(r.routes[name], r.closing, e);
      if r.returned { ClosedStaysClosed(r.routes[name], r.closing, e); }
    case _ =>
  }

  lemma ClosedIsIdle(s: State, closing: bool)
    requires Inv(s, closing) && s.shutdown == Closed
    ensures s.phase == Idle
  {
  }

  lemma ClosedStaysClosed(s: State, closing: bool, e: Event)
    requires Inv(s, closing) && Enabled(s, closing, e) && s.shutdown == Closed
    ensures Apply(s, closing, e).shutdown == Closed
    ensures |Apply(s, closing, e).backends| == |s.backends|
  {
    ClosedIsIdle(s, closing);
    hide Inv, FolderRoute.EnsureActive, FolderRoute.Acquire, FolderRoute.Release, FolderRoute.Retire,
      FolderRoute.Publish, FolderRoute.SubscribersChanged;
  }

  lemma {:induction false} EveryRunIsGood(steps: seq<Step>)
    requires Run(steps).Some?
    ensures Good(Run(steps).value)
  {
    hide Good, CanStep, After;
    if steps == [] {
      EmptyIsGood();
    } else {
      EveryRunIsGood(steps[..|steps| - 1]);
      StepKeepsGood(Run(steps[..|steps| - 1]).value, steps[|steps| - 1]);
    }
  }

  lemma EmptyIsGood()
    ensures Good(Empty)
  {
  }

  // ------------------------------------------------------ what every run keeps

  predicate MutationRuns(s: State, i: nat) {
    i < |s.backends| && s.backends[i].queue.running
  }

  /** A route never has two unfinished backends, so its mutations never overlap, and while a successor
      is about to be created every backend before it has drained its queue and ended its consumer. */
  lemma OneLiveBackend(steps: seq<Step>, name: string)
    requires Run(steps).Some? && name in Run(steps).value.routes
    ensures var s := Run(steps).value.routes[name];
      && (forall i :: 0 <= i < |s.backends| - 1 ==> Finished(s.backends[i]))
      && (forall i, j :: MutationRuns(s, i) && MutationRuns(s, j) ==> i == j)
      && (CanLatch(s, SessionCreated) ==> forall i :: 0 <= i < |s.backends| ==> Finished(s.backends[i]))
      && (s.entry.session.Some? ==> s.entry.session.value == |s.backends| - 1)
  {
    hide Run;
    EveryRunIsGood(steps);
    assert Inv(Run(steps).value.routes[name], Run(steps).value.closing);
  }

  /** Nothing is retired under a request, and a held backend loses its queue only to shutdown. */
  lemma HeldBackendStaysOpen(steps: seq<Step>, name: string, request: Request)
    requires Run(steps).Some? && name in Run(steps).value.routes
    requires request in Run(steps).value.routes[name].holding
    ensures var s := Run(steps).value.routes[name];
      var held := s.holding[request];
      && held < |s.backends| && s.entry.session == Some(held) && s.backends[held].published
      && s.phase !in {Retiring, Discarding}
      && (s.backends[held].queue.stopped || s.backends[held].sourceClosed ==> s.entry.shutting && s.shutdown !in {NotMarked, Marked})
  {
    hide Run;
    EveryRunIsGood(steps);
    assert Inv(Run(steps).value.routes[name], Run(steps).value.closing);
  }

  /** Two responses of one route carry the same generation only if the same backend gave them, and
      later backends answer with higher generations. */
  lemma GenerationsNeverShared(steps: seq<Step>, name: string, i: nat, j: nat)
    requires Run(steps).Some? && name in Run(steps).value.routes
    requires i < j < |Run(steps).value.routes[name].backends|
    ensures var b := Run(steps).value.routes[name].backends;
      forall g, h :: g in b[i].answered && h in b[j].answered ==> g < h
  {
    hide Run;
    EveryRunIsGood(steps);
    assert Inv(Run(steps).value.routes[name], Run(steps).value.closing);
  }

  /** When shutdown has returned, every backend ever created on any route is closed, no request is in
      flight and none can be acquired any more. */
  lemma ShutdownClosesEverything(steps: seq<Step>)
    requires Run(steps).Some? && Run(steps).value.returned
    ensures var r := Run(steps).value;
      && r.entries == Some(r.routes.Keys)
      && (forall name :: name in r.routes ==> Ended(r.routes[name], r.closing))
  {
    hide Run;
    EveryRunIsGood(steps);
    var r := Run(steps).value;
    forall name | name in r.routes ensures Ended(r.routes[name], r.closing) {
      ClosedHasEnded(r.routes[name], r.closing);
    }
  }

  ghost predicate Ended(s: State, closing: bool) {
    && (forall i :: 0 <= i < |s.backends| ==> Finished(s.backends[i]))
    && s.holding == map[] && s.leaving == {} && s.entry.session.None? && !s.entry.transition
    && FolderRoute.Acquire(s.entry, closing).1.None?
    && FolderRoute.EnsureActive(s.entry, closing).1 == FolderRoute.Refused
  }

  lemma ClosedHasEnded(s: State, closing: bool)
    requires Inv(s, closing) && s.shutdown == Closed
    ensures Ended(s, closing)
  {
    assert |s.holding| == 0 && |s.leaving| == 0;
  }

  /** Nothing is created any more: the same routes, each with the backends it had. */
  ghost predicate Settled(r: Registry, t: Registry) {
    && t.returned && t.routes.Keys == r.routes.Keys
    && forall n :: n in r.routes ==> |t.routes[n].backends| == |r.routes[n].backends|
  }

  lemma StepAfterReturn(r: Registry, step: Step)
    requires Good(r) && r.returned && CanStep(r, step)
    ensures Settled(r, After(r, step))
  {
    hide Inv, Enabled, Apply;
    if step.OnRoute? { ClosedStaysClosed(r.routes[step.name], r.closing, step.event); }
  }

  /** ... and whatever is attempted afterwards, it stays that way. */
  lemma {:induction false} NothingAfterReturn(steps: seq<Step>, more: seq<Step>)
    requires Run(steps).Some? && Run(steps).value.returned && Run(steps + more).Some?
    ensures Settled(Run(steps).value, Run(steps + more).value)
    ensures forall name :: name in Run(steps + more).value.routes ==>
      Ended(Run(steps + more).value.routes[name], Run(steps + more).value.closing)
  {
    hide CanStep, After, Good, Ended;
    if more == [] {
      assert steps + more == steps;
    } else {
      var n := |more| - 1;
      assert (steps + more)[..|steps + more| - 1] == steps + more[..n];
      NothingAfterReturn(steps, more[..n]);
      EveryRunIsGood(steps + more[..n]);
      StepAfterReturn(Run(steps + more[..n]).value, more[n]);
    }
    ShutdownClosesEverything(steps + more);
  }
}

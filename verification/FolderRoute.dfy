/** The mutable part of one folder route and its lock-held sections: `internal/app/folder_registry.go`.

    Every section that runs under `entry.mu` is a function on `Entry`. The class below performs the
    same sections as the source does, by updating fields in place. */
module FolderRoute {
  import opened Wrappers

  /** `session` and `server` are set and cleared together, so one backend number stands for both.
      `timers` holds the ids of the armed callbacks; Stop may come too late, so they are never disarmed. */
  datatype Entry = Entry(
    session: Option<nat>,
    refreshPending: bool,
    generation: nat,
    active: nat,
    subscribers: nat,
    dormancy: Option<nat>,
    dormancyID: nat,
    timers: set<nat>,
    transition: bool,
    shutting: bool,
    requests: nat)

  /** Scheduling and cancelling touch the dormancy fields only. */
  ghost predicate SameUse(e: Entry, f: Entry) {
    f == e.(dormancy := f.dormancy, dormancyID := f.dormancyID, timers := f.timers)
  }

  function CancelDormancy(e: Entry): (f: Entry)
    ensures SameUse(e, f) && f.dormancy.None?
  {
    e.(dormancyID := e.dormancyID + 1, dormancy := None)
  }

  function ScheduleDormancy(e: Entry, closing: bool): (f: Entry)
    ensures SameUse(e, f)
  {
    if e.shutting || closing || e.session.None? || e.active != 0 || e.subscribers != 0 || e.transition || e.dormancy.Some?
    then e
    else
      var id := e.dormancyID + 1;
      e.(dormancyID := id, dormancy := Some(id), timers := e.timers + {id})
  }

  datatype Turn = Refused | Wait | Current | Began

  /** The head of ensureActive's loop. */
  function EnsureActive(e: Entry, closing: bool): (Entry, Turn) {
    var e := CancelDormancy(e);
    if e.shutting || closing then (e, Refused)
    else if e.transition then (e, Wait)
    else if e.session.Some? && !e.refreshPending then (e, Current)
    else (e.(transition := true, refreshPending := false), Began)
  }

  function EndRefresh(e: Entry, failed: bool): Entry {
    e.(refreshPending := e.refreshPending || failed, transition := false)
  }

  /** Publishing a new backend; None when shutdown came first. */
  function Publish(e: Entry, closing: bool, backend: nat): (Entry, bool) {
    if e.shutting || closing then (e, false) else (e.(session := Some(backend)), true)
  }

  function EndTransition(e: Entry): Entry {
    e.(transition := false)
  }

  /** The section of acquire and acquireServer; None when it is refused or has to retry. */
  function Acquire(e: Entry, closing: bool): (Entry, Option<nat>) {
    if e.shutting || closing || e.session.None? then (e, None)
    else (CancelDormancy(e).(active := e.active + 1, requests := e.requests + 1), e.session)
  }

  function Release(e: Entry, closing: bool): Entry {
    ScheduleDormancy(if e.active > 0 then e.(active := e.active - 1) else e, closing)
  }

  function SubscribersChanged(e: Entry, closing: bool, delta: int): Entry {
    if delta > 0 then CancelDormancy(e.(subscribers := e.subscribers + delta))
    else ScheduleDormancy(e.(subscribers := if e.subscribers + delta < 0 then 0 else e.subscribers + delta), closing)
  }

  /** A dormancy timer firing: the backend to close, if its id is still current and nothing uses the route. */
  function Retire(e: Entry, closing: bool, id: nat): (Entry, Option<nat>) {
    if || e.shutting || closing || e.dormancyID != id || e.active != 0 || e.subscribers != 0 || e.transition
       || e.session.None?
    then (e, None)
    else (e.(transition := true, dormancy := None, session := None), e.session)
  }

  function EndRetire(e: Entry, lastGeneration: nat): Entry {
    e.(generation := lastGeneration + 1, transition := false)
  }

  /** openFolder on a known route. */
  function Reopen(e: Entry, closing: bool): Entry {
    if e.shutting || closing then e else e.(refreshPending := true)
  }

  function MarkShutting(e: Entry): Entry {
    CancelDormancy(e.(shutting := true))
  }

  function ClearBackend(e: Entry, backend: Option<nat>): Entry {
    if e.session == backend then e.(session := None) else e
  }

  // ------------------------------------------------------ what the dormancy id is for

  predicate Idle(e: Entry) {
    e.session.Some? && e.active == 0 && e.subscribers == 0 && !e.transition && !e.shutting
  }

  /** No id is given out twice. */
  ghost predicate Numbered(e: Entry) {
    forall id :: id in e.timers ==> id <= e.dormancyID
  }

  /** The one timer that counts carries the newest id and belongs to an idle
      route; any other that carries it has retired the backend already. */
  ghost predicate TimersOk(e: Entry) {
    && Numbered(e)
    && (e.dormancy.Some? ==> e.dormancy.value == e.dormancyID && e.dormancyID in e.timers && Idle(e))
    && (e.dormancyID in e.timers ==> e.dormancy == Some(e.dormancyID) || e.session.None?)
  }

  /** No timer armed so far can retire the route. */
  ghost predicate Awake(e: Entry) {
    forall id, closing :: id in e.timers ==> Retire(e, closing, id).1.None?
  }

  /** Nobody gets a backend of this route any more, or takes its latch, or publishes to it. */
  ghost predicate OutOfService(e: Entry) {
    forall closing, id: nat ::
      Acquire(e, closing) == (e, None) && EnsureActive(e, closing).1 == Refused
      && Retire(e, closing, id) == (e, None) && Publish(e, closing, id) == (e, false) && ScheduleDormancy(e, closing) == e
  }

  /** Firing takes the backend out exactly when the timer is the armed one. */
  lemma FiringRetiresIffArmed(e: Entry, closing: bool, id: nat)
    requires TimersOk(e) && id in e.timers
    ensures Retire(e, closing, id).1.Some? <==> !closing && e.dormancy == Some(id)
  {
  }

  lemma ShuttingIsOutOfService(e: Entry)
    requires e.shutting
    ensures OutOfService(e)
  {
  }

  class Route {
    var session: Option<nat>
    var refreshPending: bool
    var generation: nat
    var active: nat
    var subscribers: nat
    var dormancy: Option<nat>
    var dormancyID: nat
    var timers: set<nat>
    var transition: bool
    var shutting: bool
    var requests: nat

    function View(): Entry
      reads this
    {
      Entry(session, refreshPending, generation, active, subscribers, dormancy, dormancyID, timers, transition,
            shutting, requests)
    }

    ghost predicate Valid()
      reads this
    {
      TimersOk(View())
    }

    constructor ()
      ensures Valid() && View() == Entry(None, false, 1, 0, 0, None, 0, {}, false, false, 0)
    {
      session, refreshPending, generation, active, subscribers := None, false, 1, 0, 0;
      dormancy, dormancyID, timers, transition, shutting, requests := None, 0, {}, false, false, 0;
    }

    /** Every timer armed so far is outdated. */
    method DoCancelDormancy()
      requires Numbered(View())
      modifies this
      ensures Valid() && Awake(View()) && dormancyID !in timers
      ensures View() == CancelDormancy(old(View()))
    {
      dormancyID := dormancyID + 1;
      if dormancy.Some? { dormancy := None; }
    }

    /** Afterwards a timer is armed exactly when the route is idle, and firing it would retire the backend. */
    method DoScheduleDormancy(closing: bool)
      requires Valid()
      modifies this
      ensures Valid() && View() == ScheduleDormancy(old(View()), closing)
      ensures !closing ==> (dormancy.Some? <==> Idle(View()))
      ensures dormancy.Some? && !closing ==> Retire(View(), closing, dormancy.value).1 == session
    {
      if shutting || closing || session.None? || active != 0 || subscribers != 0 || transition || dormancy.Some? {
        return;
      }
      dormancyID := dormancyID + 1;
      var id := dormancyID;
      dormancy := Some(id);
      timers := timers + {id};
    }

    /** One caller at a time gets the latch, and a caller is told the backend is current only if the next
        acquisition would get it. */
    method DoEnsureActive(closing: bool) returns (turn: Turn)
      requires Valid()
      modifies this
      ensures Valid() && Awake(View()) && (View(), turn) == EnsureActive(old(View()), closing)
      ensures turn == Began <==> !old(transition) && transition
      ensures turn == Began ==> dormancyID !in timers && EnsureActive(View(), closing).1 == Wait
      ensures turn == Current ==> Acquire(View(), closing).1 == session && session.Some? && !refreshPending
      ensures turn == Refused <==> shutting || closing
      ensures turn == Current <==>
        !shutting && !closing && !old(transition) && old(session).Some? && !old(refreshPending)
      ensures turn == Began ==> !refreshPending && session == old(session)
    {
      DoCancelDormancy();
      if shutting || closing { return Refused; }
      if transition { return Wait; }
      if session.Some? && !refreshPending { return Current; }
      transition := true;
      refreshPending := false;
      turn := Began;
    }

    /** The latch is free; the backend is current unless the refresh failed or another one was asked for. */
    method DoEndRefresh(failed: bool)
      requires Valid()
      modifies this
      ensures Valid() && View() == EndRefresh(old(View()), failed)
      ensures forall closing :: EnsureActive(View(), closing).1 != Wait
      ensures forall closing :: failed || old(refreshPending) ==> EnsureActive(View(), closing).1 != Current
      ensures !failed && !old(refreshPending) && session.Some? && !shutting ==> EnsureActive(View(), false).1 == Current
    {
      if failed { refreshPending := true; }
      transition := false;
    }

    /** Called with the latch that DoEnsureActive gave, which had outdated every timer. A published backend
        is what acquisitions get from now on; one that is not published no acquisition gets. */
    method DoPublish(closing: bool, backend: nat) returns (published: bool)
      requires Valid() && transition && dormancyID !in timers
      modifies this
      ensures Valid() && (View(), published) == Publish(old(View()), closing, backend)
      ensures published ==> Acquire(View(), closing).1 == Some(backend)
      ensures !published ==> Acquire(View(), closing).1.None? && EnsureActive(View(), closing).1 == Refused
    {
      published := !shutting && !closing;
      if published { session := Some(backend); }
    }

    /** Whoever waited for the latch goes on. */
    method DoEndTransition()
      requires Valid()
      modifies this
      ensures Valid() && View() == EndTransition(old(View()))
      ensures forall closing :: EnsureActive(View(), closing).1 != Wait
    {
      transition := false;
    }

    /** A request that holds the backend keeps every timer from retiring it. */
    method DoAcquire(closing: bool) returns (held: Option<nat>)
      requires Valid()
      modifies this
      ensures Valid() && (View(), held) == Acquire(old(View()), closing)
      ensures held.Some? ==> held == session && !shutting && active > 0 && dormancyID !in timers
      ensures held.Some? ==> forall c, id :: Retire(View(), c, id).1.None?
    {
      if shutting || closing { return None; }
      if session.None? { return None; }
      DoCancelDormancy();
      active := active + 1;
      requests := requests + 1;
      held := session;
    }

    /** The release that leaves the route idle is the one that arms the timer. */
    method DoRelease(closing: bool)
      requires Valid()
      modifies this
      ensures Valid() && View() == Release(old(View()), closing)
      ensures active == (if old(active) > 0 then old(active) - 1 else 0) && requests == old(requests)
      ensures !closing ==> (dormancy.Some? <==> Idle(View()))
    {
      if active > 0 { active := active - 1; }
      DoScheduleDormancy(closing);
    }

    /** Every change is counted, but never below zero. With a subscriber no timer retires the route; when one
        leaves, a timer is armed exactly when the route is idle. */
    method DoSubscribersChanged(closing: bool, delta: int)
      requires Valid()
      modifies this
      ensures Valid() && View() == SubscribersChanged(old(View()), closing, delta)
      ensures delta > 0 || old(subscribers) + delta >= 0 ==> subscribers == old(subscribers) + delta
      ensures delta <= 0 && old(subscribers) + delta < 0 ==> subscribers == 0
      ensures subscribers > 0 ==> forall c, id :: Retire(View(), c, id).1.None?
      ensures delta <= 0 && !closing ==> (dormancy.Some? <==> Idle(View()))
    {
      if delta > 0 {
        subscribers := subscribers + delta;
        DoCancelDormancy();
      } else {
        subscribers := if subscribers + delta < 0 then 0 else subscribers + delta;
        DoScheduleDormancy(closing);
      }
    }

    /** A timer that fires takes the backend out exactly when it is the armed one. Nobody holds what was
        taken out, nobody gets it any more, and whoever wants a backend waits for the latch. */
    method DoRetire(closing: bool, id: nat) returns (retired: Option<nat>)
      requires Valid() && id in timers
      modifies this
      ensures Valid() && (View(), retired) == Retire(old(View()), closing, id)
      ensures retired == if !closing && old(dormancy) == Some(id) then old(session) else None
      ensures retired.None? ==> View() == old(View())
      ensures retired.Some? ==> active == 0 && Acquire(View(), closing).1.None? && EnsureActive(View(), closing).1 == Wait
      ensures retired.Some? ==> Awake(View())
    {
      if shutting || closing || dormancyID != id || active != 0 || subscribers != 0 || transition || session.None? {
        return None;
      }
      transition := true;
      dormancy := None;
      retired := session;
      session := None;
    }

    /** The next activation builds a backend, and its generations start above the last one's. */
    method DoEndRetire(lastGeneration: nat)
      requires Valid() && session.None?
      modifies this
      ensures Valid() && View() == EndRetire(old(View()), lastGeneration)
      ensures generation == lastGeneration + 1 && forall closing :: EnsureActive(View(), closing).1 in {Refused, Began}
    {
      generation := lastGeneration + 1;
      transition := false;
    }

    /** Nobody is told that the backend is current before it has been refreshed. */
    method DoReopen(closing: bool)
      requires Valid()
      modifies this
      ensures Valid() && View() == Reopen(old(View()), closing)
      ensures EnsureActive(View(), closing).1 != Current
    {
      if !(shutting || closing) { refreshPending := true; }
    }

    method DoMarkShutting()
      requires Valid()
      modifies this
      ensures Valid() && OutOfService(View()) && View() == MarkShutting(old(View()))
    {
      shutting := true;
      DoCancelDormancy();
      ShuttingIsOutOfService(View());
    }

    /** Shutdown forgets the backend it closed, unless the route has another one by now. */
    method DoClearBackend(backend: Option<nat>)
      requires Valid() && shutting
      modifies this
      ensures Valid() && View() == ClearBackend(old(View()), backend)
      ensures backend.Some? ==> session != backend
      ensures old(session) == backend ==> session.None?
    {
      if session == backend { session := None; }
    }
  }
}

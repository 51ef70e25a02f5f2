/** Every interleaving of one folder route with its backends, requests, timers and shutdown.

    The steps are the lock-held sections of `folder_registry.go`, the stages of closing a session in
    `folder_session.go`, and the moves of the mutation worker and of the event consumer. */
module RouteLifecycle {
  import opened Wrappers
  import opened FolderRoute

  /** What a backend's mutation queue shows from outside (module MutationQueue holds its inside). */
  datatype Queue = Queue(stopped: bool, backlog: nat, running: bool, exited: bool)

  /** The server's dispatch loop over the session's event channel. */
  datatype Consumer = NotStarted | Consuming | Ended

  /** A folder session with its server. `answered` collects the generations put into responses. */
  datatype Backend = Backend(
    queue: Queue, sourceClosed: bool, consumer: Consumer, published: bool,
    firstGeneration: nat, generation: nat, answered: set<nat>)

  /** What the holder of the transition latch is doing; all but Refreshing concern the newest backend. */
  datatype Phase = Idle | Refreshing | Opening | Built | Ready | Discarding | Settled | Retiring

  /** How far shutdown has got with this route. */
  datatype Shutdown = NotMarked | Marked | Collected(backend: Option<nat>) | Drained(backend: Option<nat>)
                    | Unheld(backend: Option<nat>) | Closed

  type Request = nat

  /** `holding` maps each acquired request to its backend. `leaving` are the requests that have been
      released but not yet taken off the wait group. */
  datatype State = State(
    entry: Entry, phase: Phase, shutdown: Shutdown, backends: seq<Backend>,
    holding: map<Request, nat>, leaving: set<Request>)

  /** What a backend does by itself, or has done to it. */
  datatype Move =
    | JobSubmitted | JobStarts | JobSkipped | JobEnds | WorkerExits | QueueStops | SourceCloses
    | EventConsumed | ConsumerEnds | MutationSucceeds | Answers(at: nat)

  /** What the holder of the latch does, and the sections that may take it. */
  datatype LatchStep =
    | TryActivate | RefreshEnds(failed: bool)
    | OpenFails | SessionCreated | ServerFails | ServerStarted | TryPublish
    | DiscardEnds | TransitionEnds | TimerFires(id: nat) | RetireEnds

  datatype RequestStep = TryAcquire | Leave | Done | Ask(move: Move)

  datatype ShutdownStep = Mark | Collect | Drain | RequestsGone | RouteClosed

  datatype Event =
    | Latch(latch: LatchStep)
    | Requests(request: Request, step: RequestStep)
    | Moves(backend: nat, move: Move)
    | SwitchRepository
    | SubscriberDelta(delta: int)
    | OpenAgain
    | ShutsDown(stage: ShutdownStep)

  const Fresh: State :=
    State(Entry(None, false, 1, 0, 0, None, 0, {}, false, false, 0), Idle, NotMarked, [], map[], {})

  // ------------------------------------------------------ steps

  /** The backend somebody is entitled to close: the one retired or discarded, or the one shutdown collected. */
  function Closing(s: State): Option<nat> {
    if s.phase in {Discarding, Retiring} && s.backends != [] then Some(|s.backends| - 1)
    else if s.shutdown.Collected? then s.shutdown.backend
    else None
  }

  predicate Quiet(b: Backend) {
    b.queue.exited && b.sourceClosed && b.consumer != Consuming
  }

  predicate CanMove(b: Backend, m: Move) {
    var q := b.queue;
    match m
    case JobSubmitted => !q.stopped
    case JobStarts => q.backlog > 0 && !q.running
    case JobSkipped => q.backlog > 0 && !q.running
    case JobEnds => q.running
    case WorkerExits => q.stopped && q.backlog == 0 && !q.running
    case QueueStops => true
    case SourceCloses => q.stopped
    case EventConsumed => b.consumer == Consuming
    case ConsumerEnds => b.consumer == Consuming && b.sourceClosed
    case MutationSucceeds => true
    case Answers(g) => b.firstGeneration <= g <= b.generation
  }

  function Moved(b: Backend, m: Move): Backend
    requires CanMove(b, m)
  {
    var q := b.queue;
    match m
    case JobSubmitted => b.(queue := q.(backlog := q.backlog + 1))
    case JobStarts => b.(queue := q.(backlog := q.backlog - 1, running := true))
    case JobSkipped => b.(queue := q.(backlog := q.backlog - 1))
    case JobEnds => b.(queue := q.(running := false))
    case WorkerExits => b.(queue := q.(exited := true))
    case QueueStops => b.(queue := q.(stopped := true))
    case SourceCloses => b.(sourceClosed := true)
    case EventConsumed => b.(generation := b.generation + 1)
    case ConsumerEnds => b.(consumer := Ended)
    case MutationSucceeds => b.(generation := b.generation + 1)
    case Answers(g) => b.(answered := b.answered + {g})
  }

  const NewBackend: Backend := Backend(Queue(false, 0, false, false), false, NotStarted, false, 0, 0, {})

  function Served(b: Backend, generation: nat): Backend {
    var first := if generation < 1 then 1 else generation;
    b.(consumer := Consuming, firstGeneration := first, generation := first)
  }

  function SetNewest(s: State, b: Backend): State
    requires s.backends != []
  {
    s.(backends := s.backends[|s.backends| - 1 := b])
  }

  function Newest(s: State): Backend
    requires s.backends != []
  {
    s.backends[|s.backends| - 1]
  }

  predicate CanLatch(s: State, l: LatchStep) {
    match l
    case TryActivate => true
    case RefreshEnds(_) => s.phase == Refreshing
    case OpenFails => s.phase == Opening
    case SessionCreated => s.phase == Opening
    case ServerFails => s.phase == Built
    case ServerStarted => s.phase == Built && s.backends != []
    case TryPublish => s.phase == Ready && s.backends != []
    case DiscardEnds => s.phase == Discarding && s.backends != [] && Quiet(Newest(s))
    case TransitionEnds => s.phase == Settled
    case TimerFires(id) => id in s.entry.timers
    case RetireEnds => s.phase == Retiring && s.backends != [] && Quiet(Newest(s))
  }

  function AfterLatch(s: State, closing: bool, l: LatchStep): State
    requires CanLatch(s, l)
  {
    match l
    case TryActivate =>
      var (entry, turn) := FolderRoute.EnsureActive(s.entry, closing);
      s.(entry := entry, phase := if turn == Began then (if entry.session.Some? then Refreshing else Opening) else s.phase)
    case RefreshEnds(failed) => s.(entry := EndRefresh(s.entry, failed), phase := Idle)
    case OpenFails => s.(phase := Settled)
    case SessionCreated => s.(backends := s.backends + [NewBackend], phase := Built)
    case ServerFails => s.(phase := Discarding)
    case ServerStarted => SetNewest(s, Served(Newest(s), s.entry.generation)).(phase := Ready)
    case TryPublish =>
      var (entry, published) := Publish(s.entry, closing, |s.backends| - 1);
      if published then SetNewest(s, Newest(s).(published := true)).(entry := entry, phase := Settled)
      else s.(phase := Discarding)
    case DiscardEnds => s.(phase := Settled)
    case TransitionEnds => s.(entry := EndTransition(s.entry), phase := Idle)
    case TimerFires(id) =>
      var (entry, retired) := Retire(s.entry, closing, id);
      s.(entry := entry, phase := if retired.Some? then Retiring else s.phase)
    case RetireEnds => s.(entry := EndRetire(s.entry, Newest(s).generation), phase := Idle)
  }

  /** Autonomous moves of any backend; only its closer stops its queue and closes its source. */
  predicate CanMoveBackend(s: State, i: nat, m: Move) {
    && i < |s.backends| && CanMove(s.backends[i], m)
    && m in {JobStarts, JobSkipped, JobEnds, WorkerExits, QueueStops, SourceCloses, EventConsumed, ConsumerEnds}
    && (m in {QueueStops, SourceCloses} ==> Closing(s) == Some(i))
  }

  function AfterMove(s: State, i: nat, m: Move): State
    requires i < |s.backends| && CanMove(s.backends[i], m)
  {
    s.(backends := s.backends[i := Moved(s.backends[i], m)])
  }

  predicate CanRequest(s: State, r: Request, step: RequestStep) {
    match step
    case TryAcquire => r !in s.holding && r !in s.leaving
    case Leave => r in s.holding
    case Done => r in s.leaving && s.entry.requests > 0
    case Ask(m) =>
      && r in s.holding && s.holding[r] < |s.backends| && CanMove(s.backends[s.holding[r]], m)
      && (m in {JobSubmitted, MutationSucceeds} || m.Answers?)
  }

  function AfterRequest(s: State, closing: bool, r: Request, step: RequestStep): State
    requires CanRequest(s, r, step)
  {
    match step
    case TryAcquire =>
      var (entry, held) := Acquire(s.entry, closing);
      if held.Some? then s.(entry := entry, holding := s.holding[r := held.value]) else s
    case Leave =>
      s.(entry := Release(s.entry, closing), holding := s.holding - {r}, leaving := s.leaving + {r})
    case Done => s.(entry := s.entry.(requests := s.entry.requests - 1), leaving := s.leaving - {r})
    case Ask(m) => AfterMove(s, s.holding[r], m)
  }

  predicate CanShutdown(s: State, closing: bool, stage: ShutdownStep) {
    match stage
    case Mark => closing && s.shutdown == NotMarked
    case Collect => s.shutdown == Marked && !s.entry.transition
    case Drain =>
      s.shutdown.Collected? && (s.shutdown.backend.Some? ==>
        s.backends != [] && s.shutdown.backend.value == |s.backends| - 1 && Newest(s).queue.exited && Newest(s).sourceClosed)
    case RequestsGone => s.shutdown.Drained? && s.entry.requests == 0
    case RouteClosed =>
      s.shutdown.Unheld? && (s.shutdown.backend.Some? ==> s.backends != [] && Newest(s).consumer == Ended)
  }

  function AfterShutdown(s: State, closing: bool, stage: ShutdownStep): State
    requires CanShutdown(s, closing, stage)
  {
    match stage
    case Mark => s.(entry := MarkShutting(s.entry), shutdown := Marked)
    case Collect => s.(shutdown := Collected(s.entry.session))
    case Drain => s.(shutdown := Drained(s.shutdown.backend))
    case RequestsGone => s.(shutdown := Unheld(s.shutdown.backend))
    case RouteClosed => s.(entry := ClearBackend(s.entry, s.shutdown.backend), shutdown := Closed)
  }

  /** refresh hands the repository switch to the mutation queue of the current session. */
  predicate CanSwitch(s: State) {
    && s.phase == Refreshing && s.entry.session.Some? && s.entry.session.value < |s.backends|
    && CanMove(s.backends[s.entry.session.value], JobSubmitted)
  }

  predicate Enabled(s: State, closing: bool, e: Event) {
    match e
    case Latch(l) => CanLatch(s, l)
    case Requests(r, step) => CanRequest(s, r, step)
    case Moves(i, m) => CanMoveBackend(s, i, m)
    case SwitchRepository => CanSwitch(s)
    case SubscriberDelta(_) => true
    case OpenAgain => true
    case ShutsDown(stage) => CanShutdown(s, closing, stage)
  }

  function Apply(s: State, closing: bool, e: Event): State
    requires Enabled(s, closing, e)
  {
    match e
    case Latch(l) => AfterLatch(s, closing, l)
    case Requests(r, step) => AfterRequest(s, closing, r, step)
    case Moves(i, m) => AfterMove(s, i, m)
    case SwitchRepository => AfterMove(s, s.entry.session.value, JobSubmitted)
    case SubscriberDelta(delta) => s.(entry := SubscribersChanged(s.entry, closing, delta))
    case OpenAgain => s.(entry := Reopen(s.entry, closing))
    case ShutsDown(stage) => AfterShutdown(s, closing, stage)
  }

  // ------------------------------------------------------ the invariant

  /** Nothing of this backend runs any more, and nothing can start. */
  predicate Finished(b: Backend) {
    b.queue.stopped && b.queue.exited && b.queue.backlog == 0 && !b.queue.running && b.sourceClosed && b.consumer != Consuming
  }

  predicate WellQueued(b: Backend) {
    && (b.queue.exited ==> b.queue.stopped && b.queue.backlog == 0 && !b.queue.running)
    && (b.sourceClosed ==> b.queue.stopped)
  }

  /** Every backend but the newest is finished; the newest is too unless it is published or in the latch holder's hands. */
  ghost predicate OneLive(s: State) {
    && (forall i :: 0 <= i < |s.backends| ==> WellQueued(s.backends[i]))
    && (forall i :: 0 <= i < |s.backends| - 1 ==> Finished(s.backends[i]))
    && (s.entry.session.Some? ==> s.entry.session.value == |s.backends| - 1)
    && (s.entry.session.None? && s.phase in {Idle, Opening, Settled} && s.backends != [] ==>
          Finished(Newest(s)))
  }

  ghost predicate Latched(s: State) {
    && (s.entry.transition <==> s.phase != Idle)
    && (s.phase == Refreshing ==> s.entry.session.Some?)
    && (s.phase in {Opening, Built, Ready, Discarding, Retiring} ==> s.entry.session.None?)
    && (s.phase in {Built, Ready, Discarding, Retiring} ==> s.backends != [])
    && (s.phase == Built ==> Newest(s).consumer == NotStarted)
    && (s.phase in {Built, Ready, Discarding} ==> !Newest(s).published)
    && (s.phase == Retiring ==> Newest(s).published)
    && (s.phase in {Built, Ready} ==> !Newest(s).queue.stopped)
  }

  ghost predicate Counted(s: State) {
    && s.entry.active == |s.holding|
    && s.entry.requests == |s.holding| + |s.leaving|
    && s.holding.Keys !! s.leaving
    && (forall r :: r in s.holding ==> s.entry.session == Some(s.holding[r]))
  }

  ghost predicate Stopping(s: State, closing: bool) {
    && (s.shutdown != NotMarked ==> closing && s.entry.shutting)
    && (s.shutdown !in {NotMarked, Marked} ==> s.phase == Idle)
    && (s.shutdown.Collected? || s.shutdown.Drained? || s.shutdown.Unheld? ==> s.shutdown.backend == s.entry.session)
    && ((s.shutdown.Drained? || s.shutdown.Unheld?) && s.entry.session.Some? ==>
          s.backends != [] && Newest(s).queue.exited && Newest(s).sourceClosed)
    && (s.shutdown.Unheld? || s.shutdown == Closed ==> s.entry.requests == 0)
    && (s.shutdown == Closed ==> s.entry.session.None?)
    && (s.entry.session.Some? && s.shutdown in {NotMarked, Marked} ==>
          s.backends != [] && !Newest(s).queue.stopped)
  }

  /** A published backend answers within its own range, and ranges of successive backends follow one another. */
  ghost predicate Generations(s: State) {
    && (forall i :: 0 <= i < |s.backends| ==>
          var b := s.backends[i];
          b.firstGeneration <= b.generation && forall g :: g in b.answered ==> b.published && b.firstGeneration <= g <= b.generation)
    && (forall i, j :: 0 <= i < j < |s.backends| && s.backends[i].published && s.backends[j].published ==>
          s.backends[i].generation < s.backends[j].firstGeneration)
    && (forall i :: 0 <= i < |s.backends| - 1 && s.backends[i].published ==> s.backends[i].generation < s.entry.generation)
    && (s.entry.session.None? && s.phase != Retiring && s.shutdown != Closed && s.backends != [] ==>
          (Newest(s).published ==> Newest(s).generation < s.entry.generation))
    && (s.phase == Ready && s.backends != [] ==> s.entry.generation <= Newest(s).firstGeneration)
    && (s.entry.session.Some? ==> s.backends != [] && Newest(s).published)
  }

  ghost predicate Inv(s: State, closing: bool) {
    OneLive(s) && Latched(s) && Counted(s) && Stopping(s, closing) && Generations(s)
  }

  lemma FreshIsInv(closing: bool)
    ensures Inv(Fresh, closing)
  {
  }

  lemma ClosingKeepsInv(s: State)
    requires Inv(s, false)
    ensures Inv(s, true)
  {
  }

  /** The invariant looks at no dormancy, subscriber or refresh field. */
  lemma Frame(s: State, t: State, closing: bool)
    requires Inv(s, closing) && Counted(t)
    requires t.backends == s.backends && t.phase == s.phase && t.shutdown == s.shutdown
    requires t.entry.session == s.entry.session && t.entry.generation == s.entry.generation
    requires t.entry.transition == s.entry.transition && t.entry.shutting == s.entry.shutting
    requires s.shutdown.Unheld? || s.shutdown == Closed ==> t.entry.requests == 0
    ensures Inv(t, closing)
  {
  }

  predicate Live(s: State) {
    s.backends != [] && (s.entry.session.Some? || s.phase in {Built, Ready, Discarding, Retiring})
  }

  lemma MovedIsSteady(b: Backend, m: Move)
    requires WellQueued(b) && CanMove(b, m)
    ensures var c := Moved(b, m);
      && WellQueued(c) && c.published == b.published && c.firstGeneration == b.firstGeneration
      && b.generation <= c.generation && (b.queue.exited ==> c.queue.exited) && (b.sourceClosed ==> c.sourceClosed)
      && (m != QueueStops ==> c.queue.stopped == b.queue.stopped)
      && (m != ConsumerEnds ==> c.consumer == b.consumer)
      && (c.answered == b.answered || (c.generation == b.generation && m.Answers? && c.answered == b.answered + {m.at}))
  {
  }

  /** The newest backend may move on while it is live. */
  lemma NewestMoves(s: State, closing: bool, m: Move)
    requires Inv(s, closing) && Live(s) && CanMove(Newest(s), m)
    requires m.Answers? ==> Newest(s).published
    requires m == QueueStops ==> Closing(s).Some?
    ensures Inv(AfterMove(s, |s.backends| - 1, m), closing)
  {
    var n, t := |s.backends| - 1, AfterMove(s, |s.backends| - 1, m);
    MovedIsSteady(Newest(s), m);
    hide Moved, CanMove;
    assert Newest(t) == Moved(Newest(s), m);
    assert forall i :: 0 <= i < n ==> t.backends[i] == s.backends[i];
    assert OneLive(t) && Latched(t) && Counted(t) && Stopping(t, closing);
  }

  lemma OnlyNewestIsLive(s: State, closing: bool, i: nat)
    requires Inv(s, closing) && i < |s.backends| && !Finished(s.backends[i])
    ensures i == |s.backends| - 1 && Live(s)
  {
  }

  lemma MoveStep(s: State, closing: bool, i: nat, m: Move)
    requires Inv(s, closing) && CanMoveBackend(s, i, m)
    ensures Inv(AfterMove(s, i, m), closing)
  {
    hide WellQueued, Counted, Generations, Stopping, Latched;
    if Finished(s.backends[i]) && m in {JobStarts, JobSkipped, JobEnds, WorkerExits, EventConsumed, ConsumerEnds} {
      assert AfterMove(s, i, m) == s;
    } else {
      if m in {QueueStops, SourceCloses} { CloserHoldsNewest(s, closing, i); } else { OnlyNewestIsLive(s, closing, i); }
      NewestMoves(s, closing, m);
    }
  }

  lemma CloserHoldsNewest(s: State, closing: bool, i: nat)
    requires Inv(s, closing) && Closing(s) == Some(i) && i < |s.backends|
    ensures i == |s.backends| - 1 && Live(s)
  {
  }

  lemma Dropped<K, V>(m: map<K, V>, k: K)
    requires k in m
    ensures |m - {k}| == |m| - 1
  {
    var rest := m - {k};
    assert rest.Keys == m.Keys - {k};
    assert |rest.Keys| == |rest| && |m.Keys| == |m|;
  }

  lemma RequestKeepsInv(s: State, closing: bool, r: Request, step: RequestStep)
    requires Inv(s, closing) && CanRequest(s, r, step)
    ensures Inv(AfterRequest(s, closing, r, step), closing)
  {
    match step
    case TryAcquire =>
      if FolderRoute.Acquire(s.entry, closing).1.Some? { AcquireKeepsInv(s, closing, r, FolderRoute.Acquire(s.entry, closing).0); }
    case Leave => LeaveKeepsInv(s, closing, r, Release(s.entry, closing));
    case Done => DoneKeepsInv(s, closing, r, s.entry.(requests := s.entry.requests - 1));
    case Ask(m) => NewestMoves(s, closing, m);
  }

  ghost predicate SamePlace(e: Entry, f: Entry) {
    f.session == e.session && f.generation == e.generation && f.transition == e.transition && f.shutting == e.shutting
  }

  lemma AcquireKeepsInv(s: State, closing: bool, r: Request, f: Entry)
    requires Inv(s, closing) && SamePlace(s.entry, f) && f.session.Some? && s.shutdown == NotMarked
    requires r !in s.holding && r !in s.leaving
    requires f.active == s.entry.active + 1 && f.requests == s.entry.requests + 1
    ensures Inv(s.(entry := f, holding := s.holding[r := f.session.value]), closing)
  {
    hide OneLive, Generations, Latched;
    Frame(s, s.(entry := f, holding := s.holding[r := f.session.value]), closing);
  }

  lemma LeaveKeepsInv(s: State, closing: bool, r: Request, f: Entry)
    requires Inv(s, closing) && SamePlace(s.entry, f) && r in s.holding
    requires f.active == s.entry.active - 1 && f.requests == s.entry.requests
    ensures Inv(s.(entry := f, holding := s.holding - {r}, leaving := s.leaving + {r}), closing)
  {
    hide OneLive, Generations, Latched;
    Dropped(s.holding, r);
    Frame(s, s.(entry := f, holding := s.holding - {r}, leaving := s.leaving + {r}), closing);
  }

  lemma DoneKeepsInv(s: State, closing: bool, r: Request, f: Entry)
    requires Inv(s, closing) && SamePlace(s.entry, f) && r in s.leaving
    requires f.active == s.entry.active && f.requests == s.entry.requests - 1
    ensures Inv(s.(entry := f, leaving := s.leaving - {r}), closing)
  {
    hide OneLive, Generations, Latched;
    Frame(s, s.(entry := f, leaving := s.leaving - {r}), closing);
  }

  lemma ActivateKeepsInv(s: State, closing: bool)
    requires Inv(s, closing)
    ensures Inv(AfterLatch(s, closing, TryActivate), closing)
  {
    hide Finished, WellQueued, CancelDormancy;
    if FolderRoute.EnsureActive(s.entry, closing).1 != Began { Frame(s, AfterLatch(s, closing, TryActivate), closing); }
  }

  /** Steps that change only the phase. */
  lemma PhaseKeepsInv(s: State, closing: bool, l: LatchStep)
    requires Inv(s, closing) && CanLatch(s, l) && (l.OpenFails? || l.ServerFails? || l.DiscardEnds?)
    ensures Inv(AfterLatch(s, closing, l), closing)
  {
    var t := AfterLatch(s, closing, l);
    assert t == s.(phase := t.phase);
    assert Generations(t) && OneLive(t);
  }

  lemma UnlatchKeepsInv(s: State, closing: bool, l: LatchStep)
    requires Inv(s, closing) && CanLatch(s, l) && (l.RefreshEnds? || l.TransitionEnds?)
    ensures Inv(AfterLatch(s, closing, l), closing)
  {
    hide WellQueued, Finished;
  }

  lemma CreateKeepsInv(s: State, closing: bool)
    requires Inv(s, closing) && s.phase == Opening
    ensures Inv(s.(backends := s.backends + [NewBackend], phase := Built), closing)
  {
    var t, n := s.(backends := s.backends + [NewBackend], phase := Built), |s.backends|;
    assert forall i :: 0 <= i < n ==> t.backends[i] == s.backends[i];
    assert Newest(t) == NewBackend;
    assert OneLive(t) && Latched(t) && Counted(t) && Stopping(t, closing);
  }

  lemma ServeKeepsInv(s: State, closing: bool)
    requires Inv(s, closing) && s.phase == Built && s.backends != []
    ensures Inv(SetNewest(s, Served(Newest(s), s.entry.generation)).(phase := Ready), closing)
  {
    var t, n := SetNewest(s, Served(Newest(s), s.entry.generation)).(phase := Ready), |s.backends| - 1;
    assert forall i :: 0 <= i < n ==> t.backends[i] == s.backends[i];
    assert OneLive(t) && Latched(t) && Counted(t) && Stopping(t, closing);
  }

  lemma PublishKeepsInv(s: State, closing: bool)
    requires Inv(s, closing) && s.phase == Ready && s.backends != []
    requires !closing && !s.entry.shutting
    ensures Inv(SetNewest(s, Newest(s).(published := true))
                .(entry := s.entry.(session := Some(|s.backends| - 1)), phase := Settled), closing)
  {
    var t := SetNewest(s, Newest(s).(published := true)).(entry := s.entry.(session := Some(|s.backends| - 1)), phase := Settled);
    var n := |s.backends| - 1;
    assert forall i :: 0 <= i < n ==> t.backends[i] == s.backends[i];
    assert OneLive(t) && Latched(t) && Counted(t) && Stopping(t, closing);
  }

  lemma RefuseKeepsInv(s: State, closing: bool)
    requires Inv(s, closing) && s.phase == Ready
    ensures Inv(s.(phase := Discarding), closing)
  {
    hide WellQueued, Finished;
  }

  lemma BuildKeepsInv(s: State, closing: bool, l: LatchStep)
    requires Inv(s, closing) && CanLatch(s, l)
    requires l.SessionCreated? || l.ServerStarted? || l.TryPublish?
    ensures Inv(AfterLatch(s, closing, l), closing)
  {
    hide Inv, Served;
    match l
    case SessionCreated => CreateKeepsInv(s, closing);
    case ServerStarted => ServeKeepsInv(s, closing);
    case TryPublish => if s.entry.shutting || closing { RefuseKeepsInv(s, closing); } else { PublishKeepsInv(s, closing); }
  }

  lemma RetireKeepsInv(s: State, closing: bool, l: LatchStep)
    requires Inv(s, closing) && CanLatch(s, l)
    requires l.TimerFires? || l.RetireEnds?
    ensures Inv(AfterLatch(s, closing, l), closing)
  {
  }

  lemma ShutdownKeepsInv(s: State, closing: bool, stage: ShutdownStep)
    requires Inv(s, closing) && CanShutdown(s, closing, stage)
    ensures Inv(AfterShutdown(s, closing, stage), closing)
  {
    if stage == RouteClosed { ClosedKeepsInv(s, closing); } else { StageKeepsInv(s, closing, stage); }
  }

  lemma ClosedKeepsInv(s: State, closing: bool)
    requires Inv(s, closing) && CanShutdown(s, closing, RouteClosed)
    ensures Inv(AfterShutdown(s, closing, RouteClosed), closing)
  {
  }

  lemma StageKeepsInv(s: State, closing: bool, stage: ShutdownStep)
    requires Inv(s, closing) && CanShutdown(s, closing, stage) && stage != RouteClosed
    ensures Inv(AfterShutdown(s, closing, stage), closing)
  {
    hide WellQueued, Finished;
  }

  lemma StepKeepsInv(s: State, closing: bool, e: Event)
    requires Inv(s, closing) && Enabled(s, closing, e)
    ensures Inv(Apply(s, closing, e), closing)
  {
    hide Inv, AfterLatch, AfterMove, AfterRequest, AfterShutdown, CanLatch, CanMoveBackend, CanRequest, CanShutdown;
    match e
    case Latch(TryActivate) => ActivateKeepsInv(s, closing);
    case Latch(l) =>
      if l.TimerFires? || l.RetireEnds? { RetireKeepsInv(s, closing, l); }
      else if l.RefreshEnds? || l.TransitionEnds? { UnlatchKeepsInv(s, closing, l); }
      else if l.SessionCreated? || l.ServerStarted? || l.TryPublish? { BuildKeepsInv(s, closing, l); }
      else { PhaseKeepsInv(s, closing, l); }
    case Requests(r, step) => RequestKeepsInv(s, closing, r, step);
    case Moves(i, m) => MoveStep(s, closing, i, m);
    case SwitchRepository => SwitchKeepsInv(s, closing);
    case SubscriberDelta(delta) => EntryKeepsInv(s, closing, SubscribersChanged(s.entry, closing, delta));
    case OpenAgain => EntryKeepsInv(s, closing, Reopen(s.entry, closing));
    case ShutsDown(stage) => ShutdownKeepsInv(s, closing, stage);
  }

  lemma SwitchKeepsInv(s: State, closing: bool)
    requires Inv(s, closing) && CanSwitch(s)
    ensures Inv(AfterMove(s, s.entry.session.value, JobSubmitted), closing)
  {
    NewestMoves(s, closing, JobSubmitted);
  }

  lemma EntryKeepsInv(s: State, closing: bool, entry: Entry)
    requires Inv(s, closing) && SamePlace(s.entry, entry)
    requires entry.active == s.entry.active && entry.requests == s.entry.requests
    ensures Inv(s.(entry := entry), closing)
  {
    hide Generations, Latched, OneLive;
    Frame(s, s.(entry := entry), closing);
  }
}

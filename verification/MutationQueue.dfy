/** The FIFO mutation queue over all interleavings of its callers, its worker and Stop:
    `internal/gitx/operations.go`. Channel operations and lock acquisitions are single steps. */
module MutationQueue {
  import opened Wrappers
  import opened Ordering

  type Job = nat

  /** Where the goroutine inside Do stands. Admitted and Offering hold the read lock. */
  datatype Caller = Called | Admitted | Offering | Accepted | Refused | GaveUp

  /** Where the one goroutine inside Stop's once.Do stands: it has announced the stop but not asked for the
      write lock yet, waits for it, or holds it (Locked and Closed). */
  datatype Stopper = Idle | Announced | Waiting | Locked | Closed | Stopped

  datatype Worker = Receiving | Checking(job: Job) | Running(job: Job) | Exited

  datatype Reply = Ran | Skipped

  /** `accepted`, `started` and `replies` record, in order, the sends on the queue, the runs and the
      sends on the reply channels. `crashed` is set by a send on a closed channel. */
  datatype State = State(
    callers: map<Job, Caller>, cancelled: set<Job>,
    stopping: bool, closed: bool, stopper: Stopper,
    buffer: seq<Job>, worker: Worker,
    accepted: seq<Job>, started: seq<Job>, replies: seq<(Job, Reply)>,
    crashed: bool)

  const CAPACITY: nat := 64

  const New: State := State(map[], {}, false, false, Idle, [], Receiving, [], [], [], false)

  datatype Event =
    | Call(job: Job) | Cancel(job: Job) | GiveUp(job: Job)
    | Lock(job: Job) | SeeStopping(job: Job) | PassStopping(job: Job)
    | Send(job: Job) | WakeStopping(job: Job)
    | StopBegins | StopAsks | StopLocks | StopCloses | StopUnlocks
    | Receive | Skip | Start | Finish | Exit

  predicate Is(s: State, job: Job, caller: Caller) {
    job in s.callers && s.callers[job] == caller
  }

  predicate Reading(s: State, job: Job) {
    Is(s, job, Admitted) || Is(s, job, Offering)
  }

  predicate Enabled(s: State, e: Event) {
    match e
    case Call(j) => j !in s.callers
    case Cancel(j) => j in s.callers
    case GiveUp(j) => j in s.cancelled && (Is(s, j, Called) || Is(s, j, Offering))
    case Lock(j) => Is(s, j, Called) && s.stopper in {Idle, Announced, Stopped}
    case SeeStopping(j) => Is(s, j, Admitted) && s.stopping
    case PassStopping(j) => Is(s, j, Admitted) && !s.stopping
    case Send(j) => Is(s, j, Offering) && (s.closed || |s.buffer| < CAPACITY)
    case WakeStopping(j) => Is(s, j, Offering) && s.stopping
    case StopBegins => s.stopper == Idle
    case StopAsks => s.stopper == Announced
    case StopLocks => s.stopper == Waiting && forall j :: j in s.callers ==> !Reading(s, j)
    case StopCloses => s.stopper == Locked
    case StopUnlocks => s.stopper == Closed
    case Receive => s.worker == Receiving && s.buffer != []
    case Skip => s.worker.Checking? && s.worker.job in s.cancelled
    case Start => s.worker.Checking? && s.worker.job !in s.cancelled
    case Finish => s.worker.Running?
    case Exit => s.worker == Receiving && s.buffer == [] && s.closed
  }

  function Become(s: State, job: Job, caller: Caller): State {
    s.(callers := s.callers[job := caller])
  }

  function Apply(s: State, e: Event): State
    requires Enabled(s, e)
  {
    match e
    case Call(j) => Become(s, j, Called)
    case Cancel(j) => s.(cancelled := s.cancelled + {j})
    case GiveUp(j) => Become(s, j, GaveUp)
    case Lock(j) => Become(s, j, Admitted)
    case SeeStopping(j) => Become(s, j, Refused)
    case PassStopping(j) => Become(s, j, Offering)
    case Send(j) =>
      if s.closed then s.(crashed := true)
      else Become(s, j, Accepted).(buffer := s.buffer + [j], accepted := s.accepted + [j])
    case WakeStopping(j) => Become(s, j, Refused)
    case StopBegins => s.(stopping := true, stopper := Announced)
    case StopAsks => s.(stopper := Waiting)
    case StopLocks => s.(stopper := Locked)
    case StopCloses => s.(closed := true, stopper := Closed)
    case StopUnlocks => s.(stopper := Stopped)
    case Receive => s.(worker := Checking(s.buffer[0]), buffer := s.buffer[1..])
    case Skip => s.(worker := Receiving, replies := s.replies + [(s.worker.job, Skipped)])
    case Start => s.(worker := Running(s.worker.job), started := s.started + [s.worker.job])
    case Finish => s.(worker := Receiving, replies := s.replies + [(s.worker.job, Ran)])
    case Exit => s.(worker := Exited)
  }

  function Run(events: seq<Event>): Option<State> {
    if events == [] then Some(New)
    else
      match Run(events[..|events| - 1])
      case None => None
      case Some(s) => if Enabled(s, events[|events| - 1]) then Some(Apply(s, events[|events| - 1])) else None
  }

  // ------------------------------------------------------ the invariant

  function JobsOf(replies: seq<(Job, Reply)>): (jobs: seq<Job>)
    ensures |jobs| == |replies| && forall i :: 0 <= i < |jobs| ==> jobs[i] == replies[i].0
  {
    seq(|replies|, i requires 0 <= i < |replies| => replies[i].0)
  }

  /** The answered jobs that were run rather than skipped, in order. */
  function RanOf(replies: seq<(Job, Reply)>): seq<Job> {
    if replies == [] then []
    else
      var last := replies[|replies| - 1];
      RanOf(replies[..|replies| - 1]) + (if last.1 == Ran then [last.0] else [])
  }

  function InHand(w: Worker): seq<Job> {
    if w.Checking? || w.Running? then [w.job] else []
  }

  ghost predicate Admission(s: State) {
    && (s.stopping <==> s.stopper != Idle)
    && (s.closed <==> s.stopper in {Closed, Stopped})
    && (s.stopper in {Locked, Closed} ==> forall j :: j in s.callers ==> !Reading(s, j))
    && (s.stopper == Stopped ==> forall j :: j in s.callers ==> !Is(s, j, Offering))
    && !s.crashed
  }

  /** Every accepted job is answered, in the worker's hand or still queued, in acceptance order. */
  ghost predicate InOrder(s: State) {
    && s.accepted == JobsOf(s.replies) + InHand(s.worker) + s.buffer
    && s.started == RanOf(s.replies) + (if s.worker.Running? then [s.worker.job] else [])
    && Distinct(s.accepted)
    && (forall j :: j in s.accepted <==> Is(s, j, Accepted))
    && |s.buffer| <= CAPACITY
    && (s.worker == Exited ==> s.closed && s.buffer == [])
  }

  ghost predicate Inv(s: State) {
    Admission(s) && InOrder(s)
  }

  lemma CallerStep(s: State, e: Event)
    requires Inv(s) && Enabled(s, e)
    requires e.Call? || e.Cancel? || e.GiveUp? || e.Lock? || e.SeeStopping? || e.PassStopping? || e.WakeStopping?
    ensures Inv(Apply(s, e))
  {
    hide Distinct, RanOf;
  }

  lemma SendStep(s: State, j: Job)
    requires Inv(s) && Enabled(s, Send(j))
    ensures Inv(Apply(s, Send(j)))
  {
    hide RanOf, JobsOf;
    assert !s.closed;
    var t := Apply(s, Send(j));
    assert j !in s.accepted;
    assert t.accepted == JobsOf(t.replies) + InHand(t.worker) + t.buffer;
  }

  lemma StopStep(s: State, e: Event)
    requires Inv(s) && Enabled(s, e) && (e.StopBegins? || e.StopAsks? || e.StopLocks? || e.StopCloses? || e.StopUnlocks?)
    ensures Inv(Apply(s, e))
  {
    hide Distinct, RanOf;
  }

  lemma WorkerStep(s: State, e: Event)
    requires Inv(s) && Enabled(s, e) && (e.Receive? || e.Skip? || e.Start? || e.Finish? || e.Exit?)
    ensures Inv(Apply(s, e))
  {
    hide Admission, RanOf, JobsOf;
    var t := Apply(s, e);
    AdmissionIgnoresWorker(s, t);
    match e
    case Receive => assert [s.buffer[0]] + s.buffer[1..] == s.buffer; KeepsOrder(s, t);
    case Skip => Answered(s.replies, s.worker.job, Skipped); KeepsOrder(s, t);
    case Finish => Answered(s.replies, s.worker.job, Ran); KeepsOrder(s, t);
    case _ => KeepsOrder(s, t);
  }

  lemma Answered(replies: seq<(Job, Reply)>, j: Job, reply: Reply)
    ensures JobsOf(replies + [(j, reply)]) == JobsOf(replies) + [j]
    ensures RanOf(replies + [(j, reply)]) == RanOf(replies) + (if reply == Ran then [j] else [])
  {
    assert (replies + [(j, reply)])[..|replies|] == replies;
  }

  lemma KeepsOrder(s: State, t: State)
    requires InOrder(s) && t.accepted == s.accepted && t.callers == s.callers && t.closed == s.closed
    requires JobsOf(t.replies) + InHand(t.worker) + t.buffer == JobsOf(s.replies) + InHand(s.worker) + s.buffer
    requires t.started == RanOf(t.replies) + (if t.worker.Running? then [t.worker.job] else [])
    requires |t.buffer| <= |s.buffer| && (t.worker == Exited ==> t.closed && t.buffer == [])
    ensures InOrder(t)
  {
    hide Distinct, RanOf, JobsOf;
  }

  lemma AdmissionIgnoresWorker(s: State, t: State)
    requires Admission(s) && t.callers == s.callers && t.stopping == s.stopping && t.closed == s.closed
    requires t.stopper == s.stopper && t.crashed == s.crashed
    ensures Admission(t)
  {
  }

  lemma {:induction false} EveryRunIsInv(events: seq<Event>)
    requires Run(events).Some?
    ensures Inv(Run(events).value)
  {
    hide Inv, Enabled, Apply;
    if events == [] {
      NewIsInv();
    } else {
      EveryRunIsInv(events[..|events| - 1]);
      StepKeepsInv(Run(events[..|events| - 1]).value, events[|events| - 1]);
    }
  }

  lemma NewIsInv()
    ensures Inv(New)
  {
  }

  lemma StepKeepsInv(s: State, e: Event)
    requires Inv(s) && Enabled(s, e)
    ensures Inv(Apply(s, e))
  {
    hide Inv, Enabled, Apply;
    match e
    case Send(j) => SendStep(s, j);
    case StopBegins => StopStep(s, e);
    case StopAsks => StopStep(s, e);
    case StopLocks => StopStep(s, e);
    case StopCloses => StopStep(s, e);
    case StopUnlocks => StopStep(s, e);
    case Receive => WorkerStep(s, e);
    case Skip => WorkerStep(s, e);
    case Start => WorkerStep(s, e);
    case Finish => WorkerStep(s, e);
    case Exit => WorkerStep(s, e);
    case _ => CallerStep(s, e);
  }

  // ------------------------------------------------------ what every run keeps

  /** `sub` arises from `all` by leaving elements out. */
  ghost predicate Subsequence(sub: seq<Job>, all: seq<Job>) {
    || sub == []
    || (all != [] &&
        (if sub[|sub| - 1] == all[|all| - 1] then Subsequence(sub[..|sub| - 1], all[..|all| - 1])
         else Subsequence(sub, all[..|all| - 1])))
  }

  lemma {:induction false} SubsequenceGrows(sub: seq<Job>, all: seq<Job>, more: seq<Job>)
    requires Subsequence(sub, all) && Distinct(all + more)
    ensures Subsequence(sub, all + more)
    decreases |more|
  {
    if more == [] {
      assert all + more == all;
    } else {
      var n := |more| - 1;
      assert (all + more)[..|all + more| - 1] == all + more[..n];
      SubsequenceGrows(sub, all, more[..n]);
      SubsequenceMembers(sub, all);
      var whole := all + more;
      assert whole[|whole| - 1] == more[n];
      if sub != [] {
        assert sub[|sub| - 1] in sub;
        var k :| 0 <= k < |all| && all[k] == sub[|sub| - 1];
        assert whole[k] != whole[|whole| - 1];
      }
    }
  }

  lemma {:induction false} SubsequenceMembers(sub: seq<Job>, all: seq<Job>)
    requires Subsequence(sub, all)
    ensures forall j :: j in sub ==> j in all
    decreases |all|
  {
    if sub != [] {
      var rest := all[..|all| - 1];
      SubsequenceMembers(if sub[|sub| - 1] == all[|all| - 1] then sub[..|sub| - 1] else sub, rest);
      assert all == rest + [all[|all| - 1]];
      assert sub == sub[..|sub| - 1] + [sub[|sub| - 1]];
    }
  }

  lemma {:induction false} RanIsSubsequence(replies: seq<(Job, Reply)>)
    requires Distinct(JobsOf(replies))
    ensures Subsequence(RanOf(replies), JobsOf(replies))
  {
    if replies != [] {
      var n := |replies| - 1;
      assert JobsOf(replies) == JobsOf(replies[..n]) + [replies[n].0];
      assert JobsOf(replies)[..n] == JobsOf(replies[..n]);
      RanIsSubsequence(replies[..n]);
      if replies[n].1 == Ran {
        assert RanOf(replies)[..|RanOf(replies)| - 1] == RanOf(replies[..n]);
      } else {
        SubsequenceGrows(RanOf(replies[..n]), JobsOf(replies[..n]), [replies[n].0]);
        assert RanOf(replies) == RanOf(replies[..n]);
      }
    }
  }

  lemma {:induction false} SubsequenceIsDistinct(sub: seq<Job>, all: seq<Job>)
    requires Subsequence(sub, all) && Distinct(all)
    ensures Distinct(sub)
    decreases |all|
  {
    if sub != [] {
      var rest := all[..|all| - 1];
      if sub[|sub| - 1] == all[|all| - 1] {
        SubsequenceIsDistinct(sub[..|sub| - 1], rest);
        SubsequenceMembers(sub[..|sub| - 1], rest);
        assert forall i :: 0 <= i < |sub| - 1 ==> sub[..|sub| - 1][i] == sub[i] && sub[i] in rest;
      } else {
        SubsequenceIsDistinct(sub, rest);
      }
    }
  }

  /** Nothing is sent on a closed channel. Jobs start in acceptance order, at most one at a time and at
      most once each; each is answered at most once; one that was refused or given up never starts. */
  lemma JobsRunInAcceptanceOrder(events: seq<Event>)
    requires Run(events).Some?
    ensures var s := Run(events).value;
      && !s.crashed
      && Subsequence(s.started, s.accepted) && Distinct(s.started) && Distinct(s.accepted)
      && Distinct(JobsOf(s.replies)) && JobsOf(s.replies) <= s.accepted
      && (forall j :: Is(s, j, Refused) || Is(s, j, GaveUp) ==> j !in s.started && j !in JobsOf(s.replies))
      && (forall j :: j in s.started ==> (j, Ran) in s.replies || s.worker == Running(j))
  {
    hide Run, RanOf, JobsOf, Subsequence;
    EveryRunIsInv(events);
    var s := Run(events).value;
    var answered := JobsOf(s.replies);
    assert s.accepted[..|answered|] == answered;
    assert forall j :: j in answered ==> j in s.accepted;
    RanIsSubsequence(s.replies);
    StartedIsSubsequence(s);
    SubsequenceIsDistinct(s.started, s.accepted);
    SubsequenceMembers(s.started, s.accepted);
    forall j | j in s.started ensures (j, Ran) in s.replies || s.worker == Running(j) {
      if j in RanOf(s.replies) { RanWasAnswered(s.replies, j); }
    }
  }

  lemma StartedIsSubsequence(s: State)
    requires InOrder(s) && Subsequence(RanOf(s.replies), JobsOf(s.replies))
    ensures Subsequence(s.started, s.accepted)
  {
    var answered, ran := JobsOf(s.replies), RanOf(s.replies);
    if s.worker.Running? {
      var upTo := answered + [s.worker.job];
      assert upTo[..|upTo| - 1] == answered && s.started[..|s.started| - 1] == ran;
      assert Subsequence(s.started, upTo);
      assert upTo + s.buffer == s.accepted;
      SubsequenceGrows(s.started, upTo, s.buffer);
    } else {
      assert s.accepted == answered + (InHand(s.worker) + s.buffer);
      assert s.started == ran;
      SubsequenceGrows(ran, answered, InHand(s.worker) + s.buffer);
    }
  }

  lemma {:induction false} RanWasAnswered(replies: seq<(Job, Reply)>, j: Job)
    requires j in RanOf(replies)
    ensures (j, Ran) in replies
  {
    var n := |replies| - 1;
    if j in RanOf(replies[..n]) {
      RanWasAnswered(replies[..n], j);
    } else {
      assert replies[n] == (j, Ran);
    }
  }

  lemma CancelledStays(s: State, e: Event, j: Job)
    requires Inv(s) && Enabled(s, e) && j in s.cancelled && j !in s.started
    ensures j in Apply(s, e).cancelled && j !in Apply(s, e).started
  {
    hide Distinct, JobsOf, RanOf;
  }

  lemma {:induction false} PrefixRuns(events: seq<Event>, more: seq<Event>)
    requires Run(events + more).Some?
    ensures Run(events).Some?
    decreases |more|
  {
    if more == [] {
      assert events + more == events;
    } else {
      assert (events + more)[..|events + more| - 1] == events + more[..|more| - 1];
      PrefixRuns(events, more[..|more| - 1]);
    }
  }

  /** A job whose caller gave up before it started never starts; one that has started is not affected. */
  lemma {:induction false} CancelledNeverStarts(events: seq<Event>, more: seq<Event>, j: Job)
    requires Run(events + more).Some? && Run(events).Some?
    requires j in Run(events).value.cancelled && j !in Run(events).value.started
    ensures j in Run(events + more).value.cancelled && j !in Run(events + more).value.started
    decreases |more|
  {
    hide Enabled, Apply;
    if more == [] {
      assert events + more == events;
    } else {
      var n := |more| - 1;
      assert (events + more)[..|events + more| - 1] == events + more[..n];
      CancelledNeverStarts(events, more[..n], j);
      EveryRunIsInv(events + more[..n]);
      CancelledStays(Run(events + more[..n]).value, more[n], j);
    }
  }

  /** Once Stop has returned nothing is accepted any more, and once Wait has returned as well every
      accepted job has had exactly one answer, in acceptance order. */
  lemma StopThenWaitAnswersAll(events: seq<Event>)
    requires Run(events).Some?
    ensures var s := Run(events).value;
      && (s.stopper == Stopped ==> forall j :: !Enabled(s, Send(j)))
      && (s.worker == Exited ==> s.closed && JobsOf(s.replies) == s.accepted && s.started == RanOf(s.replies))
  {
    hide Run;
    EveryRunIsInv(events);
  }

  /** Steps the queue takes by itself, whatever its callers and their contexts do. */
  predicate Internal(e: Event) {
    !(e.Call? || e.Cancel? || e.Lock? || e.GiveUp? || e.StopBegins?)
  }

  /** Stop never deadlocks with a full queue and a busy worker: until the worker has exited there is
      always a step of the queue's own that can be taken. */
  lemma StopNeverBlocks(events: seq<Event>)
    requires Run(events).Some? && Run(events).value.stopping && Run(events).value.worker != Exited
    ensures exists e :: Internal(e) && Enabled(Run(events).value, e)
  {
    hide Run;
    EveryRunIsInv(events);
    var s := Run(events).value;
    if s.worker.Running? {
      assert Enabled(s, Finish);
    } else if s.worker.Checking? {
      assert Enabled(s, if s.worker.job in s.cancelled then Skip else Start);
    } else if s.buffer != [] {
      assert Enabled(s, Receive);
    } else if s.closed {
      assert Enabled(s, Exit);
    } else if s.stopper == Announced {
      assert Enabled(s, StopAsks);
    } else if s.stopper == Locked {
      assert Enabled(s, StopCloses);
    } else if j :| j in s.callers && Reading(s, j) {
      assert Enabled(s, if Is(s, j, Admitted) then SeeStopping(j) else WakeStopping(j));
    } else {
      assert Enabled(s, StopLocks);
    }
  }
}

/** The parallel content search under any scheduling: one goroutine submits batches and collects replies
    in order, eight workers scan. `internal/app/content_search.go`. */
module ContentPipeline {
  import opened ContentBatches
  import opened Wrappers

  const WORKERS := 8
  const BATCH_SIZE := 32

  /** Where the submitting goroutine stands. */
  datatype Phase = Feeding | Sending | Collecting | Draining | Finished

  /** `jobs` are the batches sent so far; of them `taken` were received by workers, in order, and `collected`
      replies were read, in order. A worker holds the number of its job; `replied` waits in reply channels. */
  datatype State = State(phase: Phase, next: nat, paths: seq<string>, jobs: seq<seq<string>>, taken: nat, collected: nat,
                         workers: seq<Option<nat>>, replied: set<nat>, answer: Answer)

  datatype Step = Feed | EndFeed | Send | Take(w: nat) | Reply(w: nat) | Collect | Finish

  function Initial(): State {
    State(Feeding, 0, [], [], 0, 0, seq(WORKERS, _ => None), {}, NOTHING)
  }

  /** The first eight batches of a streaming search hold one path each. */
  function BatchTarget(s: Search, x: State): nat {
    if s.streaming && |x.jobs| < WORKERS then 1 else BATCH_SIZE
  }

  predicate Can(s: Search, files: seq<string>, x: State, step: Step) {
    match step
    case Feed => x.phase.Feeding? && x.next < |files|
    case EndFeed => x.phase.Feeding? && x.next == |files|
    // the job channel has room for eight
    case Send => x.phase.Sending? && |x.jobs| - x.taken < WORKERS
    case Take(w) => w < |x.workers| && x.workers[w].None? && x.taken < |x.jobs|
    case Reply(w) => w < |x.workers| && x.workers[w].Some? && x.workers[w].value < |x.jobs|
    case Collect => (x.phase.Collecting? || x.phase.Draining?) && x.collected in x.replied && x.collected < |x.jobs|
    case Finish => x.phase.Draining? && x.collected == |x.jobs|
  }

  function AfterCollect(s: Search, x: State): State
    requires s.limit > 0 && x.collected < |x.jobs| && (x.answer.stop.None? ==> x.answer.count < s.limit)
  {
    var answer := JoinedAll(s, x.answer, Batch(s, x.jobs[x.collected], 0));
    x.(answer := answer, collected := x.collected + 1, replied := x.replied - {x.collected},
       phase := if answer.stop.Some? then Finished else if x.phase.Collecting? then Feeding else Draining)
  }

  function After(s: Search, files: seq<string>, x: State, step: Step): State
    requires s.limit > 0 && Can(s, files, x, step) && (x.answer.stop.None? ==> x.answer.count < s.limit)
  {
    match step
    case Feed =>
      var paths := x.paths + [files[x.next]];
      x.(next := x.next + 1, paths := paths, phase := if |paths| == BatchTarget(s, x) then Sending else Feeding)
    case EndFeed => x.(phase := if x.paths == [] then Draining else Sending)
    case Send =>
      x.(jobs := x.jobs + [x.paths], paths := [],
         phase := if |x.jobs| + 1 - x.collected == WORKERS then Collecting else Feeding)
    case Take(w) => x.(taken := x.taken + 1, workers := x.workers[w := Some(x.taken)])
    case Reply(w) => x.(workers := x.workers[w := None], replied := x.replied + {x.workers[w].value})
    case Collect => AfterCollect(s, x)
    case Finish => x.(phase := Finished)
  }

  // ------------------------------------------------------ the invariant

  function Flatten(jobs: seq<seq<string>>): seq<string> {
    if jobs == [] then [] else Flatten(jobs[..|jobs| - 1]) + jobs[|jobs| - 1]
  }

  /** Counters and who holds which job. */
  ghost predicate Counts(x: State) {
    && x.collected <= x.taken <= |x.jobs| && |x.workers| == WORKERS
    && |x.jobs| - x.collected <= WORKERS
    && (x.phase.Feeding? || x.phase.Sending? ==> |x.jobs| - x.collected < WORKERS)
    && (x.phase.Sending? ==> x.paths != [])
    && (x.phase.Draining? ==> x.paths == [])
    && (x.phase.Collecting? ==> |x.jobs| - x.collected == WORKERS)
  }

  /** Every job taken and not yet collected is with exactly one worker or in its reply channel. */
  ghost predicate Held(x: State) {
    && (forall j :: j in x.replied ==> x.collected <= j < x.taken)
    && (forall w :: 0 <= w < |x.workers| && x.workers[w].Some? ==>
          x.collected <= x.workers[w].value < x.taken && x.workers[w].value !in x.replied)
    && (forall v, w :: 0 <= v < w < |x.workers| && x.workers[v].Some? ==> x.workers[v] != x.workers[w])
    && (forall j :: x.collected <= j < x.taken && j !in x.replied ==> Some(j) in x.workers)
  }

  /** What was collected so far is the sequential answer for those paths, and no path is lost. */
  ghost predicate Answers(s: Search, files: seq<string>, x: State)
    requires s.limit > 0
  {
    && x.next <= |files| && x.collected <= |x.jobs|
    && files[..x.next] == Flatten(x.jobs) + x.paths
    && x.answer == Sequential(s, Flatten(x.jobs[..x.collected]))
    && (x.phase.Finished? || x.answer.stop.None?)
    && (x.phase.Draining? ==> x.next == |files|)
    && (x.phase.Finished? && x.answer.stop.None? ==> x.next == |files| && x.paths == [] && x.collected == |x.jobs|)
  }

  ghost predicate Inv(s: Search, files: seq<string>, x: State)
    requires s.limit > 0
  {
    Counts(x) && Held(x) && Answers(s, files, x)
  }

  lemma {:induction false} FlattenPrefix(jobs: seq<seq<string>>, n: nat) returns (rest: seq<string>)
    requires n <= |jobs|
    ensures Flatten(jobs) == Flatten(jobs[..n]) + rest
    decreases |jobs|
  {
    if n == |jobs| {
      assert jobs[..n] == jobs;
      rest := [];
    } else {
      assert jobs[..|jobs| - 1][..n] == jobs[..n];
      var front := FlattenPrefix(jobs[..|jobs| - 1], n);
      rest := front + jobs[|jobs| - 1];
    }
  }

  lemma FlattenMore(jobs: seq<seq<string>>, job: seq<string>)
    ensures Flatten(jobs + [job]) == Flatten(jobs) + job
  {
    assert (jobs + [job])[..|jobs|] == jobs;
  }

  lemma FeedKeeps(s: Search, files: seq<string>, x: State, step: Step)
    requires s.limit > 0 && Inv(s, files, x) && Can(s, files, x, step) && (step.Feed? || step.EndFeed? || step.Finish?)
    ensures Inv(s, files, After(s, files, x, step))
  {
    hide Sequential, Flatten;
    if step.Feed? {
      assert files[..x.next + 1] == files[..x.next] + [files[x.next]];
      assert Flatten(x.jobs) + x.paths + [files[x.next]] == Flatten(x.jobs) + (x.paths + [files[x.next]]);
    }
  }

  lemma SendKeeps(s: Search, files: seq<string>, x: State)
    requires s.limit > 0 && Inv(s, files, x) && Can(s, files, x, Send)
    ensures Inv(s, files, After(s, files, x, Send))
  {
    FlattenMore(x.jobs, x.paths);
    hide Sequential, Flatten;
    assert (x.jobs + [x.paths])[..x.collected] == x.jobs[..x.collected];
  }

  lemma WorkerKeeps(s: Search, files: seq<string>, x: State, step: Step)
    requires s.limit > 0 && Inv(s, files, x) && Can(s, files, x, step) && (step.Take? || step.Reply?)
    ensures Inv(s, files, After(s, files, x, step))
  {
    hide Sequential, Flatten;
    var y := After(s, files, x, step);
    var w := step.w;
    forall j | y.collected <= j < y.taken && j !in y.replied ensures Some(j) in y.workers {
      if step.Take? && j == x.taken {
        assert y.workers[w] == Some(j);
      } else {
        var v :| 0 <= v < |x.workers| && x.workers[v] == Some(j);
        assert v != w && y.workers[v] == Some(j);
      }
    }
  }

  lemma CollectAnswers(s: Search, files: seq<string>, x: State)
    requires s.limit > 0 && ScansItsPath(s) && Answers(s, files, x) && Can(s, files, x, Collect)
    ensures x.answer.stop.None? && x.answer.count < s.limit
    ensures JoinedAll(s, x.answer, Batch(s, x.jobs[x.collected], 0)) == Sequential(s, Flatten(x.jobs[..x.collected + 1]))
  {
    var before := x.jobs[..x.collected];
    assert x.jobs[..x.collected + 1] == before + [x.jobs[x.collected]];
    FlattenMore(before, x.jobs[x.collected]);
    hide Sequential, Flatten, JoinedAll, Batch, ScansItsPath;
    CollectExtends(s, Flatten(before), x.jobs[x.collected]);
  }

  lemma CollectCounts(s: Search, x: State)
    requires s.limit > 0 && Counts(x) && Held(x) && x.collected in x.replied && (x.phase.Collecting? || x.phase.Draining?)
    requires x.answer.stop.None? ==> x.answer.count < s.limit
    ensures Counts(AfterCollect(s, x)) && Held(AfterCollect(s, x))
  {
    hide JoinedAll, Batch;
  }

  lemma CollectKeeps(s: Search, files: seq<string>, x: State)
    requires s.limit > 0 && ScansItsPath(s) && Inv(s, files, x) && Can(s, files, x, Collect)
    ensures Inv(s, files, After(s, files, x, Collect))
  {
    CollectAnswers(s, files, x);
    CollectCounts(s, x);
    hide Sequential, Flatten, JoinedAll, Batch, ScansItsPath, Held;
  }

  lemma StepKeepsInv(s: Search, files: seq<string>, x: State, step: Step)
    requires s.limit > 0 && ScansItsPath(s) && Inv(s, files, x) && Can(s, files, x, step)
    ensures Inv(s, files, After(s, files, x, step))
  {
    hide Counts, Held, After, Can;
    match step {
      case Send => SendKeeps(s, files, x);
      case Take(_) => WorkerKeeps(s, files, x, step);
      case Reply(_) => WorkerKeeps(s, files, x, step);
      case Collect => CollectKeeps(s, files, x);
      case _ => FeedKeeps(s, files, x, step);
    }
  }

  ghost predicate Run(s: Search, files: seq<string>, states: seq<State>, steps: seq<Step>)
    requires s.limit > 0
  {
    && |states| == |steps| + 1 && states[0] == Initial()
    && forall n :: 0 <= n < |steps| ==> Next(s, files, states[n], steps[n], states[n + 1])
  }

  ghost predicate Next(s: Search, files: seq<string>, x: State, step: Step, y: State)
    requires s.limit > 0
  {
    Can(s, files, x, step) && (x.answer.stop.None? ==> x.answer.count < s.limit) && y == After(s, files, x, step)
  }

  lemma InitialInv(s: Search, files: seq<string>)
    requires s.limit > 0
    ensures Inv(s, files, Initial())
  {
  }

  lemma {:induction false} EveryRunKeepsInv(s: Search, files: seq<string>, states: seq<State>, steps: seq<Step>)
    requires s.limit > 0 && ScansItsPath(s) && Run(s, files, states, steps)
    ensures forall n :: 0 <= n < |states| ==> Inv(s, files, states[n])
  {
    hide Inv, Can, After, ScansItsPath;
    var m := |steps|;
    if m == 0 {
      InitialInv(s, files);
    } else {
      EveryRunKeepsInv(s, files, states[..m], steps[..m - 1]);
      assert Inv(s, files, states[..m][m - 1]);
      assert Next(s, files, states[m - 1], steps[m - 1], states[m]);
      StepKeepsInv(s, files, states[m - 1], steps[m - 1]);
    }
  }

  // ------------------------------------------------------ what it means

  /** However the workers are scheduled, a finished search returns what scanning file by file returns: the
      same files and matches in the same order, the same failure, the same truncation. */
  lemma ScheduleDoesNotMatter(s: Search, files: seq<string>, states: seq<State>, steps: seq<Step>, n: nat)
    requires s.limit > 0 && ScansItsPath(s) && Run(s, files, states, steps) && n < |states| && states[n].phase.Finished?
    ensures states[n].answer == Sequential(s, files)
  {
    EveryRunKeepsInv(s, files, states, steps);
    var x := states[n];
    assert Answers(s, files, x);
    FinishedAnswer(s, files, x);
  }

  lemma FinishedAnswer(s: Search, files: seq<string>, x: State)
    requires s.limit > 0 && Answers(s, files, x) && x.phase.Finished?
    ensures x.answer == Sequential(s, files)
  {
    var done := Flatten(x.jobs[..x.collected]);
    var rest := FlattenPrefix(x.jobs, x.collected);
    hide Sequential, Flatten;
    if x.answer.stop.None? {
      assert x.jobs[..x.collected] == x.jobs;
      EmptyTail(files, x.next, done, x.paths);
    } else {
      FourParts(files, x.next, done, rest, x.paths);
      StoppedIsFinal(s, done, rest + x.paths + files[x.next..]);
    }
  }

  lemma EmptyTail(files: seq<string>, n: nat, done: seq<string>, paths: seq<string>)
    requires n == |files| && paths == [] && files[..n] == done + paths
    ensures files == done
  {
  }

  lemma FourParts(files: seq<string>, n: nat, done: seq<string>, rest: seq<string>, paths: seq<string>)
    requires n <= |files| && files[..n] == done + rest + paths
    ensures files == done + (rest + paths + files[n..])
  {
    assert files == files[..n] + files[n..];
    assert done + rest + paths + files[n..] == done + (rest + paths + files[n..]);
  }

  /** At most eight batches are in flight, so a submission always finds room in the job channel. */
  lemma SendNeverBlocks(s: Search, files: seq<string>, states: seq<State>, steps: seq<Step>, n: nat)
    requires s.limit > 0 && ScansItsPath(s) && Run(s, files, states, steps) && n < |states|
    ensures |states[n].jobs| - states[n].collected <= WORKERS
    ensures states[n].phase.Sending? ==> Can(s, files, states[n], Send)
  {
    EveryRunKeepsInv(s, files, states, steps);
    assert Counts(states[n]);
  }

  /** Until the search is finished, some goroutine can go on. */
  lemma SomeoneCanGoOn(s: Search, files: seq<string>, states: seq<State>, steps: seq<Step>, n: nat) returns (step: Step)
    requires s.limit > 0 && ScansItsPath(s) && Run(s, files, states, steps) && n < |states|
    requires !states[n].phase.Finished?
    ensures Can(s, files, states[n], step)
  {
    EveryRunKeepsInv(s, files, states, steps);
    var x := states[n];
    assert Counts(x) && Held(x) && Answers(s, files, x);
    if x.phase.Feeding? {
      step := if x.next < |files| then Feed else EndFeed;
    } else if x.phase.Sending? {
      step := Send;
    } else if x.collected == |x.jobs| {
      step := Finish;
    } else if x.collected in x.replied {
      step := Collect;
    } else if x.collected < x.taken {
      var w :| 0 <= w < |x.workers| && x.workers[w] == Some(x.collected);
      step := Reply(w);
    } else {
      step := Take(0);
    }
  }

  /** Workers that hold a job. */
  function Busy(workers: seq<Option<nat>>): nat {
    if workers == [] then 0
    else Busy(workers[..|workers| - 1]) + (if workers[|workers| - 1].Some? then 1 else 0)
  }

  lemma {:induction false} BusyAfter(workers: seq<Option<nat>>, w: nat, job: Option<nat>)
    requires w < |workers|
    ensures Busy(workers[w := job]) + (if workers[w].Some? then 1 else 0) == Busy(workers) + (if job.Some? then 1 else 0)
  {
    var n := |workers| - 1;
    if w < n {
      assert workers[w := job][..n] == workers[..n][w := job];
      BusyAfter(workers[..n], w, job);
    } else {
      assert workers[w := job][..n] == workers[..n];
    }
  }

  function Rank(phase: Phase): nat {
    match phase
    case Feeding => 2
    case Sending => 1
    case Collecting => 2
    case Draining => 1
    case Finished => 0
  }

  /** What is left to do: paths to feed, jobs to send, take, scan and collect. */
  function Work(files: seq<string>, x: State): int {
    10 * (|files| - x.next) + 9 * |x.paths| + 3 * (|x.jobs| - x.taken) + 2 * Busy(x.workers) + |x.replied| + Rank(x.phase)
  }

  /** Every step leaves less to do, so every schedule ends. */
  lemma EveryStepProgresses(s: Search, files: seq<string>, x: State, step: Step)
    requires s.limit > 0 && ScansItsPath(s) && Inv(s, files, x) && Can(s, files, x, step)
    ensures 0 <= Work(files, After(s, files, x, step)) < Work(files, x)
  {
    StepKeepsInv(s, files, x, step);
    hide Sequential, Flatten, JoinedAll, Batch, ScansItsPath;
    if step.Take? { BusyAfter(x.workers, step.w, Some(x.taken)); }
    if step.Reply? { BusyAfter(x.workers, step.w, None); }
  }
}

/** The queue that RouteLifecycle gives every backend is what MutationQueue shows from outside. */
module QueueRefinement {
  import opened Wrappers
  import MutationQueue
  import RouteLifecycle

  function Shown(s: MutationQueue.State): RouteLifecycle.Queue {
    RouteLifecycle.Queue(
      s.closed, |s.buffer| + (if s.worker.Checking? then 1 else 0), s.worker.Running?, s.worker.Exited?)
  }

  function MoveOf(e: MutationQueue.Event): Option<RouteLifecycle.Move> {
    match e
    case Send(_) => Some(RouteLifecycle.JobSubmitted)
    case Start => Some(RouteLifecycle.JobStarts)
    case Skip => Some(RouteLifecycle.JobSkipped)
    case Finish => Some(RouteLifecycle.JobEnds)
    case Exit => Some(RouteLifecycle.WorkerExits)
    case StopCloses => Some(RouteLifecycle.QueueStops)
    case _ => None
  }

  /** In every reachable state each step of the queue shows as one move of a backend's queue, or as none. */
  lemma EveryStepIsAMove(events: seq<MutationQueue.Event>, e: MutationQueue.Event, b: RouteLifecycle.Backend)
    requires MutationQueue.Run(events).Some? && MutationQueue.Enabled(MutationQueue.Run(events).value, e)
    requires b.queue == Shown(MutationQueue.Run(events).value)
    ensures var t := MutationQueue.Apply(MutationQueue.Run(events).value, e);
      match MoveOf(e)
      case None => Shown(t) == b.queue
      case Some(m) => RouteLifecycle.CanMove(b, m) && RouteLifecycle.Moved(b, m) == b.(queue := Shown(t))
  {
    hide MutationQueue.Run, MutationQueue.JobsOf, MutationQueue.RanOf;
    MutationQueue.EveryRunIsInv(events);
  }
}

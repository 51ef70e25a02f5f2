/** Fanning invalidations out to subscribers that come and go: `internal/server/sse.go`. Every subscriber
    has a queue of its own; the hub's lock is held while one event is handed to all of them. */
module EventsHub {
  import opened Wrappers
  import I = Invalidations

  type Kind = I.Kind

  /** The event being handed out: the subscribers still to serve, and the one being served. */
  datatype Dispatch = NoEvent | Handing(kind: Kind, todo: set<nat>, current: Option<nat>)

  /** `channels` are all queues ever made; `owed` what each receiver has yet to hear of. */
  datatype Hub = Hub(channels: seq<I.Queue>, subs: set<nat>, closed: bool, dispatch: Dispatch, owed: seq<set<Kind>>)

  datatype Step =
    | Subscribe | Unsubscribe(i: nat) | Event(k: Kind) | Serve(i: nat) | Enqueue(part: I.Step) | Served | EndEvent
    | Hear(i: nat) | SourceCloses

  const NEW_HUB := Hub([], {}, false, NoEvent, [])

  predicate Can(h: Hub, step: Step) {
    match step
    case Subscribe => h.dispatch.NoEvent?
    case Unsubscribe(_) => h.dispatch.NoEvent?
    case Event(_) => h.dispatch.NoEvent? && !h.closed
    case Serve(i) => h.dispatch.Handing? && h.dispatch.current.None? && i in h.dispatch.todo && i < |h.channels|
                     && I.Can(h.channels[i], I.Emit(h.dispatch.kind))
    case Enqueue(part) => h.dispatch.Handing? && h.dispatch.current.Some? && h.dispatch.current.value < |h.channels|
                          && (part.Drain? || part.StartRefill? || part.Refill?)
                          && I.Can(h.channels[h.dispatch.current.value], part)
    case Served => h.dispatch.Handing? && h.dispatch.current.Some? && h.dispatch.current.value < |h.channels|
                   && h.channels[h.dispatch.current.value].producer.Idle?
    case EndEvent => h.dispatch.Handing? && h.dispatch.current.None? && h.dispatch.todo == {}
    case Hear(i) => i < |h.channels| && i < |h.owed| && I.Can(h.channels[i], I.Receive)
    case SourceCloses => h.dispatch.NoEvent? && !h.closed
  }

  function Owing(owed: seq<set<Kind>>, subs: set<nat>, k: Kind): (r: seq<set<Kind>>)
    ensures |r| == |owed|
    ensures forall i :: 0 <= i < |r| ==> r[i] == if i in subs then owed[i] + {k} else owed[i]
  {
    seq(|owed|, i requires 0 <= i < |owed| => if i in subs then owed[i] + {k} else owed[i])
  }

  /** Every subscriber's channel is closed. */
  function AllClosed(channels: seq<I.Queue>, subs: set<nat>): (r: seq<I.Queue>)
    ensures |r| == |channels|
    ensures forall i :: 0 <= i < |r| ==> r[i] == if i in subs then channels[i].(open := false) else channels[i]
  {
    seq(|channels|, i requires 0 <= i < |channels| => if i in subs then channels[i].(open := false) else channels[i])
  }

  function After(h: Hub, step: Step): Hub
    requires Can(h, step)
  {
    match step
    case Subscribe =>
      var made := I.NewQueue(I.SUBSCRIBER_CAPACITY);
      if h.closed then h.(channels := h.channels + [made.(open := false)], owed := h.owed + [{}])
      else h.(channels := h.channels + [made], owed := h.owed + [{}], subs := h.subs + {|h.channels|})
    case Unsubscribe(i) => h.(subs := h.subs - {i})
    case Event(k) => h.(dispatch := Handing(k, h.subs, None), owed := Owing(h.owed, h.subs, k))
    case Serve(i) =>
      h.(channels := h.channels[i := I.After(h.channels[i], I.Emit(h.dispatch.kind))],
         dispatch := h.dispatch.(todo := h.dispatch.todo - {i}, current := Some(i)))
    case Enqueue(part) =>
      var i := h.dispatch.current.value;
      h.(channels := h.channels[i := I.After(h.channels[i], part)])
    case Served => h.(dispatch := h.dispatch.(current := None))
    case EndEvent => h.(dispatch := NoEvent)
    case Hear(i) =>
      var heard := h.channels[i].buffer[0];
      h.(channels := h.channels[i := I.After(h.channels[i], I.Receive)],
         owed := h.owed[i := set k | k in h.owed[i] && !I.Subsumes(heard, k)])
    case SourceCloses => h.(closed := true, channels := AllClosed(h.channels, h.subs), subs := {})
  }

  // ------------------------------------------------------ what every run keeps

  /** The channel's queue is in order; only the one being served has its producer at work. */
  ghost predicate ChannelOk(h: Hub, i: nat)
    requires i < |h.channels|
  {
    var q := h.channels[i];
    && I.Inv(q) && q.capacity == I.SUBSCRIBER_CAPACITY
    && (i in h.subs ==> q.open)
    && (!q.producer.Idle? ==> h.dispatch.Handing? && h.dispatch.current == Some(i))
  }

  /** What a receiver is owed is on its way to it. */
  ghost predicate OwedOk(h: Hub, i: nat)
    requires i < |h.channels| == |h.owed|
  {
    forall k :: k in h.owed[i] ==>
      k in h.channels[i].owed || (h.dispatch.Handing? && i in h.dispatch.todo && k == h.dispatch.kind)
  }

  ghost predicate Inv(h: Hub) {
    && |h.channels| == |h.owed|
    && (forall i :: 0 <= i < |h.channels| ==> ChannelOk(h, i) && OwedOk(h, i))
    && (forall i :: i in h.subs ==> i < |h.channels|)
    && (h.closed ==> h.subs == {} && h.dispatch.NoEvent?)
    && (h.dispatch.Handing? ==> h.dispatch.todo <= h.subs && (h.dispatch.current.Some? ==> h.dispatch.current.value in h.subs))
  }

  lemma QueueStepKeeps(q: I.Queue, step: I.Step)
    requires I.Inv(q) && I.Can(q, step)
    ensures I.Inv(I.After(q, step)) && I.After(q, step).capacity == q.capacity
    ensures !step.Close? ==> I.After(q, step).open == q.open
    ensures !step.Receive? ==> q.owed <= I.After(q, step).owed
    ensures step.Emit? && q.open ==> step.k in I.After(q, step).owed
    ensures step.Receive? ==> I.After(q, step).owed == (set k | k in q.owed && !I.Subsumes(q.buffer[0], k))
                              && I.After(q, step).producer == q.producer
  {
    I.StepKeepsInv(q, step);
  }

  lemma ChannelStepKeeps(h: Hub, step: Step)
    requires Inv(h) && Can(h, step) && (step.Serve? || step.Enqueue? || step.Hear?)
    ensures Inv(After(h, step))
  {
    var h' := After(h, step);
    var i := if step.Enqueue? then h.dispatch.current.value else step.i;
    var part := if step.Serve? then I.Emit(h.dispatch.kind) else if step.Hear? then I.Receive else step.part;
    assert ChannelOk(h, i) && OwedOk(h, i);
    QueueStepKeeps(h.channels[i], part);
    hide I.Inv, I.After, I.Can;
    forall j | 0 <= j < |h'.channels| ensures ChannelOk(h', j) && OwedOk(h', j) {
      assert ChannelOk(h, j) && OwedOk(h, j);
    }
  }

  lemma LockedStepKeeps(h: Hub, step: Step)
    requires Inv(h) && Can(h, step) && !step.Serve? && !step.Enqueue? && !step.Hear?
    ensures Inv(After(h, step))
  {
    var h' := After(h, step);
    forall j | 0 <= j < |h'.channels| ensures ChannelOk(h', j) && OwedOk(h', j) {
      if j < |h.channels| { assert ChannelOk(h, j) && OwedOk(h, j); }
    }
  }

  lemma StepKeepsInv(h: Hub, step: Step)
    requires Inv(h) && Can(h, step)
    ensures Inv(After(h, step))
  {
    hide Inv, After, Can;
    if step.Serve? || step.Enqueue? || step.Hear? { ChannelStepKeeps(h, step); } else { LockedStepKeeps(h, step); }
  }

  // ------------------------------------------------------ the locked sections, in place

  class Events {
    var channels: seq<I.Queue>
    var subs: set<nat>
    var closed: bool
    var dispatch: Dispatch
    var owed: seq<set<Kind>>

    ghost function View(): Hub
      reads this
    {
      Hub(channels, subs, closed, dispatch, owed)
    }

    ghost predicate Valid()
      reads this
    {
      Inv(View())
    }

    constructor ()
      ensures Valid() && View() == NEW_HUB
    {
      channels, subs, closed, dispatch, owed := [], {}, false, NoEvent, [];
    }

    /** A subscriber gets an empty channel that nobody had before and owes it nothing; from then on every event
        is owed to it, unless the source has closed, when its channel is closed too. Nobody else is affected. */
    method DoSubscribe() returns (i: nat)
      requires Valid() && dispatch.NoEvent?
      modifies this
      ensures Valid() && dispatch.NoEvent? && i !in old(subs) && subs == if closed then old(subs) else old(subs) + {i}
      ensures i < |channels| && channels[i].buffer == [] && owed[i] == {} && (channels[i].open <==> !closed)
      ensures !closed ==> forall k :: After(View(), Event(k)).owed[i] == {k} && i in After(View(), Event(k)).dispatch.todo
      ensures old(channels) <= channels && old(owed) <= owed
      ensures View() == After(old(View()), Subscribe) && i == |old(channels)|
    {
      StepKeepsInv(View(), Subscribe);
      i := |channels|;
      owed := owed + [{}];
      if closed {
        channels := channels + [I.NewQueue(I.SUBSCRIBER_CAPACITY).(open := false)];
        return;
      }
      channels := channels + [I.NewQueue(I.SUBSCRIBER_CAPACITY)];
      subs := subs + {i};
    }

    /** No event is owed to the subscriber any more and none is handed to it; its channel stays as it is, also
        when the source closes. */
    method DoUnsubscribe(i: nat)
      requires Valid() && dispatch.NoEvent?
      modifies this
      ensures Valid() && dispatch.NoEvent? && i !in subs && (forall j :: j in old(subs) && j != i ==> j in subs)
      ensures !closed && i < |channels| ==> forall k ::
        After(View(), Event(k)).owed[i] == owed[i] && i !in After(View(), Event(k)).dispatch.todo
      ensures !closed && i < |channels| ==> After(View(), SourceCloses).channels[i] == channels[i]
      ensures View() == After(old(View()), Unsubscribe(i))
    {
      StepKeepsInv(View(), Unsubscribe(i));
      subs := subs - {i};
    }

    /** The dispatch loop ends: every registered channel is closed and forgotten. */
    method DoClose()
      requires Valid() && dispatch.NoEvent? && !closed
      modifies this
      ensures Valid() && |channels| == |old(channels)|
      ensures forall i :: 0 <= i < |channels| ==> channels[i].open == (old(channels)[i].open && i !in old(subs))
      ensures View() == After(old(View()), SourceCloses)
    {
      StepKeepsInv(View(), SourceCloses);
      closed := true;
      channels := CloseAll(channels, subs);
      subs := {};
    }
  }

  /** The loop that closes channels, in whatever order the map yields them. */
  method CloseAll(channels: seq<I.Queue>, subs: set<nat>) returns (closed: seq<I.Queue>)
    requires forall i :: i in subs ==> i < |channels|
    ensures closed == AllClosed(channels, subs)
  {
    hide AllClosed;
    closed := channels;
    var left := subs;
    NoneClosed(channels);
    while left != {}
      invariant left <= subs && |closed| == |channels| && closed == AllClosed(channels, subs - left)
      decreases |left|
    {
      var i :| i in left;
      CloseOne(channels, subs - left, i);
      assert subs - (left - {i}) == subs - left + {i};
      closed := closed[i := closed[i].(open := false)];
      left := left - {i};
    }
    assert subs - left == subs;
  }

  lemma NoneClosed(channels: seq<I.Queue>)
    ensures AllClosed(channels, {}) == channels
  {
  }

  lemma CloseOne(channels: seq<I.Queue>, gone: set<nat>, i: nat)
    requires i < |channels|
    ensures var closed := AllClosed(channels, gone);
      |closed| == |channels| && closed[i := closed[i].(open := false)] == AllClosed(channels, gone + {i})
  {
  }

  // ------------------------------------------------------ what every run means

  ghost predicate Run(states: seq<Hub>, steps: seq<Step>) {
    && |states| == |steps| + 1 && states[0] == NEW_HUB
    && forall n :: 0 <= n < |steps| ==> Can(states[n], steps[n]) && states[n + 1] == After(states[n], steps[n])
  }

  lemma {:induction false} EveryRunKeepsInv(states: seq<Hub>, steps: seq<Step>)
    requires Run(states, steps)
    ensures forall n :: 0 <= n < |states| ==> Inv(states[n])
  {
    hide Can, After;
    var m := |steps|;
    if m > 0 {
      EveryRunKeepsInv(states[..m], steps[..m - 1]);
      assert Inv(states[..m][m - 1]);
      StepKeepsInv(states[m - 1], steps[m - 1]);
    }
  }

  /** Outside a hand-out, whatever a subscriber has not heard yet is in its channel, in a form that subsumes it. */
  lemma SubscribersMissNothing(states: seq<Hub>, steps: seq<Step>, n: nat, i: nat, k: Kind)
    requires Run(states, steps) && n < |states| && i < |states[n].owed| && k in states[n].owed[i]
    ensures i < |states[n].channels|
    ensures states[n].dispatch.NoEvent? ==> I.Covered(k, states[n].channels[i].buffer)
  {
    EveryRunKeepsInv(states, steps);
    assert Inv(states[n]);
    assert ChannelOk(states[n], i) && OwedOk(states[n], i);
  }

  /** No send on a closed channel, and no channel is closed twice: whoever is served or closed is open. */
  lemma OnlyOpenChannelsAreUsed(states: seq<Hub>, steps: seq<Step>, n: nat, i: nat)
    requires Run(states, steps) && n < |steps|
    ensures steps[n].Serve? && i == steps[n].i ==> i < |states[n].channels| && states[n].channels[i].open
    ensures steps[n].Enqueue? && states[n].dispatch.Handing? && states[n].dispatch.current == Some(i) ==>
      i < |states[n].channels| && states[n].channels[i].open
    ensures steps[n].SourceCloses? && i in states[n].subs ==>
      i < |states[n].channels| && states[n].channels[i].open && !states[n + 1].channels[i].open
  {
    EveryRunKeepsInv(states, steps);
    assert Inv(states[n]);
    assert Can(states[n], steps[n]) && states[n + 1] == After(states[n], steps[n]);
    if i < |states[n].channels| { assert ChannelOk(states[n], i); }
  }

  /** The source never waits for a slow receiver: while an event is handed out the next step is there. */
  lemma DispatchNeverBlocks(states: seq<Hub>, steps: seq<Step>, n: nat) returns (step: Step)
    requires Run(states, steps) && n < |states| && states[n].dispatch.Handing?
    ensures (step.Serve? || step.Enqueue? || step.Served? || step.EndEvent?) && Can(states[n], step)
  {
    EveryRunKeepsInv(states, steps);
    var h := states[n];
    assert Inv(h);
    if h.dispatch.current.Some? {
      var i := h.dispatch.current.value;
      assert ChannelOk(h, i);
      var q := h.channels[i];
      match q.producer {
        case Idle => step := Served;
        case Emptying(_) => step := Enqueue(if q.buffer == [] then I.StartRefill else I.Drain);
        case Refilling(_) => step := Enqueue(I.Refill);
      }
    } else if h.dispatch.todo == {} {
      step := EndEvent;
    } else {
      var i :| i in h.dispatch.todo;
      assert ChannelOk(h, i);
      step := Serve(i);
    }
  }

  /** Steps that serve channel i or close it. */
  predicate Touches(h: Hub, step: Step, i: nat) {
    match step
    case Serve(j) => j == i
    case Enqueue(_) => h.dispatch.Handing? && h.dispatch.current == Some(i)
    case SourceCloses => i in h.subs
    case _ => false
  }

  lemma DetachedIsLeftAlone(h: Hub, step: Step, i: nat)
    requires Inv(h) && Can(h, step) && i < |h.channels| && i !in h.subs
    ensures !Touches(h, step, i)
    ensures var h' := After(h, step); i < |h'.channels| && i !in h'.subs && h'.owed[i] <= h.owed[i]
  {
    assert ChannelOk(h, i);
  }

  /** A subscriber that has detached stays detached: in whatever follows nothing is sent to its channel, the
      source does not close it, and no event becomes due to it. */
  lemma {:induction false} DetachedStaysDetached(states: seq<Hub>, steps: seq<Step>, m: nat, n: nat, i: nat)
    requires Run(states, steps) && m <= n < |states| && i < |states[m].channels| && i !in states[m].subs
    ensures i < |states[n].channels| && i !in states[n].subs && i < |states[m].owed| && i < |states[n].owed|
    ensures states[n].owed[i] <= states[m].owed[i]
    ensures n < |steps| ==> !Touches(states[n], steps[n], i)
    decreases n - m
  {
    hide Inv, Can, After, Touches;
    EveryRunKeepsInv(states, steps);
    assert Inv(states[n]) && Inv(states[m]);
    AsManyOwed(states[m]);
    AsManyOwed(states[n]);
    if m < n {
      DetachedStaysDetached(states, steps, m, n - 1, i);
      assert Can(states[n - 1], steps[n - 1]) && states[n] == After(states[n - 1], steps[n - 1]);
      DetachedIsLeftAlone(states[n - 1], steps[n - 1], i);
    }
    if n < |steps| {
      assert Can(states[n], steps[n]);
      DetachedIsLeftAlone(states[n], steps[n], i);
    }
  }

  lemma AsManyOwed(h: Hub)
    requires Inv(h)
    ensures |h.owed| == |h.channels|
  {
  }
}

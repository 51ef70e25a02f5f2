/** Bounded queues of invalidations that are compacted instead of blocking:
    `internal/watch/repository.go`, `internal/server/sse.go`. */
module Invalidations {

  datatype Kind = Files | Snapshot | Graph

  const WATCH_CAPACITY := 32
  const SUBSCRIBER_CAPACITY := 16

  /** Hearing x makes hearing k unnecessary. */
  predicate Subsumes(x: Kind, k: Kind) {
    x == k || (x.Files? && k.Snapshot?)
  }

  /** What is queued again after a full queue was emptied, in this order. */
  function Compact(pending: set<Kind>): (queue: seq<Kind>)
    ensures |queue| <= 2
    ensures forall k :: k in queue ==> k in pending
  {
    (if Files in pending then [Files] else if Snapshot in pending then [Snapshot] else [])
    + (if Graph in pending then [Graph] else [])
  }

  ghost predicate Covered(k: Kind, queued: seq<Kind>) {
    exists x :: x in queued && Subsumes(x, k)
  }

  lemma CompactCovers(pending: set<Kind>, k: Kind)
    requires k in pending
    ensures Covered(k, Compact(pending))
  {
    var queue := Compact(pending);
    match k {
      case Files => assert Files in queue && Subsumes(Files, k);
      case Graph => assert Graph in queue && Subsumes(Graph, k);
      case Snapshot =>
        if Files in pending { assert Files in queue && Subsumes(Files, k); }
        else { assert Snapshot in queue && Subsumes(Snapshot, k); }
    }
  }

  // ------------------------------------------------------ one emission that nobody interrupts

  /** The channel of a watcher, under its lock. */
  class Watcher {
    var events: seq<Kind>
    var closed: bool

    constructor ()
      ensures events == [] && !closed
    {
      events, closed := [], false;
    }

    /** A full queue is replaced by the distinct kinds it held, files standing in for snapshot. */
    method Emit(k: Kind)
      requires |events| <= WATCH_CAPACITY
      modifies this`events
      ensures |events| <= WATCH_CAPACITY
      ensures closed ==> events == old(events)
      ensures !closed && |old(events)| < WATCH_CAPACITY ==> events == old(events) + [k]
      ensures !closed && |old(events)| == WATCH_CAPACITY ==> events == Compact({k} + set x | x in old(events))
    {
      if closed { return; }
      if |events| < WATCH_CAPACITY {
        events := events + [k];
        return;
      }
      var pending := Empty();
      pending := pending + {k};
      if Files in pending { pending := pending - {Snapshot}; }
      for i := 0 to 3
        invariant events == (if i >= 1 && Files in pending then [Files] else [])
          + (if i >= 2 && Snapshot in pending then [Snapshot] else [])
          + (if i >= 3 && Graph in pending then [Graph] else [])
      {
        var kind := [Files, Snapshot, Graph][i];
        if kind in pending { events := events + [kind]; }
      }
    }

    /** Receives until the channel is empty. */
    method Empty() returns (pending: set<Kind>)
      modifies this`events
      ensures events == [] && forall k :: k in pending <==> k in old(events)
    {
      pending := {};
      ghost var n := 0;
      while events != []
        invariant n <= |old(events)| && events == old(events)[n..]
        invariant forall k :: k in pending <==> k in old(events)[..n]
        decreases |events|
      {
        assert old(events)[..n + 1] == old(events)[..n] + [old(events)[n]];
        pending := pending + {events[0]};
        events := events[1..];
        n := n + 1;
      }
      assert old(events)[..|old(events)|] == old(events);
    }

    method Close()
      modifies this`closed
      ensures closed
    {
      closed := true;
    }
  }

  // ------------------------------------------------------ every interleaving with the receiver

  /** Where the producer stands inside an emission, which holds the lock throughout. */
  datatype Producer = Idle | Emptying(pending: set<Kind>) | Refilling(toSend: seq<Kind>)

  /** `owed` are the kinds emitted of which the receiver has heard nothing since that subsumes them. */
  datatype Queue = Queue(capacity: nat, buffer: seq<Kind>, producer: Producer, open: bool, owed: set<Kind>)

  datatype Step = Emit(k: Kind) | Drain | StartRefill | Refill | Receive | Close

  function NewQueue(capacity: nat): Queue {
    Queue(capacity, [], Idle, true, {})
  }

  predicate Can(q: Queue, step: Step) {
    match step
    case Emit(_) => q.producer.Idle?
    case Drain => q.producer.Emptying? && q.buffer != []
    case StartRefill => q.producer.Emptying? && q.buffer == []
    // a send that would block while the buffer is full
    case Refill => q.producer.Refilling? && q.producer.toSend != [] && |q.buffer| < q.capacity
    case Receive => q.buffer != []
    case Close => q.producer.Idle? && q.open
  }

  function After(q: Queue, step: Step): Queue
    requires Can(q, step)
  {
    match step
    case Emit(k) =>
      if !q.open then q
      else if |q.buffer| < q.capacity then q.(buffer := q.buffer + [k], owed := q.owed + {k})
      else q.(producer := Emptying({k}), owed := q.owed + {k})
    case Drain => q.(buffer := q.buffer[1..], producer := Emptying(q.producer.pending + {q.buffer[0]}))
    case StartRefill =>
      var toSend := Compact(q.producer.pending);
      q.(producer := if toSend == [] then Idle else Refilling(toSend))
    case Refill =>
      q.(buffer := q.buffer + [q.producer.toSend[0]],
         producer := if |q.producer.toSend| == 1 then Idle else Refilling(q.producer.toSend[1..]))
    case Receive => q.(buffer := q.buffer[1..], owed := set k | k in q.owed && !Subsumes(q.buffer[0], k))
    case Close => q.(open := false)
  }

  /** Everything that will still reach the receiver. */
  function InFlight(q: Queue): seq<Kind> {
    match q.producer
    case Idle => q.buffer
    case Emptying(pending) => q.buffer + Compact(pending)
    case Refilling(toSend) => q.buffer + toSend
  }

  ghost predicate Inv(q: Queue) {
    && q.capacity >= 2 && |q.buffer| <= q.capacity
    && (q.producer.Refilling? ==> q.producer.toSend != [] && |q.buffer| + |q.producer.toSend| <= 2)
    && (q.producer.Emptying? ==> q.producer.pending != {})
    && (!q.producer.Idle? ==> q.open)
    && (forall k :: k in q.owed ==> Covered(k, InFlight(q)))
  }

  /** Taking a kind out of the buffer and counting it as pending loses nothing. */
  lemma DrainKeepsCovered(head: Kind, rest: seq<Kind>, pending: set<Kind>, k: Kind)
    requires Covered(k, [head] + rest + Compact(pending))
    ensures Covered(k, rest + Compact(pending + {head}))
  {
    var x :| x in [head] + rest + Compact(pending) && Subsumes(x, k);
    if x in rest {
      assert x in rest + Compact(pending + {head});
    } else {
      CompactCovers(pending + {head}, x);
      hide Compact;
      var y :| y in Compact(pending + {head}) && Subsumes(y, x);
      SubsumesIsTransitive(y, x, k);
      assert y in rest + Compact(pending + {head});
    }
  }

  lemma SubsumesIsTransitive(x: Kind, y: Kind, z: Kind)
    requires Subsumes(x, y) && Subsumes(y, z)
    ensures Subsumes(x, z)
  {
  }

  lemma MoreCovers(k: Kind, a: seq<Kind>, b: seq<Kind>)
    requires Covered(k, a) && forall x :: x in a ==> x in b
    ensures Covered(k, b)
  {
  }

  lemma EmitKeeps(q: Queue, k: Kind)
    requires Inv(q) && Can(q, Emit(k))
    ensures Inv(After(q, Emit(k)))
  {
    var q' := After(q, Emit(k));
    if q.open {
      forall o | o in q'.owed ensures Covered(o, InFlight(q')) {
        if o == k {
          CompactCovers({k}, k);
          assert |q.buffer| < q.capacity ==> k in InFlight(q') && Subsumes(k, k);
        } else {
          MoreCovers(o, InFlight(q), InFlight(q'));
        }
      }
    }
  }

  lemma DrainKeeps(q: Queue)
    requires Inv(q) && Can(q, Drain)
    ensures Inv(After(q, Drain))
  {
    var (head, rest, pending) := (q.buffer[0], q.buffer[1..], q.producer.pending);
    assert q.buffer == [head] + rest;
    forall o | o in q.owed ensures Covered(o, InFlight(After(q, Drain))) { DrainKeepsCovered(head, rest, pending, o); }
  }

  lemma ReceiveKeeps(q: Queue)
    requires Inv(q) && Can(q, Receive)
    ensures Inv(After(q, Receive))
  {
    var q' := After(q, Receive);
    forall o | o in q'.owed ensures Covered(o, InFlight(q')) {
      var x :| x in InFlight(q) && Subsumes(x, o);
      assert q.buffer == [q.buffer[0]] + q'.buffer;
      assert x != q.buffer[0] && x in InFlight(q');
    }
  }

  lemma OthersKeep(q: Queue, step: Step)
    requires Inv(q) && Can(q, step) && (step.StartRefill? || step.Refill? || step.Close?)
    ensures Inv(After(q, step))
  {
    var q' := After(q, step);
    if step.StartRefill? {
      var k :| k in q.producer.pending;
      CompactCovers(q.producer.pending, k);
    }
    forall o | o in q'.owed ensures Covered(o, InFlight(q')) { MoreCovers(o, InFlight(q), InFlight(q')); }
  }

  lemma StepKeepsInv(q: Queue, step: Step)
    requires Inv(q) && Can(q, step)
    ensures Inv(After(q, step))
  {
    hide Inv, Can, After;
    match step {
      case Emit(k) => EmitKeeps(q, k);
      case Drain => DrainKeeps(q);
      case Receive => ReceiveKeeps(q);
      case _ => OthersKeep(q, step);
    }
  }

  ghost predicate Run(capacity: nat, states: seq<Queue>, steps: seq<Step>) {
    && |states| == |steps| + 1 && states[0] == NewQueue(capacity)
    && forall n :: 0 <= n < |steps| ==> Can(states[n], steps[n]) && states[n + 1] == After(states[n], steps[n])
  }

  lemma {:induction false} EveryRunKeepsInv(capacity: nat, states: seq<Queue>, steps: seq<Step>)
    requires capacity >= 2 && Run(capacity, states, steps)
    ensures forall n :: 0 <= n < |states| ==> Inv(states[n])
  {
    hide Can, After;
    var m := |steps|;
    if m > 0 {
      EveryRunKeepsInv(capacity, states[..m], steps[..m - 1]);
      assert Inv(states[..m][m - 1]);
      StepKeepsInv(states[m - 1], steps[m - 1]);
    }
  }

  /** The kinds emitted after step `from` while the queue was open. */
  ghost predicate Emitted(states: seq<Queue>, steps: seq<Step>, n: nat, k: Kind) {
    n < |steps| && n < |states| && steps[n] == Emit(k) && states[n].open
  }

  /** The receiver heard something at step m that subsumes k. */
  ghost predicate Heard(states: seq<Queue>, steps: seq<Step>, m: nat, k: Kind) {
    m < |steps| && m < |states| && steps[m].Receive? && states[m].buffer != [] && Subsumes(states[m].buffer[0], k)
  }

  lemma {:induction false} OwedUntilHeard(capacity: nat, states: seq<Queue>, steps: seq<Step>, n: nat, now: nat, k: Kind)
    requires Run(capacity, states, steps) && Emitted(states, steps, n, k) && n < now < |states|
    requires forall m :: n < m < now ==> !Heard(states, steps, m, k)
    ensures k in states[now].owed
    decreases now
  {
    if now > n + 1 {
      OwedUntilHeard(capacity, states, steps, n, now - 1, k);
      assert !Heard(states, steps, now - 1, k);
    }
    assert Can(states[now - 1], steps[now - 1]) && states[now] == After(states[now - 1], steps[now - 1]);
  }

  /** No invalidation is lost: since it was emitted, either the receiver heard one that subsumes it, or such
      a one is still on its way. */
  lemma NothingIsLost(capacity: nat, states: seq<Queue>, steps: seq<Step>, n: nat, now: nat, k: Kind)
    requires capacity >= 2 && Run(capacity, states, steps) && Emitted(states, steps, n, k) && n < now < |states|
    ensures (exists m :: n < m < now && Heard(states, steps, m, k)) || Covered(k, InFlight(states[now]))
  {
    EveryRunKeepsInv(capacity, states, steps);
    if forall m :: n < m < now ==> !Heard(states, steps, m, k) {
      OwedUntilHeard(capacity, states, steps, n, now, k);
      assert Inv(states[now]);
    }
  }

  /** Kind by kind: graph and files get through themselves, a snapshot invalidation also as files. */
  lemma EachKindGetsThrough(capacity: nat, states: seq<Queue>, steps: seq<Step>, n: nat, now: nat, k: Kind)
    requires capacity >= 2 && Run(capacity, states, steps) && Emitted(states, steps, n, k) && n < now < |states|
    ensures var arrived := InFlight(states[now]);
      || k in arrived || (k.Snapshot? && Files in arrived)
      || exists m :: n < m < now && steps[m].Receive? && states[m].buffer != []
                     && (states[m].buffer[0] == k || (k.Snapshot? && states[m].buffer[0].Files?))
  {
    NothingIsLost(capacity, states, steps, n, now, k);
    if m :| n < m < now && Heard(states, steps, m, k) {
      assert steps[m].Receive? && states[m].buffer != [];
    }
  }

  /** An emission never waits for the receiver: its next step can always be taken, and once the buffer is
      drained at most two sends are left. */
  lemma ProducerNeverBlocks(capacity: nat, states: seq<Queue>, steps: seq<Step>, n: nat)
    requires capacity >= 2 && Run(capacity, states, steps) && n < |states|
    ensures states[n].producer.Emptying? ==> Can(states[n], Drain) || Can(states[n], StartRefill)
    ensures states[n].producer.Refilling? ==> Can(states[n], Refill) && |states[n].producer.toSend| <= 2
    ensures !states[n].producer.Idle? ==> states[n].open
  {
    EveryRunKeepsInv(capacity, states, steps);
    assert Inv(states[n]);
    CapacityStays(capacity, states, steps, n);
  }

  lemma {:induction false} CapacityStays(capacity: nat, states: seq<Queue>, steps: seq<Step>, n: nat)
    requires Run(capacity, states, steps) && n < |states|
    ensures states[n].capacity == capacity
  {
    if n > 0 {
      CapacityStays(capacity, states, steps, n - 1);
      assert states[n] == After(states[n - 1], steps[n - 1]);
    }
  }
}

/** The retry queue of apps/watcher/src/watcher.ts: one drainer, first in first
    out, with a capped doubling backoff. */
module SendQueue {
  import opened Outcomes

  const BACKOFF_BASE_MS: nat := 2_000
  const BACKOFF_MAX_MS: nat := 60_000

  function Min(a: nat, b: nat): nat {
    if a < b then a else b
  }

  /** Where a drain stands: its send is out, or it waits for its timer. */
  datatype Drain<C> = Sending(chunk: C) | Waiting(ms: nat)

  /** The queue, the drains under way, and what went in, what came back
      acknowledged, and how many sends failed since. */
  datatype World<C> = World(queue: seq<C>, sending: bool, backoffMs: nat, stopped: bool, drains: seq<Drain<C>>,
                            enqueued: seq<C>, acked: seq<C>, failures: nat)

  datatype Event<C> =
    | Enqueue(chunks: seq<C>)
    | Invoke
    | Ack(drain: nat)
    | Fail(drain: nat)
    | Timer(drain: nat)
    | Stop(rest: seq<C>)

  function Start<C>(): World<C> {
    World([], false, BACKOFF_BASE_MS, false, [], [], [], 0)
  }

  function Without<C>(drains: seq<Drain<C>>, i: nat): seq<Drain<C>>
    requires i < |drains|
  {
    drains[..i] + drains[i + 1..]
  }

  /** The top of the loop: the head goes out, or the drain ends. */
  function Loop<C>(w: World<C>, i: nat): World<C>
    requires i < |w.drains|
  {
    if w.queue != [] then w.(drains := w.drains[i := Sending(w.queue[0])])
    else w.(drains := Without(w.drains, i), sending := false)
  }

  function Invoked<C>(w: World<C>): World<C> {
    if w.sending then w
    else Loop(w.(sending := true, drains := w.drains + [Waiting(0)]), |w.drains|)
  }

  function Enqueued<C>(w: World<C>, chunks: seq<C>): World<C> {
    w.(queue := w.queue + chunks, enqueued := w.enqueued + chunks)
  }

  function Acked<C>(w: World<C>, i: nat): World<C>
    requires i < |w.drains| && w.drains[i].Sending?
  {
    Loop(w.(queue := if w.queue == [] then [] else w.queue[1..], backoffMs := BACKOFF_BASE_MS,
            acked := w.acked + [w.drains[i].chunk], failures := 0), i)
  }

  function Failed<C>(w: World<C>, i: nat): World<C>
    requires i < |w.drains| && w.drains[i].Sending?
  {
    if w.stopped then w.(drains := Without(w.drains, i), sending := false)
    else w.(drains := w.drains[i := Waiting(w.backoffMs)])
  }

  function Resumed<C>(w: World<C>, i: nat): World<C>
    requires i < |w.drains|
  {
    Loop(w.(backoffMs := Min(w.backoffMs * 2, BACKOFF_MAX_MS), failures := w.failures + 1), i)
  }

  /** One atomic stretch between awaits; an event that does not apply changes nothing. */
  function Step<C>(w: World<C>, e: Event<C>): World<C> {
    match e
    case Enqueue(chunks) => Enqueued(w, chunks)
    case Invoke => Invoked(w)
    case Ack(i) => if i < |w.drains| && w.drains[i].Sending? then Acked(w, i) else w
    case Fail(i) => if i < |w.drains| && w.drains[i].Sending? then Failed(w, i) else w
    case Timer(i) => if i < |w.drains| && w.drains[i].Waiting? then Resumed(w, i) else w
    case Stop(rest) => Invoked(Enqueued(w.(stopped := true), rest))
  }

  function Run<C>(w: World<C>, events: seq<Event<C>>): World<C>
    decreases |events|
  {
    if events == [] then w else Run(Step(w, events[0]), events[1..])
  }

  // ---- The watcher's methods -------------------------------------------------------------

  /** The sending part of the watcher, one atomic stretch between awaits a method;
      `world` follows along. */
  class RetryQueue<C(==)> {
    var sendQueue: seq<C>
    var sending: bool
    var backoffMs: nat
    var stopped: bool
    ghost var world: World<C>

    ghost predicate Valid()
      reads this
    {
      && world.queue == sendQueue && world.sending == sending
      && world.backoffMs == backoffMs && world.stopped == stopped
      && Queued(world)
    }

    constructor ()
      ensures Valid() && world == Start()
    {
      sendQueue := [];
      sending := false;
      backoffMs := BACKOFF_BASE_MS;
      stopped := false;
      world := Start();
    }

    method Enqueue(chunks: seq<C>)
      requires Valid()
      modifies this
      ensures Valid() && world == Enqueued(old(world), chunks)
      ensures sendQueue == old(sendQueue) + chunks
    {
      for i := 0 to |chunks|
        invariant sendQueue == old(sendQueue) + chunks[..i]
        invariant sending == old(sending) && backoffMs == old(backoffMs) && stopped == old(stopped)
        invariant world == old(world)
      {
        assert chunks[..i + 1] == chunks[..i] + [chunks[i]];
        sendQueue := sendQueue + [chunks[i]];
      }
      assert chunks[..|chunks|] == chunks;
      StepKeepsQueued(world, Event.Enqueue(chunks));
      world := Enqueued(world, chunks);
    }

    /** The top of the loop: the chunk that goes out next, or the end of the drain. */
    method NextToSend() returns (next: Option<C>)
      modifies this
      ensures sendQueue == old(sendQueue) && backoffMs == old(backoffMs) && stopped == old(stopped)
      ensures world == old(world)
      ensures sendQueue != [] ==> next == Some(sendQueue[0]) && sending == old(sending)
      ensures sendQueue == [] ==> next == None && !sending
    {
      if |sendQueue| > 0 {
        return Some(sendQueue[0]);
      }
      sending := false;
      return None;
    }

    /** `#drainQueue` up to its first await: the chunk it sends, if it sends one. */
    method BeginDrain() returns (next: Option<C>)
      requires Valid()
      modifies this
      ensures Valid() && world == Invoked(old(world))
      ensures next == if old(sending) || sendQueue == [] then None else Some(sendQueue[0])
      ensures sendQueue == old(sendQueue) && backoffMs == old(backoffMs) && stopped == old(stopped)
    {
      StepKeepsQueued(world, Invoke);
      if sending {
        return None;
      }
      sending := true;
      next := NextToSend();
      world := Invoked(world);
    }

    /** `stop`: what the chunker still held goes in last, and a drain starts unless
        one runs. */
    method Halt(rest: seq<C>) returns (next: Option<C>)
      requires Valid()
      modifies this
      ensures Valid() && world == Step(old(world), Event.Stop(rest))
      ensures stopped && sendQueue == old(sendQueue) + rest && backoffMs == old(backoffMs)
      ensures next == if old(sending) || sendQueue == [] then None else Some(sendQueue[0])
    {
      stopped := true;
      world := world.(stopped := true);
      Enqueue(rest);
      next := BeginDrain();
    }

    /** The await on a send came back. */
    method OnSent() returns (next: Option<C>)
      requires Valid() && world.drains != [] && world.drains[0].Sending?
      modifies this
      ensures Valid() && world == Acked(old(world), 0)
      ensures sendQueue == old(sendQueue)[1..] && backoffMs == 2_000
      ensures next == if sendQueue == [] then None else Some(sendQueue[0])
    {
      StepKeepsQueued(world, Ack(0));
      sendQueue := sendQueue[1..];
      backoffMs := BACKOFF_BASE_MS;
      next := NextToSend();
      world := Acked(world, 0);
    }

    /** The await on a send threw: how long to wait, unless the watcher stops. */
    method OnFailed() returns (wait: Option<nat>)
      requires Valid() && world.drains != [] && world.drains[0].Sending?
      modifies this
      ensures Valid() && world == Failed(old(world), 0)
      ensures wait == if stopped then None else Some(backoffMs)
      ensures sendQueue == old(sendQueue) && backoffMs == old(backoffMs) && sending == !stopped
    {
      StepKeepsQueued(world, Fail(0));
      world := Failed(world, 0);
      if stopped {
        sending := false;
        return None;
      }
      return Some(backoffMs);
    }

    /** The backoff timer fired. */
    method OnTimer() returns (next: Option<C>)
      requires Valid() && world.drains != [] && world.drains[0].Waiting?
      modifies this
      ensures Valid() && world == Resumed(old(world), 0)
      ensures sendQueue == old(sendQueue) && backoffMs == Min(2 * old(backoffMs), 60_000)
      ensures next == if sendQueue == [] then None else Some(sendQueue[0])
    {
      StepKeepsQueued(world, Timer(0));
      backoffMs := Min(backoffMs * 2, BACKOFF_MAX_MS);
      next := NextToSend();
      world := Resumed(world, 0);
    }
  }

  // ---- The invariant ---------------------------------------------------------------------

  /** One drainer at most; what it has out is the head of the queue; what was
      acknowledged and what waits are together what went in. */
  predicate Queued<C(==)>(w: World<C>) {
    && |w.drains| == (if w.sending then 1 else 0)
    && (w.sending ==> w.queue != [] && (w.drains[0].Sending? ==> w.drains[0].chunk == w.queue[0]))
    && w.acked + w.queue == w.enqueued
  }

  function Doubled(failures: nat): nat
    decreases failures
  {
    if failures == 0 then BACKOFF_BASE_MS else 2 * Doubled(failures - 1)
  }

  /** The backoff is the base doubled once a failure, up to the cap. */
  predicate BackedOff<C>(w: World<C>) {
    w.backoffMs == Min(Doubled(w.failures), BACKOFF_MAX_MS)
    && forall i :: 0 <= i < |w.drains| && w.drains[i].Waiting? ==> w.drains[i].ms == w.backoffMs
  }

  lemma {:induction false} DoubledIsLarge(n: nat)
    ensures Doubled(n) >= BACKOFF_BASE_MS
    decreases n
  {
    if n != 0 {
      DoubledIsLarge(n - 1);
    }
  }

  lemma HeadMoves<C>(acked: seq<C>, queue: seq<C>)
    requires queue != []
    ensures (acked + [queue[0]]) + queue[1..] == acked + queue
  {
  }

  lemma InvokeKeepsQueued<C>(w: World<C>)
    requires Queued(w)
    ensures Queued(Invoked(w))
  {
  }

  lemma EnqueueKeepsQueued<C>(w: World<C>, chunks: seq<C>)
    requires Queued(w)
    ensures Queued(Enqueued(w, chunks))
  {
    assert (w.acked + w.queue) + chunks == w.acked + (w.queue + chunks);
  }

  lemma StepKeepsQueued<C>(w: World<C>, e: Event<C>)
    requires Queued(w)
    ensures Queued(Step(w, e))
  {
    match e {
      case Enqueue(chunks) => EnqueueKeepsQueued(w, chunks);
      case Invoke => InvokeKeepsQueued(w);
      case Ack(i) =>
        if w.queue != [] {
          HeadMoves(w.acked, w.queue);
        }
      case Fail(_) =>
      case Timer(_) =>
      case Stop(rest) =>
        EnqueueKeepsQueued(w.(stopped := true), rest);
        InvokeKeepsQueued(Enqueued(w.(stopped := true), rest));
    }
  }

  lemma StepKeepsBackoff<C>(w: World<C>, e: Event<C>)
    requires Queued(w) && BackedOff(w)
    ensures BackedOff(Step(w, e))
  {
  }

  lemma {:induction false} RunKeeps<C>(w: World<C>, events: seq<Event<C>>)
    requires Queued(w) && BackedOff(w)
    ensures Queued(Run(w, events)) && BackedOff(Run(w, events))
    decreases |events|
  {
    hide Step, Queued, BackedOff;
    if events != [] {
      StepKeepsQueued(w, events[0]);
      StepKeepsBackoff(w, events[0]);
      RunKeeps(Step(w, events[0]), events[1..]);
    }
  }

  // ---- Main results ------------------------------------------------------------------------

  /** Under any interleaving of calls, acknowledgements, failures, timers and a
      stop, the acknowledged chunks are a prefix of the enqueued ones and the queue
      is exactly the remainder; one drain at most is under way. */
  lemma DeliveredInOrder<C>(events: seq<Event<C>>)
    ensures var w := Run(Start<C>(), events);
            w.acked <= w.enqueued && w.queue == w.enqueued[|w.acked|..] && |w.drains| <= 1
  {
    RunKeeps(Start(), events);
  }

  /** What went in is what the events put in. */
  function Given<C>(events: seq<Event<C>>): seq<C>
    decreases |events|
  {
    if events == [] then [] else GivenBy(events[0]) + Given(events[1..])
  }

  function GivenBy<C>(e: Event<C>): seq<C> {
    match e
    case Enqueue(chunks) => chunks
    case Stop(rest) => rest
    case _ => []
  }

  lemma {:induction false} EnqueuedIsGiven<C>(w: World<C>, events: seq<Event<C>>)
    ensures Run(w, events).enqueued == w.enqueued + Given(events)
    decreases |events|
  {
    if events != [] {
      EnqueuedIsGiven(Step(w, events[0]), events[1..]);
      assert Step(w, events[0]).enqueued == w.enqueued + GivenBy(events[0]);
      assert (w.enqueued + GivenBy(events[0])) + Given(events[1..]) == w.enqueued + Given(events);
    }
  }

  /** The backoff is 2 s doubled once for each failure since the last
      acknowledgement and never leaves 2 s to 60 s; a waiting drain waits just that. */
  lemma BackoffStaysInRange<C>(events: seq<Event<C>>)
    ensures var w := Run(Start<C>(), events);
            BackedOff(w) && BACKOFF_BASE_MS <= w.backoffMs <= BACKOFF_MAX_MS
  {
    RunKeeps(Start<C>(), events);
    DoubledIsLarge(Run(Start<C>(), events).failures);
  }

  function PowerOfTwo(n: nat): (p: nat)
    ensures 0 < p
    decreases n
  {
    if n == 0 then 1 else 2 * PowerOfTwo(n - 1)
  }

  /** Sends that fail, each with the wait behind it. */
  function Rounds<C>(n: nat): seq<Event<C>>
    decreases n
  {
    if n == 0 then [] else [Fail(0), Timer(0)] + Rounds(n - 1)
  }

  /** While the server fails, the head goes out again and again and nothing is lost;
      each wait is twice the last, up to a minute. */
  lemma {:induction false} FailuresDoubleTheWait<C>(w: World<C>, n: nat)
    requires Queued(w) && w.sending && w.drains[0].Sending? && !w.stopped && w.backoffMs <= 60_000
    ensures var w' := Run(w, Rounds(n));
            && w'.queue == w.queue && w'.acked == w.acked && w'.drains == [Sending(w.queue[0])]
            && w'.backoffMs == Min(w.backoffMs * PowerOfTwo(n), 60_000)
            && Step(w', Fail(0)).drains == [Waiting(w'.backoffMs)]
    decreases n
  {
    if n != 0 {
      var w1 := Step(w, Fail(0));
      var w2 := Step(w1, Timer(0));
      var rest := Rounds<C>(n - 1);
      assert ([Fail(0), Timer(0)] + rest)[1..] == [Timer(0)] + rest && ([Timer(0)] + rest)[1..] == rest;
      assert Run(w, Rounds(n)) == Run(w1, [Timer(0)] + rest) == Run(w2, rest);
      StepKeepsQueued(w, Fail(0));
      StepKeepsQueued(w1, Timer(0));
      FailuresDoubleTheWait(w2, n - 1);
      CappedTwice(w.backoffMs, PowerOfTwo(n - 1));
    }
  }

  lemma CappedTwice(ms: nat, power: nat)
    requires 0 < power
    ensures Min(Min(2 * ms, 60_000) * power, 60_000) == Min(ms * (2 * power), 60_000)
  {
    if 2 * ms > 60_000 {
      assert 60_000 * power >= 60_000;
      assert (2 * ms) * power >= 60_000 * power;
    }
    assert (2 * ms) * power == ms * (2 * power);
  }

  function Acks<C>(n: nat): seq<Event<C>> {
    seq(n, _ => Ack(0))
  }

  /** Once the server answers, a drain under way sends everything that waits. */
  lemma {:induction false} AcksEmptyTheQueue<C>(w: World<C>)
    requires Queued(w) && w.sending && w.drains[0].Sending?
    ensures var w' := Run(w, Acks(|w.queue|));
            w'.queue == [] && !w'.sending && w'.acked == w.acked + w.queue && w'.backoffMs == BACKOFF_BASE_MS
    decreases |w.queue|
  {
    var acks := Acks<C>(|w.queue|);
    var next := Step(w, Ack(0));
    assert acks[0] == Ack(0) && acks[1..] == Acks(|w.queue| - 1);
    assert Run(w, acks) == Run(next, Acks(|w.queue| - 1));
    StepKeepsQueued(w, Ack(0));
    assert next.queue == w.queue[1..] && next.acked == w.acked + [w.queue[0]];
    if |w.queue| == 1 {
      assert Acks<C>(0) == [];
      assert w.acked + [w.queue[0]] == w.acked + w.queue;
    } else {
      AcksEmptyTheQueue(next);
      HeadMoves(w.acked, w.queue);
    }
  }
}

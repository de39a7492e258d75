/** The clock-aligned rate limiter of apps/server/src/rate-limit.dynamodb-limiter.ts:
    one atomic counter a key and window, deleted lazily some time after it expires. */
module RateLimiter {
  /** Times are epoch milliseconds, except `expiresAt`, in seconds. */
  datatype Bucket = Bucket(key: string, windowStart: int)

  datatype Item = Item(count: nat, expiresAt: int)

  datatype Decision = Decision(allowed: bool, retryAfterSeconds: int)

  datatype Limits = Limits(maxRequests: int, windowMs: int)

  // ---- Window arithmetic -------------------------------------------------------------------

  predicate LimitsOk(limits: Limits) {
    limits.windowMs > 0
  }

  function WindowStart(now: int, windowMs: int): int
    requires windowMs > 0
  {
    now / windowMs * windowMs
  }

  function CeilSeconds(ms: int): int {
    (ms + 999) / 1000
  }

  function Max(a: int, b: int): int {
    if a < b then b else a
  }

  lemma WindowHolds(now: int, windowMs: int)
    requires windowMs > 0
    ensures WindowStart(now, windowMs) <= now < WindowStart(now, windowMs) + windowMs
  {
    assert now == now / windowMs * windowMs + now % windowMs;
  }

  lemma QuotientIs(now: int, k: int, windowMs: int)
    requires windowMs > 0 && k * windowMs <= now < k * windowMs + windowMs
    ensures now / windowMs == k
  {
    var q := now / windowMs;
    WindowHolds(now, windowMs);
    if q < k {
      assert q * windowMs + windowMs <= k * windowMs by {
        Multiples(q + 1, k, windowMs);
      }
    } else if k < q {
      Multiples(k + 1, q, windowMs);
    }
  }

  lemma Multiples(a: int, b: int, m: int)
    requires a <= b && 0 < m
    ensures a * m <= b * m && (a - 1) * m + m == a * m
  {
  }

  /** A time within one window length of another lies in its window or the next. */
  lemma NextWindow(from: int, at: int, windowMs: int)
    requires windowMs > 0 && from <= at < from + windowMs
    ensures WindowStart(at, windowMs) == WindowStart(from, windowMs)
            || WindowStart(at, windowMs) == WindowStart(from, windowMs) + windowMs
  {
    var k := from / windowMs;
    WindowHolds(from, windowMs);
    Multiples(k + 1, k + 1, windowMs);
    if at < k * windowMs + windowMs {
      QuotientIs(at, k, windowMs);
    } else {
      QuotientIs(at, k + 1, windowMs);
    }
  }

  // ---- One hit -------------------------------------------------------------------------------

  function BucketAt(limits: Limits, key: string, now: int): Bucket
    requires LimitsOk(limits)
  {
    Bucket(key, WindowStart(now, limits.windowMs))
  }

  function ExpiresAt(limits: Limits, windowStart: int): int {
    CeilSeconds(windowStart + limits.windowMs) + 60
  }

  function CountOf(items: map<Bucket, Item>, b: Bucket): nat {
    if b in items then items[b].count else 0
  }

  /** `ADD count 1`, with the expiry set once. */
  function Added(limits: Limits, items: map<Bucket, Item>, b: Bucket): map<Bucket, Item> {
    items[b := Item(CountOf(items, b) + 1, if b in items then items[b].expiresAt else ExpiresAt(limits, b.windowStart))]
  }

  function Decide(limits: Limits, count: nat, now: int): Decision
    requires LimitsOk(limits)
  {
    if count <= limits.maxRequests then Decision(true, 0)
    else
      Decision(false, Max(1, CeilSeconds(WindowStart(now, limits.windowMs) + limits.windowMs - now)))
  }

  /** The counter table, shared by every instance. */
  class CounterTable {
    var items: map<Bucket, Item>

    constructor ()
      ensures items == map[]
    {
      items := map[];
    }

    /** One atomic update of one item; the new count comes back. */
    method Increment(b: Bucket, expiresAt: int) returns (count: nat)
      modifies this
      ensures items == old(items)[b := Item(count, if b in old(items) then old(items)[b].expiresAt else expiresAt)]
      ensures count == CountOf(old(items), b) + 1
    {
      var before := CountOf(items, b);
      count := before + 1;
      items := items[b := Item(count, if b in items then items[b].expiresAt else expiresAt)];
    }
  }

  class DynamoDbRateLimiter {
    const table: CounterTable
    const maxRequests: int
    const windowMs: int

    constructor (table: CounterTable, maxRequests: int, windowMs: int)
      ensures this.table == table && this.maxRequests == maxRequests && this.windowMs == windowMs
    {
      this.table := table;
      this.maxRequests := maxRequests;
      this.windowMs := windowMs;
    }

    function TheLimits(): Limits {
      Limits(maxRequests, windowMs)
    }

    method Hit(key: string, now: int) returns (decision: Decision)
      requires windowMs > 0
      modifies table
      ensures var b := BucketAt(TheLimits(), key, now);
              && table.items == Added(TheLimits(), old(table.items), b)
              && decision == Decide(TheLimits(), CountOf(table.items, b), now)
              && (decision.allowed <==> CountOf(table.items, b) <= maxRequests)
              && (decision.allowed ==> decision.retryAfterSeconds == 0)
              && (!decision.allowed ==> 1 <= decision.retryAfterSeconds)
    {
      var windowStart := now / windowMs * windowMs;
      var windowEnd := windowStart + windowMs;
      var count := table.Increment(Bucket(key, windowStart), CeilSeconds(windowEnd) + 60);
      if count <= maxRequests {
        return Decision(true, 0);
      }
      return Decision(false, Max(1, CeilSeconds(windowEnd - now)));
    }
  }

  /** A denied caller who waits as told lands in a later window, less than a
      second into it beyond the moment it starts. */
  lemma WaitLandsInALaterWindow(limits: Limits, count: nat, now: int)
    requires LimitsOk(limits) && !Decide(limits, count, now).allowed
    ensures var back := now + 1000 * Decide(limits, count, now).retryAfterSeconds;
            var windowEnd := WindowStart(now, limits.windowMs) + limits.windowMs;
            && windowEnd <= back < windowEnd + 1000
            && WindowStart(back, limits.windowMs) >= windowEnd
  {
    WindowHolds(now, limits.windowMs);
    var back := now + 1000 * Decide(limits, count, now).retryAfterSeconds;
    var k := now / limits.windowMs;
    WindowHolds(back, limits.windowMs);
    if back / limits.windowMs <= k {
      Multiples(back / limits.windowMs, k, limits.windowMs);
    } else {
      Multiples(k + 1, back / limits.windowMs, limits.windowMs);
    }
  }

  // ---- Runs ------------------------------------------------------------------------------------

  /** One answered request: the clock the instance read and what it said. */
  datatype Entry = Entry(key: string, reading: int, allowed: bool)

  /** The table, the clock its lazy deletion goes by, and every answer so far. */
  datatype World = World(items: map<Bucket, Item>, clock: int, log: seq<Entry>)

  datatype Event = Request(key: string, reading: int) | Expire(bucket: Bucket) | Tick(to: int)

  const EMPTY := World(map[], 0, [])

  /** An instance's clock is at most `lag` behind; an item is deleted only once
      its expiry has come, and maybe much later. */
  predicate Enabled(w: World, e: Event, lag: int) {
    match e
    case Request(_, reading) => w.clock - lag <= reading
    case Expire(b) => b in w.items && w.items[b].expiresAt * 1000 <= w.clock
    case Tick(to) => w.clock <= to
  }

  function Step(limits: Limits, w: World, e: Event): World
    requires LimitsOk(limits)
  {
    match e
    case Request(key, reading) =>
      var b := BucketAt(limits, key, reading);
      var items := Added(limits, w.items, b);
      w.(items := items, log := w.log + [Entry(key, reading, Decide(limits, CountOf(items, b), reading).allowed)])
    case Expire(b) => w.(items := w.items - {b})
    case Tick(to) => w.(clock := to)
  }

  function Run(limits: Limits, w: World, events: seq<Event>): World
    requires LimitsOk(limits)
    decreases |events|
  {
    if events == [] then w else Run(limits, Step(limits, w, events[0]), events[1..])
  }

  predicate Possible(limits: Limits, w: World, events: seq<Event>, lag: int)
    requires LimitsOk(limits)
    decreases |events|
  {
    events == [] || (Enabled(w, events[0], lag) && Possible(limits, Step(limits, w, events[0]), events[1..], lag))
  }

  // ---- Counting answers ------------------------------------------------------------------------

  function Tally(log: seq<Entry>, p: Entry -> bool): nat
    decreases |log|
  {
    if log == [] then 0 else Tally(log[..|log| - 1], p) + if p(log[|log| - 1]) then 1 else 0
  }

  function HitsOf(limits: Limits, b: Bucket): Entry -> bool
    requires LimitsOk(limits)
  {
    (e: Entry) => BucketAt(limits, e.key, e.reading) == b
  }

  function AllowedOf(limits: Limits, b: Bucket): Entry -> bool
    requires LimitsOk(limits)
  {
    (e: Entry) => BucketAt(limits, e.key, e.reading) == b && e.allowed
  }

  /** The answers that let a key through with a reading in `[from, from + length)`. */
  function AllowedFrom(key: string, from: int, length: int): Entry -> bool {
    (e: Entry) => e.key == key && e.allowed && from <= e.reading < from + length
  }

  lemma TallySnoc(log: seq<Entry>, e: Entry, p: Entry -> bool)
    ensures Tally(log + [e], p) == Tally(log, p) + if p(e) then 1 else 0
  {
    assert (log + [e])[..|log|] == log;
  }

  lemma {:induction false} TallyUnion(log: seq<Entry>, p: Entry -> bool, q: Entry -> bool, r: Entry -> bool)
    requires forall e :: e in log && p(e) ==> q(e) || r(e)
    ensures Tally(log, p) <= Tally(log, q) + Tally(log, r)
    decreases |log|
  {
    if log != [] {
      TallyUnion(log[..|log| - 1], p, q, r);
      assert log[|log| - 1] in log;
    }
  }

  // ---- The invariant -----------------------------------------------------------------------------

  const GRACE_MS := 60_000

  /** What a window may let through. */
  function Cap(limits: Limits, hits: nat): nat {
    if limits.maxRequests <= 0 then 0 else if hits < limits.maxRequests then hits else limits.maxRequests
  }

  /** A counter counts its window's requests, unless the window is long over. */
  predicate BucketOk(limits: Limits, w: World, b: Bucket)
    requires LimitsOk(limits)
  {
    var hits := Tally(w.log, HitsOf(limits, b));
    && (if b in w.items then w.items[b] == Item(hits, ExpiresAt(limits, b.windowStart))
        else hits == 0 || b.windowStart + limits.windowMs + GRACE_MS <= w.clock)
    && Tally(w.log, AllowedOf(limits, b)) == Cap(limits, hits)
  }

  lemma RequestKeepsBucket(limits: Limits, w: World, key: string, reading: int, b: Bucket)
    requires LimitsOk(limits) && BucketOk(limits, w, b) && w.clock - GRACE_MS <= reading
    ensures BucketOk(limits, Step(limits, w, Request(key, reading)), b)
  {
    var w' := Step(limits, w, Request(key, reading));
    var e := w'.log[|w.log|];
    WindowHolds(reading, limits.windowMs);
    TallySnoc(w.log, e, HitsOf(limits, b));
    TallySnoc(w.log, e, AllowedOf(limits, b));
  }

  lemma StepKeepsBucket(limits: Limits, w: World, e: Event, lag: int, b: Bucket)
    requires LimitsOk(limits) && BucketOk(limits, w, b) && Enabled(w, e, lag) && lag <= GRACE_MS
    ensures BucketOk(limits, Step(limits, w, e), b)
  {
    match e {
      case Request(key, reading) => RequestKeepsBucket(limits, w, key, reading, b);
      case Expire(_) =>
      case Tick(_) =>
    }
  }

  lemma {:induction false} RunKeepsBucket(limits: Limits, w: World, events: seq<Event>, lag: int, b: Bucket)
    requires LimitsOk(limits) && BucketOk(limits, w, b) && Possible(limits, w, events, lag) && lag <= GRACE_MS
    ensures BucketOk(limits, Run(limits, w, events), b)
    decreases |events|
  {
    hide BucketOk, Step, Enabled;
    if events != [] {
      StepKeepsBucket(limits, w, events[0], lag, b);
      RunKeepsBucket(limits, Step(limits, w, events[0]), events[1..], lag, b);
    }
  }

  // ---- Main results --------------------------------------------------------------------------------

  /** In every run each window of a key lets through exactly as many requests as
      came, up to the limit. */
  lemma WindowAllowsExactly(limits: Limits, events: seq<Event>, lag: int, b: Bucket)
    requires LimitsOk(limits) && Possible(limits, EMPTY, events, lag) && lag <= GRACE_MS
    ensures var log := Run(limits, EMPTY, events).log;
            Tally(log, AllowedOf(limits, b)) == Cap(limits, Tally(log, HitsOf(limits, b)))
  {
    assert BucketOk(limits, EMPTY, b);
    RunKeepsBucket(limits, EMPTY, events, lag, b);
  }

  /** A counter is gone only when no instance can still read a time in its window. */
  lemma CounterOutlivesItsWindow(limits: Limits, events: seq<Event>, lag: int, b: Bucket, reading: int)
    requires LimitsOk(limits) && Possible(limits, EMPTY, events, lag) && lag <= GRACE_MS
    ensures var w := Run(limits, EMPTY, events);
            b !in w.items && Tally(w.log, HitsOf(limits, b)) > 0 && w.clock - lag <= reading
            ==> b.windowStart + limits.windowMs <= reading
  {
    assert BucketOk(limits, EMPTY, b);
    RunKeepsBucket(limits, EMPTY, events, lag, b);
  }

  /** In every run any interval of one window length, aligned or not, lets a key
      through at most twice the limit. */
  lemma AtMostTwiceTheLimit(limits: Limits, events: seq<Event>, lag: int, key: string, from: int)
    requires LimitsOk(limits) && Possible(limits, EMPTY, events, lag) && lag <= GRACE_MS
    ensures var log := Run(limits, EMPTY, events).log;
            Tally(log, AllowedFrom(key, from, limits.windowMs)) <= 2 * Max(0, limits.maxRequests)
  {
    hide WindowStart, Possible, Run;
    var log := Run(limits, EMPTY, events).log;
    var s := WindowStart(from, limits.windowMs);
    var first, second := Bucket(key, s), Bucket(key, s + limits.windowMs);
    WindowAllowsExactly(limits, events, lag, first);
    WindowAllowsExactly(limits, events, lag, second);
    forall e | e in log && AllowedFrom(key, from, limits.windowMs)(e)
      ensures AllowedOf(limits, first)(e) || AllowedOf(limits, second)(e)
    {
      NextWindow(from, e.reading, limits.windowMs);
    }
    TallyUnion(log, AllowedFrom(key, from, limits.windowMs), AllowedOf(limits, first), AllowedOf(limits, second));
  }

  // ---- The bound is attained -------------------------------------------------------------------------

  function Burst(key: string, reading: int, n: nat): seq<Event> {
    seq(n, _ => Request(key, reading))
  }

  lemma OnePasses(limits: Limits, w: World, key: string, reading: int, from: int)
    requires LimitsOk(limits) && CountOf(w.items, BucketAt(limits, key, reading)) < limits.maxRequests
    requires from <= reading < from + limits.windowMs
    ensures var w' := Step(limits, w, Request(key, reading));
            && w'.clock == w.clock
            && Tally(w'.log, AllowedFrom(key, from, limits.windowMs))
               == Tally(w.log, AllowedFrom(key, from, limits.windowMs)) + 1
            && forall b ::
                 CountOf(w'.items, b) == CountOf(w.items, b) + if b == BucketAt(limits, key, reading) then 1 else 0
  {
    hide BucketAt;
    TallySnoc(w.log, Entry(key, reading, true), AllowedFrom(key, from, limits.windowMs));
  }

  /** A burst that finds room is let through whole. */
  lemma {:induction false} BurstPasses(limits: Limits, w: World, key: string, reading: int, n: nat, from: int, lag: int)
    requires LimitsOk(limits) && CountOf(w.items, BucketAt(limits, key, reading)) + n <= limits.maxRequests
    requires from <= reading < from + limits.windowMs && w.clock - lag <= reading
    ensures Possible(limits, w, Burst(key, reading, n), lag)
    ensures var w' := Run(limits, w, Burst(key, reading, n));
            && w'.clock == w.clock
            && Tally(w'.log, AllowedFrom(key, from, limits.windowMs))
               == Tally(w.log, AllowedFrom(key, from, limits.windowMs)) + n
            && forall b :: b != BucketAt(limits, key, reading) ==> CountOf(w'.items, b) == CountOf(w.items, b)
    decreases n
  {
    hide Step, BucketAt, Tally;
    var burst := Burst(key, reading, n);
    if n != 0 {
      assert burst[0] == Request(key, reading) && burst[1..] == Burst(key, reading, n - 1);
      var w1 := Step(limits, w, Request(key, reading));
      OnePasses(limits, w, key, reading, from);
      BurstPasses(limits, w1, key, reading, n - 1, from, lag);
    } else {
      assert burst == [];
    }
  }

  lemma {:induction false} RunConcat(limits: Limits, w: World, a: seq<Event>, b: seq<Event>, lag: int)
    requires LimitsOk(limits)
    ensures Run(limits, w, a + b) == Run(limits, Run(limits, w, a), b)
    ensures Possible(limits, w, a, lag) && Possible(limits, Run(limits, w, a), b, lag) ==>
              Possible(limits, w, a + b, lag)
    decreases |a|
  {
    hide Step, Enabled;
    if a == [] {
      assert a + b == b;
    } else {
      assert (a + b)[1..] == a[1..] + b;
      RunConcat(limits, Step(limits, w, a[0]), a[1..], b, lag);
    }
  }

  /** Two bursts a millisecond apart, on both sides of a boundary. */
  function Straddle(limits: Limits, key: string): seq<Event>
    requires limits.maxRequests >= 0
  {
    Burst(key, limits.windowMs - 1, limits.maxRequests) + Burst(key, limits.windowMs, limits.maxRequests)
  }

  /** Twice the limit does pass within one window length. */
  lemma TwiceTheLimitHappens(limits: Limits, key: string)
    requires limits.windowMs >= 2 && limits.maxRequests >= 0
    ensures Possible(limits, EMPTY, Straddle(limits, key), 0)
    ensures Tally(Run(limits, EMPTY, Straddle(limits, key)).log, AllowedFrom(key, limits.windowMs - 1, limits.windowMs))
            == 2 * limits.maxRequests
  {
    hide WindowStart, Step, Enabled;
    var n, m := limits.maxRequests, limits.windowMs;
    TwoWindows(m);
    BurstPasses(limits, EMPTY, key, m - 1, n, m - 1, 0);
    var w := Run(limits, EMPTY, Burst(key, m - 1, n));
    assert CountOf(w.items, BucketAt(limits, key, m)) == CountOf(EMPTY.items, BucketAt(limits, key, m));
    BurstPasses(limits, w, key, m, n, m - 1, 0);
    RunConcat(limits, EMPTY, Burst(key, m - 1, n), Burst(key, m, n), 0);
  }

  lemma TwoWindows(m: int)
    requires m >= 2
    ensures WindowStart(m - 1, m) == 0 && WindowStart(m, m) == m
  {
    QuotientIs(m - 1, 0, m);
    QuotientIs(m, 1, m);
  }

  // ---- How much lag the grace covers -------------------------------------------------------------------

  ghost predicate AlwaysCapped(lag: int) {
    forall limits: Limits, events: seq<Event>, b: Bucket ::
      LimitsOk(limits) && Possible(limits, EMPTY, events, lag)
      ==> CappedIn(limits, events, b)
  }

  predicate CappedIn(limits: Limits, events: seq<Event>, b: Bucket)
    requires LimitsOk(limits)
  {
    Tally(Run(limits, EMPTY, events).log, AllowedOf(limits, b)) <= Max(0, limits.maxRequests)
  }

  /** The counter kept a minute past its window holds the limit for instances up
      to a minute behind, and for no more. */
  lemma GraceCoversAMinute(lag: int)
    ensures AlwaysCapped(lag) <==> lag <= GRACE_MS
  {
    if lag <= GRACE_MS {
      forall limits: Limits, events: seq<Event>, b: Bucket | LimitsOk(limits) && Possible(limits, EMPTY, events, lag)
        ensures CappedIn(limits, events, b)
      {
        hide Run, Possible;
        WindowAllowsExactly(limits, events, lag, b);
      }
    } else {
      LateReadingPassesTwice(lag);
    }
  }

  function LateEvents(): seq<Event> {
    [Request("k", 999), Tick(61_000), Expire(Bucket("k", 0)), Request("k", 999)]
  }

  /** An instance over a minute behind can find its window's counter deleted. */
  lemma LateReadingPassesTwice(lag: int)
    requires lag > GRACE_MS
    ensures Possible(Limits(1, 1000), EMPTY, LateEvents(), lag)
    ensures !CappedIn(Limits(1, 1000), LateEvents(), Bucket("k", 0))
  {
    var limits := Limits(1, 1000);
    var b := Bucket("k", 0);
    var events := LateEvents();
    var w1 := Step(limits, EMPTY, events[0]);
    assert w1 == World(map[b := Item(1, 61)], 0, [Entry("k", 999, true)]);
    var w2 := Step(limits, w1, events[1]);
    var w3 := Step(limits, w2, events[2]);
    assert w3 == World(map[], 61_000, [Entry("k", 999, true)]);
    var w4 := Step(limits, w3, events[3]);
    assert w4.log == [Entry("k", 999, true)] + [Entry("k", 999, true)];
    FourEvents(limits, events, lag);
    TallySnoc([Entry("k", 999, true)], Entry("k", 999, true), AllowedOf(limits, b));
    TallySnoc([], Entry("k", 999, true), AllowedOf(limits, b));
    assert [] + [Entry("k", 999, true)] == [Entry("k", 999, true)];
  }

  lemma OneEvent(limits: Limits, w: World, events: seq<Event>, lag: int)
    requires LimitsOk(limits) && events != []
    ensures Run(limits, w, events) == Run(limits, Step(limits, w, events[0]), events[1..])
    ensures Possible(limits, w, events, lag)
            == (Enabled(w, events[0], lag) && Possible(limits, Step(limits, w, events[0]), events[1..], lag))
  {
  }

  lemma FourEvents(limits: Limits, events: seq<Event>, lag: int)
    requires LimitsOk(limits) && |events| == 4
    ensures var w1 := Step(limits, EMPTY, events[0]);
            var w2 := Step(limits, w1, events[1]);
            var w3 := Step(limits, w2, events[2]);
            var eachEnabled := Enabled(EMPTY, events[0], lag) && Enabled(w1, events[1], lag)
                               && Enabled(w2, events[2], lag) && Enabled(w3, events[3], lag);
            Run(limits, EMPTY, events) == Step(limits, w3, events[3])
            && (eachEnabled ==> Possible(limits, EMPTY, events, lag))
  {
    hide Step, Enabled;
    var w1 := Step(limits, EMPTY, events[0]);
    var w2 := Step(limits, w1, events[1]);
    var w3 := Step(limits, w2, events[2]);
    assert events[1..][1..] == events[2..] && events[2..][1..] == events[3..] && events[3..][1..] == [];
    OneEvent(limits, EMPTY, events, lag);
    OneEvent(limits, w1, events[1..], lag);
    OneEvent(limits, w2, events[2..], lag);
    OneEvent(limits, w3, events[3..], lag);
  }
}

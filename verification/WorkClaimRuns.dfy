/** Every interleaving of requesters, workers, late or repeated deliveries,
    crashes, clock movement and lazy TTL deletion over one claim table. */
module WorkClaimRuns {
  import opened Outcomes
  import opened WorkClaims

  /** `lag` bounds how far a write's clock reading may lie behind the true time
      when the write lands (a slow clock, or a slow call); `lead` how far ahead.
      `runMs` is the longest a worker runs. All in milliseconds. */
  datatype Params = Params(o: Options, lag: int, lead: int, runMs: int)

  ghost predicate Sane(p: Params) {
    0 <= p.lag && 0 <= p.lead && 0 <= p.runMs && 0 < p.o.evidenceSeconds
  }

  /** A worker between a successful confirm and its release. */
  datatype Worker = Worker(key: Key, token: Token, startedAt: int)

  /** What happened to a key, in order. */
  datatype Event =
    | Took(key: Key, token: Token)
    | Started(key: Key, token: Token)
    | Ended(key: Key, token: Token)
    | Gone(key: Key)

  /** The clock readings at which claims were taken and started. */
  datatype Readings = Readings(tookAt: map<Token, int>, startedAt: map<Token, int>)

  /** `pending` holds claims whose requester has not handed the work over yet,
      `jobs` those it has: such a job may be delivered any number of times. */
  datatype State = State(
    now: int,
    table: Table,
    pending: map<Token, Key>,
    jobs: map<Token, Key>,
    workers: map<nat, Worker>,
    issued: set<Token>,
    log: seq<Event>,
    read: Readings)

  datatype Step =
    | Tick(ms: nat)
    | Request(key: Key, token: Token, reading: int)
    | Dispatch(token: Token)
    | Abandon(token: Token)
    | Deliver(id: nat, token: Token, reading: int)
    | Finish(id: nat)
    | Crash(id: nat)
    | Expire(key: Key, reading: int)

  function Init(now: int): State {
    State(now, map[], map[], map[], map[], {}, [], Readings(map[], map[]))
  }

  ghost predicate Readable(p: Params, s: State, reading: int) {
    s.now - p.lag <= reading <= s.now + p.lead
  }

  /** Tokens are fresh, no worker outlives `runMs`, a requester gives up only
      work it did not hand over, and TTL deletes only what has expired. */
  ghost predicate Enabled(p: Params, s: State, step: Step) {
    match step
    case Tick(ms) => forall i :: i in s.workers ==> s.now + ms <= s.workers[i].startedAt + p.runMs
    case Request(_, token, reading) => token !in s.issued && Readable(p, s, reading)
    case Dispatch(token) => token in s.pending
    case Abandon(token) => token in s.pending
    case Deliver(id, token, reading) => id !in s.workers && token in s.jobs && Readable(p, s, reading)
    case Finish(id) => id in s.workers
    case Crash(id) => id in s.workers
    case Expire(key, reading) =>
      key in s.table && s.table[key].expiresAt <= Seconds(reading) && Readable(p, s, reading)
  }

  function Drop<T>(m: map<T, Key>, t: T): map<T, Key> {
    map u | u in m && u != t :: m[u]
  }

  function Leave(workers: map<nat, Worker>, id: nat): map<nat, Worker> {
    map i | i in workers && i != id :: workers[i]
  }

  function EndedBy(table: Table, key: Key, token: Token): seq<Event> {
    if Releasable(table, key, token) then [Ended(key, token)] else []
  }

  ghost function Next(p: Params, s: State, step: Step): State
    requires Enabled(p, s, step)
  {
    match step
    case Tick(ms) => s.(now := s.now + ms)
    case Request(key, token, reading) =>
      if Claimable(s.table, key, Seconds(reading)) then
        s.(table := Claimed(s.table, key, token, Seconds(reading), p.o),
           pending := s.pending[token := key],
           issued := s.issued + {token},
           log := s.log + [Took(key, token)],
           read := s.read.(tookAt := s.read.tookAt[token := reading]))
      else s.(issued := s.issued + {token})
    case Dispatch(token) =>
      s.(pending := Drop(s.pending, token), jobs := s.jobs[token := s.pending[token]])
    case Abandon(token) =>
      var key := s.pending[token];
      s.(pending := Drop(s.pending, token),
         table := Freed(s.table, key, token),
         log := s.log + EndedBy(s.table, key, token))
    case Deliver(id, token, reading) =>
      var key := s.jobs[token];
      if Confirmable(s.table, key, token) then
        s.(table := Confirmed(s.table, key, token, Seconds(reading), p.o),
           workers := s.workers[id := Worker(key, token, s.now)],
           log := s.log + [Started(key, token)],
           read := s.read.(startedAt := s.read.startedAt[token := reading]))
      else s
    case Finish(id) =>
      var w := s.workers[id];
      s.(workers := Leave(s.workers, id),
         table := Freed(s.table, w.key, w.token),
         log := s.log + EndedBy(s.table, w.key, w.token))
    case Crash(id) => s.(workers := Leave(s.workers, id))
    case Expire(key, _) =>
      s.(table := map k | k in s.table && k != key :: s.table[k], log := s.log + [Gone(key)])
  }

  ghost predicate Legal(p: Params, s: State, steps: seq<Step>)
    decreases |steps|
  {
    steps == [] || (Enabled(p, s, steps[0]) && Legal(p, Next(p, s, steps[0]), steps[1..]))
  }

  ghost function Run(p: Params, s: State, steps: seq<Step>): State
    requires Legal(p, s, steps)
    decreases |steps|
  {
    if steps == [] then s else Run(p, Next(p, s, steps[0]), steps[1..])
  }

  // ---- Mutual exclusion -----------------------------------------------------

  ghost predicate Exclusive(s: State) {
    forall i, j :: i in s.workers && j in s.workers && i != j ==> s.workers[i].key != s.workers[j].key
  }

  /** The slack rule: a run plus both clock errors fits in the lease. */
  ghost predicate Slack(p: Params) {
    p.runMs + p.lag + p.lead <= 1000 * p.o.leaseSeconds
  }

  /** Each token is held by its requester or is in the job bag, never both. */
  ghost predicate TokensInv(s: State) {
    && (forall t :: t in s.pending ==> t in s.issued && t !in s.jobs)
    && (forall t :: t in s.jobs ==> t in s.issued)
    && (forall i :: i in s.workers ==> s.workers[i].token in s.jobs)
    && (forall k :: k in s.table ==> s.table[k].token in s.issued)
  }

  ghost predicate RecordsInv(p: Params, s: State) {
    forall k :: k in s.table ==>
      && s.table[k].expiresAt == s.table[k].heldUntil + p.o.evidenceSeconds
      && s.table[k].heldUntil <= Seconds(s.now + p.lead) + Longer(p.o)
  }

  function Longer(o: Options): int {
    if o.ttlSeconds < o.leaseSeconds then o.leaseSeconds else o.ttlSeconds
  }

  /** A running worker's claim is in the table and holds past its run. */
  ghost predicate HeldBy(p: Params, s: State, w: Worker) {
    && w.startedAt <= s.now <= w.startedAt + p.runMs
    && w.key in s.table
    && s.table[w.key].token == w.token
    && s.table[w.key].state == Running
    && Seconds(w.startedAt - p.lag) + p.o.leaseSeconds <= s.table[w.key].heldUntil
  }

  ghost predicate WorkersInv(p: Params, s: State) {
    forall i :: i in s.workers ==> HeldBy(p, s, s.workers[i])
  }

  /** While a worker runs no reading of any clock reaches past its hold. */
  lemma HoldOutlastsRun(p: Params, s: State, w: Worker, reading: int)
    requires Sane(p) && Slack(p) && HeldBy(p, s, w) && Readable(p, s, reading)
    ensures Seconds(reading) <= s.table[w.key].heldUntil
  {
    assert reading <= (w.startedAt - p.lag) + 1000 * p.o.leaseSeconds;
  }

  lemma TokensStep(p: Params, s: State, step: Step)
    requires TokensInv(s) && Enabled(p, s, step)
    ensures TokensInv(Next(p, s, step))
  {
  }

  lemma RecordsStep(p: Params, s: State, step: Step)
    requires Sane(p) && RecordsInv(p, s) && Enabled(p, s, step)
    ensures RecordsInv(p, Next(p, s, step))
  {
  }

  /** A worker that neither finishes nor crashes in a step keeps its hold. */
  lemma WorkerKeepsHold(p: Params, s: State, step: Step, i: nat)
    requires Sane(p) && Slack(p) && TokensInv(s) && RecordsInv(p, s) && WorkersInv(p, s) && Exclusive(s)
    requires Enabled(p, s, step) && i in s.workers && i in Next(p, s, step).workers
    ensures HeldBy(p, Next(p, s, step), s.workers[i])
  {
    var w := s.workers[i];
    assert HeldBy(p, s, w);
    match step
    case Request(_, _, reading) => HoldOutlastsRun(p, s, w, reading);
    case Expire(_, reading) => HoldOutlastsRun(p, s, w, reading);
    case Abandon(token) => assert token != w.token;
    case Finish(j) => assert s.workers[j].key != w.key;
    case _ =>
  }

  /** A new worker's key was nobody's, and holds from now on. */
  lemma NewWorkerHolds(p: Params, s: State, step: Step)
    requires Sane(p) && WorkersInv(p, s) && Enabled(p, s, step) && step.Deliver?
    requires Confirmable(s.table, s.jobs[step.token], step.token)
    ensures HeldBy(p, Next(p, s, step), Worker(s.jobs[step.token], step.token, s.now))
    ensures forall i :: i in s.workers ==> s.workers[i].key != s.jobs[step.token]
  {
    assert forall i :: i in s.workers ==> HeldBy(p, s, s.workers[i]);
  }

  lemma WorkersStep(p: Params, s: State, step: Step)
    requires Sane(p) && Slack(p) && TokensInv(s) && RecordsInv(p, s) && WorkersInv(p, s) && Exclusive(s)
    requires Enabled(p, s, step)
    ensures WorkersInv(p, Next(p, s, step)) && Exclusive(Next(p, s, step))
  {
    var t := Next(p, s, step);
    forall i | i in t.workers && i in s.workers ensures HeldBy(p, t, t.workers[i]) {
      WorkerKeepsHold(p, s, step, i);
    }
    if step.Deliver? && Confirmable(s.table, s.jobs[step.token], step.token) {
      NewWorkerHolds(p, s, step);
    }
    hide TokensInv, RecordsInv, HeldBy, Claimable, Claimed, Confirmable, Confirmed, Freed, EndedBy;
  }

  lemma {:induction false} RunKeepsSafety(p: Params, s: State, steps: seq<Step>)
    requires Sane(p) && Slack(p) && Legal(p, s, steps)
    requires TokensInv(s) && RecordsInv(p, s) && WorkersInv(p, s) && Exclusive(s)
    ensures var t := Run(p, s, steps);
            TokensInv(t) && RecordsInv(p, t) && WorkersInv(p, t) && Exclusive(t)
    decreases |steps|
  {
    if steps != [] {
      TokensStep(p, s, steps[0]);
      RecordsStep(p, s, steps[0]);
      WorkersStep(p, s, steps[0]);
      RunKeepsSafety(p, Next(p, s, steps[0]), steps[1..]);
    }
  }

  ghost predicate AlwaysExclusive(p: Params) {
    forall start, steps :: Legal(p, Init(start), steps) ==> Exclusive(Run(p, Init(start), steps))
  }

  lemma OneMoreStep(p: Params, s: State, step: Step, rest: seq<Step>)
    requires Enabled(p, s, step) && Legal(p, Next(p, s, step), rest)
    ensures Legal(p, s, [step] + rest) && Run(p, s, [step] + rest) == Run(p, Next(p, s, step), rest)
  {
    assert ([step] + rest)[1..] == rest;
  }

  /** Without the slack a second worker starts while the first still runs. */
  lemma OverlapWithoutSlack(p: Params) returns (start: int, steps: seq<Step>)
    requires Sane(p) && !Slack(p)
    ensures Legal(p, Init(start), steps) && !Exclusive(Run(p, Init(start), steps))
  {
    var spare := 1000 * p.o.leaseSeconds + 1 - p.lag - p.lead;
    var wait := if spare < 0 then 0 else spare;
    start := 999 + p.lag;
    var s0 := Init(start);
    var a := Request("k", 0, start);
    var s1 := Next(p, s0, a);
    var s2 := Next(p, s1, Dispatch(0));
    var c := Deliver(0, 0, 999);
    var s3 := Next(p, s2, c);
    var s4 := Next(p, s3, Tick(wait));
    var e := Request("k", 1, start + wait + p.lead);
    assert Seconds(999) == 0 && Seconds(start + wait + p.lead) > p.o.leaseSeconds;
    var s5 := Next(p, s4, e);
    var s6 := Next(p, s5, Dispatch(1));
    var g := Deliver(1, 1, start + wait);
    var s7 := Next(p, s6, g);
    assert s7.workers[0].key == s7.workers[1].key;
    OneMoreStep(p, s6, g, []);
    OneMoreStep(p, s5, Dispatch(1), [g]);
    OneMoreStep(p, s4, e, [Dispatch(1)] + [g]);
    OneMoreStep(p, s3, Tick(wait), [e] + ([Dispatch(1)] + [g]));
    OneMoreStep(p, s2, c, [Tick(wait)] + ([e] + ([Dispatch(1)] + [g])));
    OneMoreStep(p, s1, Dispatch(0), [c] + ([Tick(wait)] + ([e] + ([Dispatch(1)] + [g]))));
    steps := [a] + ([Dispatch(0)] + ([c] + ([Tick(wait)] + ([e] + ([Dispatch(1)] + [g])))));
    OneMoreStep(p, s0, a, steps[1..]);
    assert steps == [a] + steps[1..];
  }

  /** No two workers ever hold one key at once, in any run, exactly when a run
      and both clock errors fit in the lease. */
  lemma MutualExclusion(p: Params)
    requires Sane(p)
    ensures AlwaysExclusive(p) <==> Slack(p)
  {
    if Slack(p) {
      forall start, steps | Legal(p, Init(start), steps)
        ensures Exclusive(Run(p, Init(start), steps))
      {
        RunKeepsSafety(p, Init(start), steps);
      }
    } else {
      var start, steps := OverlapWithoutSlack(p);
    }
  }

  /** With the source's 20-minute lease and a 15-minute run, clocks and calls
      may be off by five minutes together, and by no more. */
  lemma DefaultSlack(lag: int, lead: int)
    requires 0 <= lag && 0 <= lead
    ensures AlwaysExclusive(Params(DEFAULTS, lag, lead, 15 * 60 * 1000)) <==> lag + lead <= 5 * 60 * 1000
  {
    MutualExclusion(Params(DEFAULTS, lag, lead, 15 * 60 * 1000));
  }

  // ---- One start per claim, and no lost work --------------------------------

  /** The token whose record the log says the key still carries. */
  function Holder(log: seq<Event>, key: Key): Option<Token> {
    if log == [] then None
    else
      var last := log[|log| - 1];
      if last == Gone(key) then None
      else if last.Took? && last.key == key then Some(last.token)
      else Holder(log[..|log| - 1], key)
  }

  /** The table is what the log says it is. */
  ghost predicate TableMatchesLog(table: Table, log: seq<Event>) {
    && (forall k :: Holder(log, k) == if k in table then Some(table[k].token) else None)
    && (forall k :: k in table ==> StateMatchesLog(k, table[k], log))
  }

  ghost predicate StateMatchesLog(key: Key, item: Item, log: seq<Event>) {
    && (item.state == Queued <==> Started(key, item.token) !in log && Ended(key, item.token) !in log)
    && (item.state == Released <==> Ended(key, item.token) in log)
  }

  ghost predicate LogInv(log: seq<Event>, issued: set<Token>) {
    && (forall e :: e in log && !e.Gone? ==> e.token in issued)
    && (forall k, t :: multiset(log)[Started(k, t)] <= 1)
  }

  ghost predicate HistoryInv(s: State) {
    && TableMatchesLog(s.table, s.log)
    && LogInv(s.log, s.issued)
    && (forall i :: i in s.workers ==> Started(s.workers[i].key, s.workers[i].token) in s.log)
  }

  lemma HolderGrows(log: seq<Event>, e: Event)
    ensures forall k :: Holder(log + [e], k) ==
                        if e == Gone(k) then None
                        else if e.Took? && e.key == k then Some(e.token) else Holder(log, k)
    ensures multiset(log + [e]) == multiset(log) + multiset{e}
    ensures forall x :: x in log + [e] <==> x in log || x == e
  {
    assert (log + [e])[..|log|] == log;
  }

  /** A record is unmoved by an event about another key or another token. */
  lemma StateUnmoved(key: Key, item: Item, log: seq<Event>, e: Event)
    requires StateMatchesLog(key, item, log)
    requires e != Started(key, item.token) && e != Ended(key, item.token)
    ensures StateMatchesLog(key, item, log + [e])
  {
  }

  lemma TookStep(table: Table, log: seq<Event>, issued: set<Token>, key: Key, token: Token, now: int, o: Options)
    requires TableMatchesLog(table, log) && LogInv(log, issued) && token !in issued
    ensures TableMatchesLog(Claimed(table, key, token, now, o), log + [Took(key, token)])
    ensures LogInv(log + [Took(key, token)], issued + {token})
  {
    var e := Took(key, token);
    HolderGrows(log, e);
    assert Started(key, token) !in log && Ended(key, token) !in log;
    forall k | k in table && k != key ensures StateMatchesLog(k, table[k], log + [e]) {
      StateUnmoved(k, table[k], log, e);
    }
  }

  lemma StartedStep(table: Table, log: seq<Event>, issued: set<Token>, key: Key, token: Token, now: int, o: Options)
    requires TableMatchesLog(table, log) && LogInv(log, issued) && token in issued && Confirmable(table, key, token)
    ensures TableMatchesLog(Confirmed(table, key, token, now, o), log + [Started(key, token)])
    ensures LogInv(log + [Started(key, token)], issued)
  {
    var e := Started(key, token);
    HolderGrows(log, e);
    assert e !in log && multiset(log)[e] == 0;
    forall k | k in table && k != key ensures StateMatchesLog(k, table[k], log + [e]) {
      StateUnmoved(k, table[k], log, e);
    }
  }

  lemma EndedStep(table: Table, log: seq<Event>, issued: set<Token>, key: Key, token: Token)
    requires TableMatchesLog(table, log) && LogInv(log, issued) && token in issued
    ensures TableMatchesLog(Freed(table, key, token), log + EndedBy(table, key, token))
    ensures LogInv(log + EndedBy(table, key, token), issued)
  {
    if Releasable(table, key, token) {
      var e := Ended(key, token);
      HolderGrows(log, e);
      forall k | k in table && k != key ensures StateMatchesLog(k, table[k], log + [e]) {
        StateUnmoved(k, table[k], log, e);
      }
    } else {
      assert log + [] == log;
    }
  }

  lemma GoneStep(table: Table, log: seq<Event>, issued: set<Token>, key: Key)
    requires TableMatchesLog(table, log) && LogInv(log, issued)
    ensures TableMatchesLog(map k | k in table && k != key :: table[k], log + [Gone(key)])
    ensures LogInv(log + [Gone(key)], issued)
  {
    var e := Gone(key);
    HolderGrows(log, e);
    forall k | k in table && k != key ensures StateMatchesLog(k, table[k], log + [e]) {
      StateUnmoved(k, table[k], log, e);
    }
  }

  lemma HistoryStep(p: Params, s: State, step: Step)
    requires TokensInv(s) && HistoryInv(s) && Enabled(p, s, step)
    ensures HistoryInv(Next(p, s, step))
  {
    match step
    case Request(key, token, reading) =>
      TookStep(s.table, s.log, s.issued, key, token, Seconds(reading), p.o);
    case Abandon(token) => EndedStep(s.table, s.log, s.issued, s.pending[token], token);
    case Deliver(_, token, reading) =>
      if Confirmable(s.table, s.jobs[token], token) {
        StartedStep(s.table, s.log, s.issued, s.jobs[token], token, Seconds(reading), p.o);
      }
    case Finish(id) => EndedStep(s.table, s.log, s.issued, s.workers[id].key, s.workers[id].token);
    case Expire(key, _) => GoneStep(s.table, s.log, s.issued, key);
    case _ =>
  }

  lemma {:induction false} RunKeepsHistory(p: Params, s: State, steps: seq<Step>)
    requires Legal(p, s, steps) && TokensInv(s) && HistoryInv(s)
    ensures TokensInv(Run(p, s, steps)) && HistoryInv(Run(p, s, steps))
    decreases |steps|
  {
    if steps != [] {
      TokensStep(p, s, steps[0]);
      HistoryStep(p, s, steps[0]);
      RunKeepsHistory(p, Next(p, s, steps[0]), steps[1..]);
    }
  }

  /** In every run each claim starts its work at most once, and a delivered job
      starts exactly when the key still carries its claim and that claim neither
      started nor ended before. */
  lemma StartsOnceAndExactlyWhen(p: Params, start: int, steps: seq<Step>, key: Key, token: Token)
    requires Legal(p, Init(start), steps)
    ensures var s := Run(p, Init(start), steps);
            && multiset(s.log)[Started(key, token)] <= 1
            && (Confirmable(s.table, key, token) <==>
                  && Holder(s.log, key) == Some(token)
                  && Started(key, token) !in s.log
                  && Ended(key, token) !in s.log)
  {
    RunKeepsHistory(p, Init(start), steps);
  }

  // ---- A held key is refused -----------------------------------------------

  /** The second up to which a claim holds its key, by what was read when it was
      taken or, once it started, when it started. */
  function HoldOf(o: Options, read: Readings, token: Token): int {
    if token in read.startedAt then read.startedAt[token] / 1000 + o.leaseSeconds
    else if token in read.tookAt then read.tookAt[token] / 1000 + o.ttlSeconds
    else 0
  }

  ghost predicate HoldIs(o: Options, read: Readings, item: Item) {
    && item.token in read.tookAt
    && (item.state == Queued ==> item.token !in read.startedAt)
    && item.heldUntil == HoldOf(o, read, item.token)
    && item.expiresAt == item.heldUntil + o.evidenceSeconds
  }

  /** Each record holds as long as its readings say, and no token has two. */
  ghost predicate RecordsHold(o: Options, table: Table, read: Readings, issued: set<Token>) {
    && (forall k :: k in table ==> HoldIs(o, read, table[k]))
    && (forall k, l :: k in table && l in table && table[k].token == table[l].token ==> k == l)
    && (forall t :: t in read.tookAt || t in read.startedAt ==> t in issued)
  }

  ghost predicate HoldsInv(p: Params, s: State) {
    RecordsHold(p.o, s.table, s.read, s.issued)
  }

  lemma HoldsAfterTake(o: Options, table: Table, read: Readings, issued: set<Token>, key: Key, token: Token, at: int)
    requires RecordsHold(o, table, read, issued) && token !in issued
    ensures RecordsHold(o, Claimed(table, key, token, Seconds(at), o), read.(tookAt := read.tookAt[token := at]),
                        issued + {token})
  {
  }

  lemma HoldsAfterStart(o: Options, table: Table, read: Readings, issued: set<Token>, key: Key, token: Token, at: int)
    requires RecordsHold(o, table, read, issued) && token in issued && Confirmable(table, key, token)
    ensures RecordsHold(o, Confirmed(table, key, token, Seconds(at), o),
                        read.(startedAt := read.startedAt[token := at]), issued)
  {
  }

  lemma HoldsAfterRelease(o: Options, table: Table, read: Readings, issued: set<Token>, key: Key, token: Token)
    requires RecordsHold(o, table, read, issued)
    ensures RecordsHold(o, Freed(table, key, token), read, issued)
  {
  }

  lemma HoldsStep(p: Params, s: State, step: Step)
    requires TokensInv(s) && HoldsInv(p, s) && Enabled(p, s, step)
    ensures HoldsInv(p, Next(p, s, step))
  {
    hide Claimed, Confirmed, Freed, Claimable, EndedBy;
    match step
    case Request(key, token, reading) => HoldsAfterTake(p.o, s.table, s.read, s.issued, key, token, reading);
    case Abandon(token) => HoldsAfterRelease(p.o, s.table, s.read, s.issued, s.pending[token], token);
    case Deliver(_, token, reading) =>
      if Confirmable(s.table, s.jobs[token], token) {
        HoldsAfterStart(p.o, s.table, s.read, s.issued, s.jobs[token], token, reading);
      }
    case Finish(id) => HoldsAfterRelease(p.o, s.table, s.read, s.issued, s.workers[id].key, s.workers[id].token);
    case _ =>
  }

  lemma {:induction false} RunKeepsHolds(p: Params, s: State, steps: seq<Step>)
    requires Legal(p, s, steps) && TokensInv(s) && HoldsInv(p, s)
    ensures TokensInv(Run(p, s, steps)) && HoldsInv(p, Run(p, s, steps))
    decreases |steps|
  {
    if steps != [] {
      TokensStep(p, s, steps[0]);
      HoldsStep(p, s, steps[0]);
      RunKeepsHolds(p, Next(p, s, steps[0]), steps[1..]);
    }
  }

  /** In every reachable state a request takes a key exactly when the key's latest
      claim is gone, ended, or read to be past its hold; a waiting claim holds its
      key like a running one. A refused request leaves the table alone. */
  lemma TakenExactlyWhen(p: Params, start: int, steps: seq<Step>, key: Key, token: Token, reading: int)
    requires Legal(p, Init(start), steps)
    requires Enabled(p, Run(p, Init(start), steps), Request(key, token, reading))
    ensures var s := Run(p, Init(start), steps);
            var t := Next(p, s, Request(key, token, reading));
            && (Took(key, token) in t.log <==>
                  match Holder(s.log, key)
                  case None => true
                  case Some(holder) =>
                    Ended(key, holder) in s.log || 1000 * (HoldOf(p.o, s.read, holder) + 1) <= reading)
            && (Took(key, token) !in t.log ==> t.table == s.table && t.pending == s.pending && t.log == s.log)
  {
    RunKeepsHistory(p, Init(start), steps);
    RunKeepsHolds(p, Init(start), steps);
    var s := Run(p, Init(start), steps);
    assert key in s.table ==> HoldIs(p.o, s.read, s.table[key]) && StateMatchesLog(key, s.table[key], s.log);
    assert Took(key, token) !in s.log;
  }

  /** No request on the key reads past the hold its latest claim has at that moment,
      and no TTL deletion meets the key. */
  ghost predicate WithinHold(p: Params, s: State, steps: seq<Step>, key: Key, token: Token)
    requires Legal(p, s, steps)
    decreases |steps|
  {
    steps == [] ||
    (&& (steps[0].Request? && steps[0].key == key ==> steps[0].reading < 1000 * (HoldOf(p.o, s.read, token) + 1))
     && !(steps[0].Expire? && steps[0].key == key)
     && WithinHold(p, Next(p, s, steps[0]), steps[1..], key, token))
  }

  lemma {:induction false} HeldInRun(p: Params, s: State, steps: seq<Step>, key: Key, token: Token)
    requires TokensInv(s) && HistoryInv(s) && HoldsInv(p, s) && Holder(s.log, key) == Some(token)
    requires Legal(p, s, steps) && WithinHold(p, s, steps, key, token)
    requires Ended(key, token) !in Run(p, s, steps).log
    ensures Holder(Run(p, s, steps).log, key) == Some(token)
    ensures forall other :: Took(key, other) in Run(p, s, steps).log ==> Took(key, other) in s.log
    decreases |steps|
  {
    if steps != [] {
      var t := Next(p, s, steps[0]);
      LogOnlyGrows(p, s, steps, Ended(key, token));
      LogOnlyGrows(p, t, steps[1..], Ended(key, token));
      HeldStep(p, s, steps[0], key, token);
      TokensStep(p, s, steps[0]);
      HistoryStep(p, s, steps[0]);
      HoldsStep(p, s, steps[0]);
      HeldInRun(p, t, steps[1..], key, token);
    }
  }

  /** A claim that has not ended keeps its key: whatever requests come up to its
      hold, none takes the key, from when it was taken until its work is over. */
  lemma HeldKeyIsNotRetaken(p: Params, start: int, before: seq<Step>, s: State, after: seq<Step>, key: Key,
          token: Token)
    requires Legal(p, Init(start), before) && s == Run(p, Init(start), before) && Holder(s.log, key) == Some(token)
    requires Legal(p, s, after) && WithinHold(p, s, after, key, token)
    requires Ended(key, token) !in Run(p, s, after).log
    ensures Holder(Run(p, s, after).log, key) == Some(token)
    ensures forall other :: Took(key, other) in Run(p, s, after).log ==> Took(key, other) in s.log
  {
    RunKeepsHistory(p, Init(start), before);
    RunKeepsHolds(p, Init(start), before);
    HeldInRun(p, s, after, key, token);
  }

  lemma HeldStep(p: Params, s: State, step: Step, key: Key, token: Token)
    requires TokensInv(s) && HistoryInv(s) && HoldsInv(p, s) && Holder(s.log, key) == Some(token)
    requires Enabled(p, s, step) && Ended(key, token) !in s.log
    requires step.Request? && step.key == key ==> step.reading < 1000 * (HoldOf(p.o, s.read, token) + 1)
    requires !(step.Expire? && step.key == key)
    ensures Holder(Next(p, s, step).log, key) == Some(token)
    ensures forall other :: Took(key, other) in Next(p, s, step).log ==> Took(key, other) in s.log
  {
    var news := NewsOf(p, s, step);
    if step.Request? && step.key == key {
      assert HoldIs(p.o, s.read, s.table[key]) && StateMatchesLog(key, s.table[key], s.log);
      assert !Claimable(s.table, key, Seconds(step.reading));
    }
    hide TokensInv, HistoryInv, HoldsInv, Next, Holder;
    HolderStays(s.log, news, key, token);
  }

  lemma HolderStays(log: seq<Event>, news: seq<Event>, key: Key, token: Token)
    requires Holder(log, key) == Some(token) && |news| <= 1
    requires news == [] || (!(news[0].Took? && news[0].key == key) && news[0] != Gone(key))
    ensures Holder(log + news, key) == Some(token)
    ensures forall other :: Took(key, other) in log + news ==> Took(key, other) in log
  {
    if news == [] {
      assert log + news == log;
    } else {
      HolderGrows(log, news[0]);
      assert news == [news[0]];
    }
  }

  /** The event a step adds to the log, if it adds one. */
  lemma NewsOf(p: Params, s: State, step: Step) returns (news: seq<Event>)
    requires Enabled(p, s, step)
    ensures Next(p, s, step).log == s.log + news && |news| <= 1
    ensures news != [] && news[0].Took? ==>
              step.Request? && news[0] == Took(step.key, step.token)
              && Claimable(s.table, step.key, Seconds(step.reading))
    ensures news != [] && news[0].Gone? ==> step.Expire? && news[0] == Gone(step.key)
  {
    hide Claimable, Claimed, Confirmed, Confirmable, Freed;
    news := Next(p, s, step).log[|s.log|..];
  }

  lemma {:induction false} LogOnlyGrows(p: Params, s: State, steps: seq<Step>, e: Event)
    requires Legal(p, s, steps)
    ensures e in s.log ==> e in Run(p, s, steps).log
    decreases |steps|
  {
    if steps != [] {
      LogOnlyGrows(p, Next(p, s, steps[0]), steps[1..], e);
    }
  }

  /** A record stays until the evidence time is over that was set when its claim was
      taken or started: with the default times a claim's late or repeated job finds
      it for over two hours and 20 minutes, where the jobs function gives up after one. */
  lemma EvidenceStays(p: Params, start: int, steps: seq<Step>, key: Key, reading: int)
    requires Legal(p, Init(start), steps)
    requires Enabled(p, Run(p, Init(start), steps), Expire(key, reading))
    ensures var s := Run(p, Init(start), steps);
            && Holder(s.log, key).Some?
            && var token := Holder(s.log, key).value;
            && token in s.read.tookAt
            && 1000 * (HoldOf(p.o, s.read, token) + p.o.evidenceSeconds) <= reading
            && (p.o == DEFAULTS ==>
                  if token in s.read.startedAt then s.read.startedAt[token] + 140 * 60 * 1000 - 1000 < reading
                  else s.read.tookAt[token] + 150 * 60 * 1000 - 1000 < reading)
  {
    RunKeepsHistory(p, Init(start), steps);
    RunKeepsHolds(p, Init(start), steps);
    var s := Run(p, Init(start), steps);
    assert HoldIs(p.o, s.read, s.table[key]);
  }

  /** Once a claim was superseded, started, released or deleted, its token never
      starts anything again. */
  lemma {:induction false} SpentTokenStaysSpent(p: Params, s: State, steps: seq<Step>, key: Key, token: Token)
    requires Legal(p, s, steps) && token in s.issued && !Confirmable(s.table, key, token)
    ensures !Confirmable(Run(p, s, steps).table, key, token)
    decreases |steps|
  {
    if steps != [] {
      SpentTokenStaysSpent(p, Next(p, s, steps[0]), steps[1..], key, token);
    }
  }

  /** A release with a token that is not the key's own leaves every record alone. */
  lemma StaleReleaseEndsNothing(table: Table, key: Key, token: Token)
    ensures Freed(table, key, token) == table <==>
            !Releasable(table, key, token) || table[key].state == Released
    ensures forall k :: k in table && table[k].token != token ==>
                          k in Freed(table, key, token) && Freed(table, key, token)[k] == table[k]
  {
    if Releasable(table, key, token) {
      assert Freed(table, key, token)[key].state == Released;
      if table[key].state == Released {
        assert Freed(table, key, token) == table;
      }
    }
  }

  /** The steps that can end or start this token's claim on purpose. */
  predicate SpendsToken(step: Step, token: Token) {
    (step.Abandon? || step.Deliver?) && step.token == token
  }

  predicate TakesKey(s: State, step: Step, key: Key) {
    step.Request? && step.key == key && Claimable(s.table, key, Seconds(step.reading))
  }

  ghost predicate NobodyRetakes(p: Params, s: State, steps: seq<Step>, key: Key)
    requires Legal(p, s, steps)
    decreases |steps|
  {
    steps == [] ||
    (!TakesKey(s, steps[0], key) && NobodyRetakes(p, Next(p, s, steps[0]), steps[1..], key))
  }

  lemma {:induction false} TimeOnlyGrows(p: Params, s: State, steps: seq<Step>)
    requires Legal(p, s, steps)
    ensures s.now <= Run(p, s, steps).now
    decreases |steps|
  {
    if steps != [] {
      TimeOnlyGrows(p, Next(p, s, steps[0]), steps[1..]);
    }
  }

  ghost predicate NotRunning(s: State, key: Key, token: Token) {
    forall i :: i in s.workers ==> s.workers[i].key != key || s.workers[i].token != token
  }

  lemma QueuedClaimStep(p: Params, s: State, step: Step, key: Key, token: Token)
    requires Enabled(p, s, step) && TokensInv(s) && Confirmable(s.table, key, token) && NotRunning(s, key, token)
    requires !SpendsToken(step, token) && !TakesKey(s, step, key)
    requires Seconds(s.now + p.lead) < s.table[key].expiresAt
    ensures var t := Next(p, s, step);
            NotRunning(t, key, token) && key in t.table && t.table[key] == s.table[key]
  {
    match step
    case Deliver(_, other, _) => assert other != token;
    case Finish(id) => assert s.workers[id].key != key || s.workers[id].token != token;
    case Abandon(other) => assert other != token;
    case _ =>
  }

  lemma {:induction false} QueuedClaimWaits(p: Params, s: State, steps: seq<Step>, key: Key, token: Token)
    requires Legal(p, s, steps) && TokensInv(s) && Confirmable(s.table, key, token) && NotRunning(s, key, token)
    requires forall i :: 0 <= i < |steps| ==> !SpendsToken(steps[i], token)
    requires NobodyRetakes(p, s, steps, key)
    requires Seconds(Run(p, s, steps).now + p.lead) < s.table[key].expiresAt
    ensures Confirmable(Run(p, s, steps).table, key, token)
    decreases |steps|
  {
    if steps != [] {
      TokensStep(p, s, steps[0]);
      TimeOnlyGrows(p, s, steps);
      QueuedClaimStep(p, s, steps[0], key, token);
      QueuedClaimWaits(p, Next(p, s, steps[0]), steps[1..], key, token);
    }
  }

  /** No lost work: a queued claim that nobody spends and whose key nobody
      retakes still starts when its job arrives before the record expires. */
  lemma WaitingJobStarts(p: Params, start: int, before: seq<Step>, s: State, after: seq<Step>, key: Key, token: Token)
    requires Legal(p, Init(start), before) && s == Run(p, Init(start), before)
    requires Confirmable(s.table, key, token)
    requires Legal(p, s, after) && NobodyRetakes(p, s, after, key)
    requires forall i :: 0 <= i < |after| ==> !SpendsToken(after[i], token)
    requires Seconds(Run(p, s, after).now + p.lead) < s.table[key].expiresAt
    ensures Confirmable(Run(p, s, after).table, key, token)
  {
    RunKeepsHistory(p, Init(start), before);
    assert NotRunning(s, key, token) by {
      assert StateMatchesLog(key, s.table[key], s.log);
    }
    QueuedClaimWaits(p, s, after, key, token);
  }

  ghost predicate NobodyStarts(p: Params, s: State, steps: seq<Step>, key: Key)
    requires Legal(p, s, steps)
    decreases |steps|
  {
    steps == [] ||
    (!(steps[0].Deliver? && s.jobs[steps[0].token] == key && Confirmable(s.table, key, steps[0].token))
     && NobodyStarts(p, Next(p, s, steps[0]), steps[1..], key))
  }

  lemma {:induction false} HoldsDoNotGrow(p: Params, s: State, steps: seq<Step>, key: Key)
    requires Legal(p, s, steps)
    requires NobodyRetakes(p, s, steps, key) && NobodyStarts(p, s, steps, key)
    ensures var t := Run(p, s, steps);
            key in t.table ==> key in s.table && t.table[key].heldUntil == s.table[key].heldUntil
    decreases |steps|
  {
    if steps != [] {
      HoldsDoNotGrow(p, Next(p, s, steps[0]), steps[1..], key);
    }
  }

  lemma {:induction false} RunKeepsRecords(p: Params, s: State, steps: seq<Step>)
    requires Sane(p) && Legal(p, s, steps) && RecordsInv(p, s)
    ensures RecordsInv(p, Run(p, s, steps))
    decreases |steps|
  {
    if steps != [] {
      RecordsStep(p, s, steps[0]);
      RunKeepsRecords(p, Next(p, s, steps[0]), steps[1..]);
    }
  }

  /** No key blocks for good: once the longer hold time plus a second, and the
      clock errors, have passed with no new claim or start on it, any request
      takes the key, whatever crashed before. */
  lemma KeyComesFree(p: Params, start: int, before: seq<Step>, s: State, after: seq<Step>, key: Key, reading: int)
    requires Sane(p) && Legal(p, Init(start), before) && s == Run(p, Init(start), before)
    requires Legal(p, s, after) && NobodyRetakes(p, s, after, key) && NobodyStarts(p, s, after, key)
    requires Readable(p, Run(p, s, after), reading)
    requires s.now + p.lag + p.lead + 1000 * (Longer(p.o) + 1) <= Run(p, s, after).now
    ensures Claimable(Run(p, s, after).table, key, Seconds(reading))
  {
    RunKeepsRecords(p, Init(start), before);
    HoldsDoNotGrow(p, s, after, key);
  }
}

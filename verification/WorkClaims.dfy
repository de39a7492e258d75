/** The claim table of apps/server/src/work-claims.dynamodb.ts and the worker
    wrapper of apps/server/src/lambda.jobs.ts. */
module WorkClaims {
  import opened Outcomes

  type Key = string
  type Token = nat

  datatype ClaimState = Queued | Running | Released

  datatype Item = Item(token: Token, state: ClaimState, heldUntil: int, expiresAt: int)

  type Table = map<Key, Item>

  /** How long a claim waits, runs and leaves evidence, in seconds. */
  datatype Options = Options(ttlSeconds: int, leaseSeconds: int, evidenceSeconds: int)

  /** The defaults of the source: 30 minutes, 20 minutes, 2 hours. */
  const DEFAULTS := Options(30 * 60, 20 * 60, 2 * 60 * 60)

  /** Math.floor(ms / 1000); Dafny's division rounds down for a positive divisor. */
  function Seconds(ms: int): int {
    ms / 1000
  }

  /** The second of the epoch that millisecond `ms` lies in. */
  predicate IsSecondOf(second: int, ms: int) {
    1000 * second <= ms < 1000 * (second + 1)
  }

  // The three conditional writes, as functions of the table. Each one is atomic
  // on the item of one key.

  predicate Claimable(table: Table, key: Key, now: int) {
    key !in table || table[key].heldUntil < now || table[key].state == Released
  }

  function Claimed(table: Table, key: Key, token: Token, now: int, o: Options): Table {
    var heldUntil := now + o.ttlSeconds;
    table[key := Item(token, Queued, heldUntil, heldUntil + o.evidenceSeconds)]
  }

  predicate Confirmable(table: Table, key: Key, token: Token) {
    key in table && table[key].token == token && table[key].state == Queued
  }

  function Confirmed(table: Table, key: Key, token: Token, now: int, o: Options): Table {
    var heldUntil := now + o.leaseSeconds;
    table[key := Item(token, Running, heldUntil, heldUntil + o.evidenceSeconds)]
  }

  predicate Releasable(table: Table, key: Key, token: Token) {
    key in table && table[key].token == token
  }

  function Freed(table: Table, key: Key, token: Token): Table {
    if Releasable(table, key, token) then table[key := table[key].(state := Released)] else table
  }

  /** The DynamoDB table: one item per key, shared by every instance. */
  class ClaimTable {
    var items: Table

    constructor ()
      ensures items == map[]
    {
      items := map[];
    }
  }

  /** What the work under a claim did. */
  datatype WorkOutcome = Finished | Threw

  class DynamoDbWorkClaims {
    const table: ClaimTable
    const options: Options

    constructor (table: ClaimTable, options: Options)
      ensures this.table == table && this.options == options
    {
      this.table := table;
      this.options := options;
    }

    /** `nowMs` is what the instance's clock reads, `token` a new claim id. A key
        whose claim still waits or runs is refused up to the last second of its hold. */
    method Claim(key: Key, token: Token, nowMs: int) returns (taken: Option<Token>)
      modifies table
      ensures taken == None || taken == Some(token)
      ensures taken.None? <==>
                && key in old(table.items)
                && (old(table.items)[key].state.Queued? || old(table.items)[key].state.Running?)
                && nowMs < 1000 * (old(table.items)[key].heldUntil + 1)
      ensures taken.None? ==> table.items == old(table.items)
      ensures taken.Some? ==>
                && table.items.Keys == old(table.items.Keys) + {key}
                && (forall k :: k in table.items && k != key ==> table.items[k] == old(table.items)[k])
                && table.items[key].token == token && table.items[key].state == Queued
                && IsSecondOf(table.items[key].heldUntil - options.ttlSeconds, nowMs)
                && table.items[key].expiresAt == table.items[key].heldUntil + options.evidenceSeconds
      ensures taken.Some? <==> old(Claimable(table.items, key, Seconds(nowMs)))
      ensures taken.Some? ==> table.items == Claimed(old(table.items), key, token, Seconds(nowMs), options)
    {
      var now := Seconds(nowMs);
      if key in table.items && table.items[key].heldUntil >= now && table.items[key].state != Released {
        return None;
      }
      var heldUntil := now + options.ttlSeconds;
      table.items := table.items[key := Item(token, Queued, heldUntil, heldUntil + options.evidenceSeconds)];
      return Some(token);
    }

    method Confirm(key: Key, token: Token, nowMs: int) returns (mayRun: bool)
      modifies table
      ensures mayRun <==>
                key in old(table.items) && old(table.items)[key].token == token && old(table.items)[key].state.Queued?
      ensures !mayRun ==> table.items == old(table.items)
      ensures mayRun ==>
                && table.items.Keys == old(table.items.Keys)
                && (forall k :: k in table.items && k != key ==> table.items[k] == old(table.items)[k])
                && table.items[key].token == token && table.items[key].state == Running
                && IsSecondOf(table.items[key].heldUntil - options.leaseSeconds, nowMs)
                && table.items[key].expiresAt == table.items[key].heldUntil + options.evidenceSeconds
      ensures mayRun == old(Confirmable(table.items, key, token)) && !Confirmable(table.items, key, token)
      ensures mayRun ==> table.items == Confirmed(old(table.items), key, token, Seconds(nowMs), options)
    {
      var heldUntil := Seconds(nowMs) + options.leaseSeconds;
      if key !in table.items || table.items[key].token != token || table.items[key].state != Queued {
        return false;
      }
      table.items := table.items[key := Item(token, Running, heldUntil, heldUntil + options.evidenceSeconds)];
      return true;
    }

    /** A stale token changes nothing, whoever holds the key by now. */
    method Release(key: Key, token: Token)
      modifies table
      ensures table.items == Freed(old(table.items), key, token)
      ensures table.items.Keys == old(table.items.Keys)
      ensures forall k :: k in table.items ==>
                table.items[k] ==
                  if k == key && old(table.items)[k].token == token
                  then old(table.items)[k].(state := Released) else old(table.items)[k]
    {
      if key in table.items && table.items[key].token == token {
        table.items := table.items[key := table.items[key].(state := Released)];
      }
    }

    /** The worker's wrapper: confirm, run, release whatever the work did. While
        the work runs other instances write the table: `others` is what they make
        of it. `during` is the table the work starts in; `thrown` tells whether the
        work's error reaches the caller. */
    method UnderClaim(key: Key, token: Token, nowMs: int, work: WorkOutcome, others: Table -> Table)
      returns (ran: bool, thrown: bool, ghost during: Table)
      modifies table
      ensures ran <==>
                key in old(table.items) && old(table.items)[key].token == token && old(table.items)[key].state.Queued?
      ensures !ran ==> table.items == old(table.items) && !thrown
      ensures ran ==>
                && key in during && during[key].token == token && during[key].state == Running
                && during == Confirmed(old(table.items), key, token, Seconds(nowMs), options)
                && table.items == Freed(others(during), key, token) && thrown == work.Threw?
      ensures ran && key in table.items && table.items[key].token == token ==> table.items[key].state == Released
    {
      during := table.items;
      var mayRun := Confirm(key, token, nowMs);
      if !mayRun {
        return false, false, during;
      }
      during := table.items;
      table.items := others(table.items);
      Release(key, token);
      return true, work.Threw?, during;
    }
  }
}

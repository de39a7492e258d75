/** The DynamoDB session store of apps/server/src/mcp-session.dynamodb-store.ts,
    and how far it agrees with the in-memory one. */
module SessionTable {
  import opened Outcomes
  import opened Lists
  import opened SessionEviction
  import opened SessionStore

  /** A stored session and its TTL attribute, in epoch seconds. */
  datatype Item = Item(record: Session, expiresAt: int)

  type Table = map<string, Item>

  /** Math.floor((lastSeenAt + MCP_SESSION_IDLE_TTL_MS) / 1000) */
  function ExpiresAt(lastSeenAt: int): int {
    (lastSeenAt + IDLE_TTL_MS) / 1000
  }

  function Stored(r: Session): Item {
    Item(r, ExpiresAt(r.lastSeenAt))
  }

  ghost predicate WellFormed(table: Table) {
    forall id :: id in table ==> table[id].record.sessionId == id && table[id] == Stored(table[id].record)
  }

  /** What the owner index answers: the owner's ids, oldest first. The order of
      equal stamps is DynamoDB's to choose. */
  ghost predicate IsListing(table: Table, owner: string, ids: seq<string>) {
    && (forall i, j :: 0 <= i < j < |ids| ==> ids[i] != ids[j])
    && (forall id :: id in ids <==> id in table && table[id].record.owner == owner)
    && (forall i, j :: 0 <= i < j < |ids| ==> table[ids[i]].record.lastSeenAt <= table[ids[j]].record.lastSeenAt)
  }

  function Without(table: Table, ids: seq<string>): Table {
    map id | id in table && id !in ids :: table[id]
  }

  function Excess(ids: seq<string>, max: nat): nat {
    if |ids| <= max then 0 else |ids| - max
  }

  predicate TableResumable(table: Table, id: string, owner: string, at: int) {
    id in table && table[id].record.owner == owner && table[id].expiresAt > at / 1000
  }

  function TableAfterResume(table: Table, id: string, owner: string, at: int): Table {
    if TableResumable(table, id, owner, at)
    then table[id := Stored(table[id].record.(lastSeenAt := at))]
    else table
  }

  function TableAnswer(table: Table, id: string, owner: string, at: int): Option<Session> {
    if TableResumable(table, id, owner, at) then Some(table[id].record.(lastSeenAt := at)) else None
  }

  function TableAfterAttach(table: Table, id: string, scope: string): Table {
    if id in table then table[id := table[id].(record := table[id].record.(defaultScope := Some(scope)))] else table
  }

  function TableAfterClose(table: Table, id: string, owner: string): Table {
    if id in table && table[id].record.owner == owner then Without(table, [id]) else table
  }

  datatype OpenError = AlreadyExists

  class DynamoDbMcpSessionStore {
    var table: Table
    const maxSessionsPerUser: Positive

    constructor (maxSessionsPerUser: Positive)
      ensures table == map[] && this.maxSessionsPerUser == maxSessionsPerUser
    {
      table := map[];
      this.maxSessionsPerUser := maxSessionsPerUser;
    }

    /** `listing` is what the owner index answers after the put. An existing id
        fails the put's condition, and the error reaches the caller. */
    method Open(record: Session, listing: seq<string>) returns (dropped: Result<seq<string>, OpenError>)
      requires WellFormed(table)
      requires record.sessionId !in table ==>
                 IsListing(table[record.sessionId := Stored(record)], record.owner, listing)
      modifies this
      ensures WellFormed(table)
      ensures dropped.Err? <==> record.sessionId in old(table)
      ensures dropped.Err? ==> table == old(table)
      ensures dropped.Ok? ==>
                && dropped.value == listing[..Excess(listing, maxSessionsPerUser)]
                && table == Without(old(table)[record.sessionId := Stored(record)], dropped.value)
    {
      if record.sessionId in table {
        return Err(AlreadyExists);
      }
      table := table[record.sessionId := Item(record, ExpiresAt(record.lastSeenAt))];
      var ids := DropOwnOverCap(record.owner, listing);
      return Ok(ids);
    }

    method DropOwnOverCap(owner: string, listing: seq<string>) returns (dropped: seq<string>)
      requires WellFormed(table) && IsListing(table, owner, listing)
      modifies this
      ensures WellFormed(table)
      ensures dropped == listing[..Excess(listing, maxSessionsPerUser)]
      ensures table == Without(old(table), dropped)
    {
      if |listing| <= maxSessionsPerUser {
        assert Without(table, []) == table;
        return [];
      }
      dropped := listing[..|listing| - maxSessionsPerUser];
      table := Without(table, dropped);
    }

    method Resume(sessionId: string, owner: string, at: int) returns (found: Option<Session>)
      requires WellFormed(table)
      modifies this
      ensures WellFormed(table)
      ensures found == TableAnswer(old(table), sessionId, owner, at)
      ensures table == TableAfterResume(old(table), sessionId, owner, at)
    {
      if sessionId !in table || table[sessionId].record.owner != owner || table[sessionId].expiresAt <= at / 1000 {
        return None;
      }
      var record := table[sessionId].record.(lastSeenAt := at);
      table := table[sessionId := Item(record, ExpiresAt(at))];
      return Some(record);
    }

    method AttachScope(sessionId: string, scope: string)
      requires WellFormed(table)
      modifies this
      ensures WellFormed(table)
      ensures table == TableAfterAttach(old(table), sessionId, scope)
    {
      if sessionId in table {
        table := table[sessionId := table[sessionId].(record := table[sessionId].record.(defaultScope := Some(scope)))];
      }
    }

    method Close(sessionId: string, owner: string) returns (ended: bool)
      requires WellFormed(table)
      modifies this
      ensures WellFormed(table)
      ensures ended <==> sessionId in old(table) && old(table)[sessionId].record.owner == owner
      ensures table == TableAfterClose(old(table), sessionId, owner)
    {
      if sessionId !in table || table[sessionId].record.owner != owner {
        return false;
      }
      table := Without(table, [sessionId]);
      return true;
    }
  }

  // ---- Rounding ---------------------------------------------------------------

  /** Still live in the table's whole seconds at clock `now`. */
  predicate TableLive(lastSeenAt: int, now: int) {
    ExpiresAt(lastSeenAt) > now / 1000
  }

  /** The least stamp that is still live in whole seconds. */
  function TableCutoff(now: int): int {
    (now / 1000 + 1) * 1000 - IDLE_TTL_MS
  }

  lemma LiveSinceCutoff(lastSeenAt: int, now: int)
    ensures TableLive(lastSeenAt, now) <==> TableCutoff(now) <= lastSeenAt
  {
  }

  /** Rounding only ever shortens a session, and by less than a second. */
  lemma RoundingGap(lastSeenAt: int, now: int)
    ensures TableLive(lastSeenAt, now) ==> lastSeenAt >= now - IDLE_TTL_MS
    ensures lastSeenAt >= now - IDLE_TTL_MS && !TableLive(lastSeenAt, now) ==>
              0 <= lastSeenAt + IDLE_TTL_MS - now < 1000
  {
  }

  // ---- Who survives a cap -----------------------------------------------------

  function OwnSince(owner: string, at: int): Session -> bool {
    (r: Session) => r.owner == owner && at <= r.lastSeenAt
  }

  /** How many of the owner's entries are stamped `at` or later. */
  function CountSince(owner: string, s: Sessions, at: int): nat {
    |Filter(OwnSince(owner, at), s)|
  }

  function Min(a: nat, b: nat): nat {
    if a < b then a else b
  }

  function IdSet(s: Sessions): set<string> {
    set r | r in s :: r.sessionId
  }

  lemma {:induction false} IdSetSize(s: Sessions)
    requires Distinct(s)
    ensures |IdSet(s)| == |s|
  {
    if s != [] {
      IdSetSize(s[1..]);
      assert s == [s[0]] + s[1..];
      assert IdSet(s) == {s[0].sessionId} + IdSet(s[1..]);
      assert s[0].sessionId !in IdSet(s[1..]);
    }
  }

  lemma {:induction false} FilterKeepsDistinct(p: Session -> bool, s: Sessions)
    requires Distinct(s)
    ensures Distinct(Filter(p, s))
  {
    if s != [] {
      FilterKeepsDistinct(p, s[1..]);
      FilterMembers(p, s[1..]);
      var rest := Filter(p, s[1..]);
      forall j | 0 <= j < |rest| ensures rest[j].sessionId != s[0].sessionId {
        assert rest[j] in rest && rest[j] in s[1..];
      }
    }
  }

  lemma SinceIsSelect(owner: string, s: Sessions, at: int)
    ensures Filter(OwnSince(owner, at), s) == Select(OwnedBy(owner), Live(s, at))
  {
    FilterTwice(SeenSince(at), Counted(OwnedBy(owner)), OwnSince(owner, at), s);
  }

  /** Of the owner's entries stamped `at` or later the cap keeps as many as fit,
      whatever stamps they share. */
  lemma TrimKeepsCount(owner: string, s: Sessions, max: nat, at: int)
    ensures CountSince(owner, Trim(OwnedBy(owner), s, max), at) == Min(max, CountSince(owner, s, at))
  {
    hide Trim, Live;
    SinceIsSelect(owner, s, at);
    SinceIsSelect(owner, Trim(OwnedBy(owner), s, max), at);
    SweepCommutesWithTrim(OwnedBy(owner), s, max, at);
    TrimMeetsCap(OwnedBy(owner), Live(s, at), max);
  }

  lemma CountedSince(owner: string, s: Sessions, at: int, x: Session)
    requires x.owner == owner
    ensures x in Filter(OwnSince(owner, at), s) <==> x in s && at <= x.lastSeenAt
  {
    FilterMembers(OwnSince(owner, at), s);
  }

  /** Fewer are counted from a later stamp on. */
  lemma {:induction false} CountFalls(owner: string, s: Sessions, at: int, later: int)
    requires at <= later
    ensures CountSince(owner, s, later) <= CountSince(owner, s, at)
    ensures forall x :: x in s && x.owner == owner && at <= x.lastSeenAt < later ==>
              CountSince(owner, s, later) < CountSince(owner, s, at)
  {
    if s != [] {
      CountFalls(owner, s[1..], at, later);
    }
  }

  /** An entry survives its owner's cap when at most `max` of the owner's entries
      are as new, and goes when `max` are newer: entries of the same stamp share
      their fate only if the cut does not fall between them. */
  lemma SurvivesByRank(owner: string, s: Sessions, max: nat, x: Session)
    requires x in s && x.owner == owner
    ensures CountSince(owner, s, x.lastSeenAt) <= max ==> x in Trim(OwnedBy(owner), s, max)
    ensures max <= CountSince(owner, s, x.lastSeenAt + 1) ==> x !in Trim(OwnedBy(owner), s, max)
  {
    hide Trim, Live;
    var kept := Trim(OwnedBy(owner), s, max);
    var t := x.lastSeenAt;
    TrimKeepsCount(owner, s, max, t);
    TrimKeepsCount(owner, s, max, t + 1);
    CountFalls(owner, kept, t, t + 1);
    if CountSince(owner, s, t) <= max {
      WithinCapAllStay(owner, s, max, t);
      CountedSince(owner, s, t, x);
      CountedSince(owner, kept, t, x);
    }
  }

  lemma WithinCapAllStay(owner: string, s: Sessions, max: nat, at: int)
    requires CountSince(owner, s, at) <= max
    ensures Filter(OwnSince(owner, at), Trim(OwnedBy(owner), s, max)) == Filter(OwnSince(owner, at), s)
  {
    hide Live;
    var who := OwnedBy(owner);
    SinceIsSelect(owner, s, at);
    SweepCommutesWithTrim(who, s, max, at);
    assert Trim(who, Live(s, at), max) == Live(s, at);
    SinceIsSelect(owner, s, at);
    SinceIsSelect(owner, Trim(who, s, max), at);
  }

  function TableSince(table: Table, owner: string, at: int): set<string> {
    set id | id in table && table[id].record.owner == owner && at <= table[id].record.lastSeenAt
  }

  function Members(ids: seq<string>): set<string> {
    set id | id in ids
  }

  lemma {:induction false} DistinctSize(ids: seq<string>)
    requires forall i, j :: 0 <= i < j < |ids| ==> ids[i] != ids[j]
    ensures |Members(ids)| == |ids|
  {
    if ids != [] {
      DistinctSize(ids[1..]);
      assert Members(ids) == {ids[0]} + Members(ids[1..]);
    }
  }

  /** What is stamped `at` or later stands at the end of the listing. */
  lemma SinceIsListedLast(table: Table, owner: string, ids: seq<string>, at: int) returns (k: nat)
    requires IsListing(table, owner, ids)
    ensures k <= |ids| && Members(ids[k..]) == TableSince(table, owner, at)
    ensures |TableSince(table, owner, at)| == |ids| - k
    ensures forall i :: 0 <= i < |ids| ==> (k <= i <==> at <= table[ids[i]].record.lastSeenAt)
  {
    k := |ids|;
    while 0 < k && at <= table[ids[k - 1]].record.lastSeenAt
      invariant 0 <= k <= |ids|
      invariant forall i :: k <= i < |ids| ==> at <= table[ids[i]].record.lastSeenAt
    {
      k := k - 1;
    }
    EndIsSet(ids, k, TableSince(table, owner, at));
    DistinctSize(ids[k..]);
  }

  /** A set that takes from a listing just its end. */
  lemma EndIsSet(ids: seq<string>, k: nat, ends: set<string>)
    requires k <= |ids|
    requires forall id :: id in ends ==> id in ids
    requires forall i :: 0 <= i < |ids| ==> (ids[i] in ends <==> k <= i)
    ensures Members(ids[k..]) == ends
  {
    forall id | id in ends ensures id in ids[k..] {
      var i :| 0 <= i < |ids| && ids[i] == id;
      assert ids[k..][i - k] == id;
    }
    forall id | id in ids[k..] ensures id in ends {
      var i :| 0 <= i < |ids[k..]| && ids[k..][i] == id;
      assert ids[k + i] == id;
    }
  }

  /** In the table, an item outlives the drop when at most `max` of the owner's
      items are as new, and goes when `max` are newer, whatever order the index
      gives equal stamps. */
  lemma ListedByRank(table: Table, owner: string, ids: seq<string>, max: nat, id: string)
    requires IsListing(table, owner, ids) && id in ids
    ensures id in table
    ensures var t := table[id].record.lastSeenAt;
            var left := Without(table, ids[..Excess(ids, max)]);
            && (|TableSince(table, owner, t)| <= max ==> id in left)
            && (max <= |TableSince(table, owner, t + 1)| ==> id !in left)
  {
    var t := table[id].record.lastSeenAt;
    var p :| 0 <= p < |ids| && ids[p] == id;
    var k := SinceIsListedLast(table, owner, ids, t);
    var l := SinceIsListedLast(table, owner, ids, t + 1);
    hide IsListing, TableSince;
    DroppedIsBefore(ids, Excess(ids, max), p);
  }

  lemma DroppedIsBefore(ids: seq<string>, cut: nat, p: nat)
    requires cut <= |ids| && p < |ids| && forall i, j :: 0 <= i < j < |ids| ==> ids[i] != ids[j]
    ensures ids[p] in ids[..cut] <==> p < cut
  {
    if p < cut {
      assert ids[..cut][p] == ids[p];
    }
  }

  /** Of the owner's items stamped `at` or later the drop keeps as many as fit,
      whatever order the index gives equal stamps. */
  lemma DropKeepsCount(table: Table, owner: string, ids: seq<string>, max: nat, at: int)
    requires IsListing(table, owner, ids)
    ensures |TableSince(Without(table, ids[..Excess(ids, max)]), owner, at)|
         == Min(max, |TableSince(table, owner, at)|)
  {
    var cut := Excess(ids, max);
    var k := SinceIsListedLast(table, owner, ids, at);
    var from := if k < cut then cut else k;
    var left := TableSince(Without(table, ids[..cut]), owner, at);
    forall i | 0 <= i < |ids| ensures ids[i] in left <==> from <= i {
      DroppedIsBefore(ids, cut, i);
    }
    hide Without;
    LeftIsListed(table, owner, ids, cut, at);
    EndIsSet(ids, from, left);
    DistinctSize(ids[from..]);
  }

  lemma LeftIsListed(table: Table, owner: string, ids: seq<string>, cut: nat, at: int)
    requires IsListing(table, owner, ids) && cut <= |ids|
    ensures forall id :: id in TableSince(Without(table, ids[..cut]), owner, at) ==> id in ids
  {
  }
}

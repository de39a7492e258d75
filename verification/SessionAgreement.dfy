/** The two session stores fed the same requests: they answer alike until a
    request hits the last second of a session's idle time. */
module SessionAgreement {
  import opened Outcomes
  import opened Lists
  import opened SessionEviction
  import opened SessionStore
  import opened SessionTable
  import opened SessionRuns

  /** `shared` is a request both stores serve (with the clock as stamp), `listing`
      what the table's index answers an open; `Forget` is a lazy TTL deletion. */
  datatype Both =
    | Shared(op: Op, listing: seq<string>)
    | Forget(id: string)

  /** The sessions the table still resumes are the same records in both stores. */
  ghost predicate Agree(s: Sessions, table: Table, now: int) {
    && (forall r :: r in s && TableLive(r.lastSeenAt, now) ==> r.sessionId in table && table[r.sessionId].record == r)
    && (forall id :: id in table && TableLive(table[id].record.lastSeenAt, now) ==> table[id].record in s)
  }

  function InMemory(caps: Caps, s: Sessions, now: int, step: Both): Sessions {
    if step.Shared? then After(caps, s, now, step.op) else s
  }

  function InTable(caps: Caps, table: Table, now: int, step: Both): Table {
    match step
    case Forget(id) => Without(table, [id])
    case Shared(op, listing) =>
      match op
      case Open(r) => Without(table[r.sessionId := Stored(r)], listing[..Excess(listing, caps.maxPerUser)])
      case Resume(id, owner, at) => TableAfterResume(table, id, owner, at)
      case Attach(id, scope) => TableAfterAttach(table, id, scope)
      case HangUp(id, owner, at) =>
        if TableResumable(table, id, owner, at)
        then TableAfterClose(TableAfterResume(table, id, owner, at), id, owner)
        else table
      case Close(id, owner) => TableAfterClose(table, id, owner)
      case Tick(_) => table
      case Sweep => table
  }

  function Time(now: int, step: Both): int {
    if step.Shared? then Clock(now, step.op) else now
  }

  predicate Asks(step: Both) {
    step.Shared? && (step.op.Resume? || step.op.HangUp?)
  }

  function FromMemory(s: Sessions, now: int, op: Op): Option<Session>
    requires op.Resume? || op.HangUp?
  {
    ResumeAnswer(s, op.id, op.owner, op.at, now)
  }

  function FromTable(table: Table, op: Op): Option<Session>
    requires op.Resume? || op.HangUp?
  {
    TableAnswer(table, op.id, op.owner, op.at)
  }

  /** The owner's cap does not fall between live entries of one stamp: of those
      stamped alike all fit, or none does. */
  ghost predicate NoTieAtCut(owner: string, s: Sessions, max: nat, now: int) {
    forall x :: x in s && x.owner == owner && TableLive(x.lastSeenAt, now) ==> StandsClear(owner, s, max, x.lastSeenAt)
  }

  predicate StandsClear(owner: string, s: Sessions, max: nat, at: int) {
    CountSince(owner, s, at) <= max || max <= CountSince(owner, s, at + 1)
  }

  /** What the comparison takes for granted: generated ids, requests stamped with
      the clock, TTL deleting only the expired, no live tie at the opener's cut
      (DynamoDB orders equal stamps as it likes), and the global cap, which the
      table does not have, not reached. */
  ghost predicate Fair(caps: Caps, s: Sessions, table: Table, now: int, step: Both) {
    match step
    case Forget(id) => id in table ==> !TableLive(table[id].record.lastSeenAt, now)
    case Shared(op, listing) =>
      match op
      case Open(r) =>
        && !Has(s, r.sessionId) && r.sessionId !in table
        && IsListing(table[r.sessionId := Stored(r)], r.owner, listing)
        && NoTieAtCut(r.owner, s + [r], caps.maxPerUser, now)
        && |Trim(OwnedBy(r.owner), s + [r], caps.maxPerUser)| <= caps.maxSessions
      case Resume(_, _, at) => at == now
      case HangUp(_, _, at) => at == now
      case _ => true
  }

  // ---- One request ---------------------------------------------------------------

  /** What the table resumes the map resumes, with the same record; where only
      the map resumes, less than a second of the idle time is left. */
  lemma AnswersAgree(s: Sessions, table: Table, now: int, id: string, owner: string)
    requires Distinct(s) && WellFormed(table) && Agree(s, table, now)
    ensures var m, t := ResumeAnswer(s, id, owner, now, now), TableAnswer(table, id, owner, now);
            && (t.Some? ==> m == t)
            && (m.Some? && t.None? ==>
                  var left := s[IndexOf(s, id)].lastSeenAt + IDLE_TTL_MS - now; 0 <= left < 1000)
  {
    if TableResumable(table, id, owner, now) {
      var r := table[id].record;
      var i :| 0 <= i < |s| && s[i] == r;
      IndexOfDistinct(s, i);
      RoundingGap(r.lastSeenAt, now);
    } else if Resumable(s, id, owner, now) {
      RoundingGap(s[IndexOf(s, id)].lastSeenAt, now);
    }
  }

  lemma AgreeAfterPut(s: Sessions, table: Table, now: int, r: Session)
    requires Agree(s, table, now) && WellFormed(table) && !Has(s, r.sessionId) && r.sessionId !in table
    ensures Agree(s + [r], table[r.sessionId := Stored(r)], now) && WellFormed(table[r.sessionId := Stored(r)])
  {
    IndexOfAbsent(s, r.sessionId);
  }

  /** From a live stamp on the two stores count the same sessions of an owner. */
  lemma SameCount(s: Sessions, table: Table, now: int, owner: string, at: int)
    requires Distinct(s) && WellFormed(table) && Agree(s, table, now) && TableLive(at, now)
    ensures CountSince(owner, s, at) == |TableSince(table, owner, at)|
  {
    var own := Filter(OwnSince(owner, at), s);
    FilterKeepsDistinct(OwnSince(owner, at), s);
    IdSetSize(own);
    FilterMembers(OwnSince(owner, at), s);
    assert IdSet(own) == TableSince(table, owner, at) by {
      forall id | id in TableSince(table, owner, at) ensures id in IdSet(own) {
        assert table[id].record in own;
      }
    }
  }

  /** Whatever stamps are shared and however the index orders them, a cap leaves
      both stores the same number of the owner's live sessions. */
  lemma SameNumberKept(s: Sessions, table: Table, now: int, owner: string, listing: seq<string>, max: nat)
    requires Distinct(s) && WellFormed(table) && Agree(s, table, now) && IsListing(table, owner, listing)
    ensures CountSince(owner, Trim(OwnedBy(owner), s, max), TableCutoff(now))
         == |TableSince(Without(table, listing[..Excess(listing, max)]), owner, TableCutoff(now))|
  {
    LiveSinceCutoff(TableCutoff(now), now);
    SameCount(s, table, now, owner, TableCutoff(now));
    TrimKeepsCount(owner, s, max, TableCutoff(now));
    DropKeepsCount(table, owner, listing, max, TableCutoff(now));
  }

  lemma AgreeAfterDrop(s: Sessions, table: Table, now: int, owner: string, listing: seq<string>, max: nat)
    requires Distinct(s) && WellFormed(table) && Agree(s, table, now)
    requires IsListing(table, owner, listing) && NoTieAtCut(owner, s, max, now)
    ensures Agree(Trim(OwnedBy(owner), s, max), Without(table, listing[..Excess(listing, max)]), now)
  {
    var kept := Trim(OwnedBy(owner), s, max);
    var left := Without(table, listing[..Excess(listing, max)]);
    TrimKeepsOnlyMembers(OwnedBy(owner), s, max);
    forall r | r in s && TableLive(r.lastSeenAt, now)
      ensures r in kept <==> r.sessionId in left
    {
      SameFate(s, table, now, owner, listing, max, r);
    }
  }

  /** A session live in both stores is dropped by both or by neither, unless the
      owner's cut falls between it and another live session of the same stamp. */
  lemma SameFate(s: Sessions, table: Table, now: int, owner: string, listing: seq<string>, max: nat, r: Session)
    requires Distinct(s) && WellFormed(table) && Agree(s, table, now) && IsListing(table, owner, listing)
    requires r in s && TableLive(r.lastSeenAt, now)
    requires r.owner == owner ==> StandsClear(owner, s, max, r.lastSeenAt)
    ensures r in Trim(OwnedBy(owner), s, max) <==> r.sessionId in Without(table, listing[..Excess(listing, max)])
  {
    hide Trim, Without, CountSince, TableSince;
    if r.owner == owner {
      SurvivesByRank(owner, s, max, r);
      ListedByRank(table, owner, listing, max, r.sessionId);
      SameCount(s, table, now, owner, r.lastSeenAt);
      SameCount(s, table, now, owner, r.lastSeenAt + 1);
    } else {
      OthersStay(s, owner, max, r);
      UnlistedStays(table, listing, Excess(listing, max), r.sessionId);
    }
  }

  lemma OthersStay(s: Sessions, owner: string, max: nat, r: Session)
    requires r in s && r.owner != owner
    ensures r in Trim(OwnedBy(owner), s, max)
  {
    TrimSparesOthers(owner, r.owner, s, max);
    SelectMembers(r.owner, s, r);
    SelectMembers(r.owner, Trim(OwnedBy(owner), s, max), r);
  }

  lemma UnlistedStays(table: Table, listing: seq<string>, cut: nat, id: string)
    requires id in table && id !in listing && cut <= |listing|
    ensures id in Without(table, listing[..cut])
  {
  }

  lemma SelectMembers(owner: string, s: Sessions, r: Session)
    requires r.owner == owner
    ensures r in Select(OwnedBy(owner), s) <==> r in s
  {
    FilterMembers(Counted(OwnedBy(owner)), s);
  }

  // ---- A tie at the cut ----------------------------------------------------------------

  function StampOf(table: Table, id: string): int {
    if id in table then table[id].record.lastSeenAt else 0
  }

  /** Distinct ids in the order of their stamps, `first` ahead of its equals. */
  ghost predicate Ranked(table: Table, ids: seq<string>, first: string) {
    && (forall i, j :: 0 <= i < j < |ids| ==> ids[i] != ids[j])
    && (forall i, j :: 0 <= i < j < |ids| ==> StampOf(table, ids[i]) <= StampOf(table, ids[j]))
    && (forall i, j :: 0 <= i < j < |ids| && ids[j] == first ==> StampOf(table, ids[i]) < StampOf(table, first))
  }

  /** One more id goes behind those of its own stamp. */
  lemma RankOneMore(table: Table, ids: seq<string>, first: string, id: string) returns (more: seq<string>)
    requires Ranked(table, ids, first) && id !in ids && id != first
    ensures Ranked(table, more, first) && forall x :: x in more <==> x in ids || x == id
  {
    var k := |ids|;
    while 0 < k && StampOf(table, id) < StampOf(table, ids[k - 1])
      invariant 0 <= k <= |ids|
      invariant forall i :: k <= i < |ids| ==> StampOf(table, id) < StampOf(table, ids[i])
    {
      k := k - 1;
    }
    more := ids[..k] + [id] + ids[k..];
    PutBetween(ids, id, k);
    PutKeepsRank(table, ids, more, first, id, k);
  }

  lemma PutBetween(ids: seq<string>, id: string, k: nat)
    requires k <= |ids|
    ensures var more := ids[..k] + [id] + ids[k..];
            && |more| == |ids| + 1 && more[k] == id
            && (forall i :: 0 <= i < |more| && i != k ==> more[i] == ids[if i < k then i else i - 1])
            && forall x :: x in more <==> x in ids || x == id
  {
    assert ids == ids[..k] + ids[k..];
  }

  lemma PutKeepsRank(table: Table, ids: seq<string>, more: seq<string>, first: string, id: string, k: nat)
    requires Ranked(table, ids, first) && id !in ids && id != first
    requires k <= |ids| && |more| == |ids| + 1 && more[k] == id
    requires forall i :: 0 <= i < |more| && i != k ==> more[i] == ids[if i < k then i else i - 1]
    requires forall i :: k <= i < |ids| ==> StampOf(table, id) < StampOf(table, ids[i])
    requires k == 0 || StampOf(table, ids[k - 1]) <= StampOf(table, id)
    ensures Ranked(table, more, first)
  {
    forall i, j | 0 <= i < j < |more|
      ensures more[i] != more[j] && StampOf(table, more[i]) <= StampOf(table, more[j])
      ensures more[j] == first ==> StampOf(table, more[i]) < StampOf(table, first)
    {
      PairIsRanked(table, ids, first, id, k, i, j);
    }
  }

  /** Two places of the longer list, in terms of the shorter one. */
  lemma PairIsRanked(table: Table, ids: seq<string>, first: string, id: string, k: nat, i: nat, j: nat)
    requires Ranked(table, ids, first) && id !in ids && id != first && k <= |ids|
    requires forall l :: k <= l < |ids| ==> StampOf(table, id) < StampOf(table, ids[l])
    requires k == 0 || StampOf(table, ids[k - 1]) <= StampOf(table, id)
    requires i < j <= |ids|
    ensures var a := if i == k then id else ids[if i < k then i else i - 1];
            var b := if j == k then id else ids[if j < k then j else j - 1];
            && a != b && StampOf(table, a) <= StampOf(table, b)
            && (b == first ==> StampOf(table, a) < StampOf(table, first))
  {
    hide StampOf;
    if j == k && i < k - 1 {
      assert StampOf(table, ids[i]) <= StampOf(table, ids[k - 1]);
    }
  }

  /** The index may list any id ahead of its equals. */
  lemma {:induction false} RankAll(table: Table, all: set<string>, first: string) returns (ids: seq<string>)
    requires first in all
    ensures Ranked(table, ids, first) && forall x :: x in ids <==> x in all
    decreases |all|
  {
    if all == {first} {
      ids := [first];
    } else {
      var id :| id in all && id != first;
      ids := RankAll(table, all - {id}, first);
      ids := RankOneMore(table, ids, first, id);
    }
  }

  lemma RankedIsListing(table: Table, owner: string, ids: seq<string>, first: string)
    requires Ranked(table, ids, first)
    requires forall id :: id in ids <==> id in table && table[id].record.owner == owner
    ensures IsListing(table, owner, ids)
  {
    forall i, j | 0 <= i < j < |ids| ensures table[ids[i]].record.lastSeenAt <= table[ids[j]].record.lastSeenAt {
      assert StampOf(table, ids[i]) <= StampOf(table, ids[j]);
    }
  }

  lemma TiedMember(owner: string, s: Sessions, at: int) returns (x: Session)
    requires CountSince(owner, s, at + 1) < CountSince(owner, s, at)
    ensures x in s && x.owner == owner && x.lastSeenAt == at
  {
    if forall y :: y in s && y.owner == owner ==> y.lastSeenAt != at {
      SameFilter(owner, s, at);
    }
    x :| x in s && x.owner == owner && x.lastSeenAt == at;
  }

  lemma {:induction false} SameFilter(owner: string, s: Sessions, at: int)
    requires forall y :: y in s && y.owner == owner ==> y.lastSeenAt != at
    ensures CountSince(owner, s, at + 1) == CountSince(owner, s, at)
  {
    if s != [] {
      SameFilter(owner, s[1..], at);
    }
  }

  /** With a live tie at the cut the index has a listing that tells the stores
      apart: the map keeps a live session, with its idle time not nearly over,
      that the table drops. */
  lemma TieTellsThemApart(s: Sessions, table: Table, now: int, owner: string, max: nat, at: int)
    returns (listing: seq<string>, y: Session)
    requires Distinct(s) && WellFormed(table) && Agree(s, table, now)
    requires TableLive(at, now) && !StandsClear(owner, s, max, at)
    ensures IsListing(table, owner, listing)
    ensures y in s && y.owner == owner && y.lastSeenAt == at
    ensures y in Trim(OwnedBy(owner), s, max)
    ensures y.sessionId !in Without(table, listing[..Excess(listing, max)])
  {
    var kept := Trim(OwnedBy(owner), s, max);
    TrimKeepsCount(owner, s, max, at);
    TrimKeepsCount(owner, s, max, at + 1);
    y := TiedMember(owner, kept, at);
    TrimKeepsOnlyMembers(OwnedBy(owner), s, max);
    var all := set id | id in table && table[id].record.owner == owner;
    listing := RankAll(table, all, y.sessionId);
    RankedIsListing(table, owner, listing, y.sessionId);
    FirstIsDropped(s, table, now, owner, listing, max, y);
  }

  lemma NothingTiedBefore(table: Table, ids: seq<string>, i: nat, p: nat)
    requires i < |ids| && p < |ids| && Ranked(table, ids, ids[p])
    requires ids[i] in table && ids[p] in table
    ensures i < p ==> table[ids[i]].record.lastSeenAt < table[ids[p]].record.lastSeenAt
  {
  }

  lemma FirstIsDropped(s: Sessions, table: Table, now: int, owner: string, listing: seq<string>, max: nat, y: Session)
    requires Distinct(s) && WellFormed(table) && Agree(s, table, now) && IsListing(table, owner, listing)
    requires y in s && y.owner == owner && TableLive(y.lastSeenAt, now) && max < CountSince(owner, s, y.lastSeenAt)
    requires Ranked(table, listing, y.sessionId)
    ensures y.sessionId !in Without(table, listing[..Excess(listing, max)])
  {
    var k := SinceIsListedLast(table, owner, listing, y.lastSeenAt);
    SameCount(s, table, now, owner, y.lastSeenAt);
    var p :| 0 <= p < |listing| && listing[p] == y.sessionId;
    NothingTiedBefore(table, listing, k, p);
    DroppedIsBefore(listing, Excess(listing, max), p);
  }

  /** The two stores agree after an open whatever the index lists if and only if
      no live tie stands at the opener's cut. */
  lemma DropsAgreeExactly(s: Sessions, table: Table, now: int, owner: string, max: nat)
    requires Distinct(s) && WellFormed(table) && Agree(s, table, now)
    ensures NoTieAtCut(owner, s, max, now) <==>
            forall listing :: IsListing(table, owner, listing) ==>
              Agree(Trim(OwnedBy(owner), s, max), Without(table, listing[..Excess(listing, max)]), now)
  {
    hide Trim, Without, StandsClear;
    if NoTieAtCut(owner, s, max, now) {
      forall listing | IsListing(table, owner, listing)
        ensures Agree(Trim(OwnedBy(owner), s, max), Without(table, listing[..Excess(listing, max)]), now)
      {
        AgreeAfterDrop(s, table, now, owner, listing, max);
      }
    } else {
      var x :| x in s && x.owner == owner && TableLive(x.lastSeenAt, now) && !StandsClear(owner, s, max, x.lastSeenAt);
      var listing, y := TieTellsThemApart(s, table, now, owner, max, x.lastSeenAt);
    }
  }

  // ---- The other requests ----------------------------------------------------------------

  lemma AgreeAfterUpdate(s: Sessions, table: Table, now: int, i: nat, r: Session)
    requires Distinct(s) && WellFormed(table) && Agree(s, table, now)
    requires i < |s| && r.sessionId == s[i].sessionId && TableLive(s[i].lastSeenAt, now)
    ensures Agree(s[i := r], table[r.sessionId := Stored(r)], now)
  {
    var s' := s[i := r];
    forall x | x in s' && x != r ensures x in s && x.sessionId != r.sessionId {
      var j :| 0 <= j < |s'| && s'[j] == x;
      assert j != i && s[j] == x;
    }
    forall x | x in s && x.sessionId != r.sessionId ensures x in s' {
      var j :| 0 <= j < |s| && s[j] == x;
      assert s'[j] == x;
    }
    assert s'[i] == r;
  }

  lemma AgreeAfterRemoval(s: Sessions, table: Table, now: int, i: nat)
    requires Distinct(s) && WellFormed(table) && Agree(s, table, now) && i < |s|
    ensures Agree(RemoveAt(s, i), Without(table, [s[i].sessionId]), now)
  {
    hide Distinct, RemoveAt, TableLive;
    RemovedMembers(s, i);
  }

  lemma RemovedMembers(s: Sessions, i: nat)
    requires Distinct(s) && i < |s|
    ensures forall x :: x in RemoveAt(s, i) <==> x in s && x.sessionId != s[i].sessionId
  {
    var s' := RemoveAt(s, i);
    forall x | x in s' ensures x in s && x.sessionId != s[i].sessionId {
      var j :| 0 <= j < |s'| && s'[j] == x;
      assert s[if j < i then j else j + 1] == x;
    }
    forall x | x in s && x.sessionId != s[i].sessionId ensures x in s' {
      var j :| 0 <= j < |s| && s[j] == x;
      assert s'[if j < i then j else j - 1] == x;
    }
  }

  /** Only what the table still resumes matters to the agreement. */
  lemma AgreeIgnoresTheDead(s: Sessions, table: Table, s': Sessions, table': Table, now: int)
    requires Agree(s, table, now)
    requires forall r: Session :: TableLive(r.lastSeenAt, now) ==> (r in s <==> r in s')
    requires forall id :: id in table && TableLive(table[id].record.lastSeenAt, now) ==>
               id in table' && table'[id] == table[id]
    requires forall id :: id in table' && TableLive(table'[id].record.lastSeenAt, now) ==>
               id in table && table'[id] == table[id]
    ensures Agree(s', table', now)
  {
  }

  lemma SameEntry(s: Sessions, table: Table, now: int, id: string)
    requires Distinct(s) && WellFormed(table) && Agree(s, table, now)
    requires id in table && TableLive(table[id].record.lastSeenAt, now)
    ensures Has(s, id) && s[IndexOf(s, id)] == table[id].record
  {
    var i :| 0 <= i < |s| && s[i] == table[id].record;
    IndexOfDistinct(s, i);
  }

  lemma AttachKeepsAgreement(s: Sessions, table: Table, now: int, id: string, scope: string)
    requires Distinct(s) && WellFormed(table) && Agree(s, table, now)
    ensures Agree(AfterAttach(s, id, scope), TableAfterAttach(table, id, scope), now)
  {
    var i := IndexOf(s, id);
    if i < |s| && TableLive(s[i].lastSeenAt, now) {
      assert s[i] in s;
      AgreeAfterUpdate(s, table, now, i, s[i].(defaultScope := Some(scope)));
    } else {
      if id in table && TableLive(table[id].record.lastSeenAt, now) {
        SameEntry(s, table, now, id);
      }
      var s', table' := AfterAttach(s, id, scope), TableAfterAttach(table, id, scope);
      if i < |s| {
        forall r: Session | TableLive(r.lastSeenAt, now) ensures r in s <==> r in s' {
          DeadEntryDoesNotMatter(s, i, s'[i], r);
        }
      }
      AgreeIgnoresTheDead(s, table, s', table', now);
    }
  }

  lemma DeadEntryDoesNotMatter(s: Sessions, i: nat, r: Session, x: Session)
    requires i < |s| && x != s[i] && x != r
    ensures x in s <==> x in s[i := r]
  {
    if x in s {
      var j :| 0 <= j < |s| && s[j] == x;
      assert s[i := r][j] == x;
    }
  }

  lemma ResumeKeepsAgreement(s: Sessions, table: Table, now: int, id: string, owner: string)
    requires Distinct(s) && WellFormed(table) && Agree(s, table, now)
    requires Resumable(s, id, owner, now) == TableResumable(table, id, owner, now)
    ensures Agree(AfterResume(s, id, owner, now, now), TableAfterResume(table, id, owner, now), now)
    ensures Resumable(s, id, owner, now) ==> Agree(Delete(s, id), Without(table, [id]), now)
  {
    if Resumable(s, id, owner, now) {
      SameEntry(s, table, now, id);
      AgreeAfterUpdate(s, table, now, IndexOf(s, id), s[IndexOf(s, id)].(lastSeenAt := now));
      AgreeAfterRemoval(s, table, now, IndexOf(s, id));
    }
  }

  lemma OpenKeepsAgreement(caps: Caps, s: Sessions, table: Table, now: int, r: Session, listing: seq<string>)
    requires Distinct(s) && WellFormed(table) && Agree(s, table, now)
    requires Fair(caps, s, table, now, Shared(Open(r), listing))
    ensures Agree(AfterOpen(s, r, caps), InTable(caps, table, now, Shared(Open(r), listing)), now)
  {
    AgreeAfterPut(s, table, now, r);
    PutKeepsDistinct(s, r);
    AgreeAfterDrop(s + [r], table[r.sessionId := Stored(r)], now, r.owner, listing, caps.maxPerUser);
    TrimWithinCap(Trim(OwnedBy(r.owner), s + [r], caps.maxPerUser), caps.maxSessions);
  }

  lemma HangUpKeepsAgreement(s: Sessions, table: Table, now: int, id: string, owner: string)
    requires Distinct(s) && WellFormed(table) && Agree(s, table, now)
    requires Resumable(s, id, owner, now) == TableResumable(table, id, owner, now)
    ensures var s' := if Resumable(s, id, owner, now)
                      then AfterClose(AfterResume(s, id, owner, now, now), id, owner) else s;
            var table' := if TableResumable(table, id, owner, now)
                          then TableAfterClose(TableAfterResume(table, id, owner, now), id, owner) else table;
            Agree(s', table', now)
  {
    hide Agree;
    ResumeKeepsAgreement(s, table, now, id, owner);
    if Resumable(s, id, owner, now) {
      ClosingWhatWasResumed(s, id, owner, now, now);
      assert TableAfterClose(TableAfterResume(table, id, owner, now), id, owner) == Without(table, [id]);
    }
  }

  /** A close finds the same live session in both stores; on an idle one their
      answers may differ, but what is live stays alike. */
  lemma CloseKeepsAgreement(s: Sessions, table: Table, now: int, id: string, owner: string)
    requires Distinct(s) && WellFormed(table) && Agree(s, table, now)
    ensures Agree(AfterClose(s, id, owner), TableAfterClose(table, id, owner), now)
  {
    var i := IndexOf(s, id);
    var s', table' := AfterClose(s, id, owner), TableAfterClose(table, id, owner);
    if i < |s| && TableLive(s[i].lastSeenAt, now) {
      assert s[i] in s;
      AgreeAfterRemoval(s, table, now, i);
    } else {
      if id in table && TableLive(table[id].record.lastSeenAt, now) {
        SameEntry(s, table, now, id);
      }
      if i < |s| {
        RemovedMembers(s, i);
        OneEntryEach(s, i);
      }
      AgreeIgnoresTheDead(s, table, s', table', now);
    }
  }

  lemma OneEntryEach(s: Sessions, i: nat)
    requires Distinct(s) && i < |s|
    ensures forall r :: r in s && r.sessionId == s[i].sessionId ==> r == s[i]
  {
  }

  lemma TickKeepsAgreement(s: Sessions, table: Table, now: int, ms: nat)
    requires Agree(s, table, now)
    ensures Agree(s, table, now + ms)
  {
  }

  lemma SweepKeepsAgreement(s: Sessions, table: Table, now: int)
    requires Agree(s, table, now)
    ensures Agree(AfterSweep(s, now), table, now)
  {
    FilterMembers(SeenSince(now - IDLE_TTL_MS), s);
    AgreeIgnoresTheDead(s, table, AfterSweep(s, now), table, now);
  }

  lemma ForgetKeepsAgreement(s: Sessions, table: Table, now: int, id: string)
    requires Agree(s, table, now) && (id in table ==> !TableLive(table[id].record.lastSeenAt, now))
    ensures Agree(s, Without(table, [id]), now)
  {
    AgreeIgnoresTheDead(s, table, s, Without(table, [id]), now);
  }

  lemma StepKeepsAgreement(caps: Caps, s: Sessions, table: Table, now: int, step: Both)
    requires Distinct(s) && WellFormed(table) && Agree(s, table, now) && Fair(caps, s, table, now, step)
    requires Asks(step) ==> FromMemory(s, now, step.op) == FromTable(table, step.op)
    ensures Agree(InMemory(caps, s, now, step), InTable(caps, table, now, step), Time(now, step))
  {
    hide Distinct, WellFormed, Agree, AfterOpen, AfterResume, AfterAttach, AfterClose, AfterSweep, Trim, Without;
    hide TableAfterResume, TableAfterAttach, TableAfterClose, NoTieAtCut, IsListing;
    hide Resumable, TableResumable, TableLive;
    match step
    case Forget(id) => ForgetKeepsAgreement(s, table, now, id);
    case Shared(op, listing) =>
      match op
      case Open(r) => OpenKeepsAgreement(caps, s, table, now, r, listing);
      case Attach(id, scope) => AttachKeepsAgreement(s, table, now, id, scope);
      case Resume(id, owner, _) => ResumeKeepsAgreement(s, table, now, id, owner);
      case HangUp(id, owner, _) => HangUpKeepsAgreement(s, table, now, id, owner);
      case Close(id, owner) => CloseKeepsAgreement(s, table, now, id, owner);
      case Tick(ms) => TickKeepsAgreement(s, table, now, ms);
      case Sweep => SweepKeepsAgreement(s, table, now);
  }

  // ---- Runs ------------------------------------------------------------------------

  ghost predicate FairRun(caps: Caps, s: Sessions, table: Table, now: int, steps: seq<Both>)
    decreases |steps|
  {
    steps == [] ||
    (&& Fair(caps, s, table, now, steps[0])
     && FairRun(caps, InMemory(caps, s, now, steps[0]), InTable(caps, table, now, steps[0]), Time(now, steps[0]),
       steps[1..]))
  }

  /** Every answer is the same up to the end of the run, or up to a request that
      only the in-memory store serves, in the last second of the session. */
  ghost predicate SameUntilLastSecond(caps: Caps, s: Sessions, table: Table, now: int, steps: seq<Both>)
    decreases |steps|
  {
    steps == [] ||
    var step := steps[0];
    if Asks(step) && FromMemory(s, now, step.op) != FromTable(table, step.op) then
      && FromMemory(s, now, step.op).Some? && FromTable(table, step.op).None?
      && 0 <= s[IndexOf(s, step.op.id)].lastSeenAt + IDLE_TTL_MS - now < 1000
    else
      SameUntilLastSecond(caps, InMemory(caps, s, now, step), InTable(caps, table, now, step), Time(now, step),
        steps[1..])
  }

  lemma StepKeepsShape(caps: Caps, s: Sessions, table: Table, now: int, step: Both)
    requires Distinct(s) && WellFormed(table)
    ensures Distinct(InMemory(caps, s, now, step)) && WellFormed(InTable(caps, table, now, step))
  {
    if step.Shared? {
      AfterKeepsDistinct(caps, s, now, step.op);
    }
  }

  /** The two stores agree over whole runs, whatever sweeps, lazy TTL deletions
      and evictions happen in between. */
  lemma {:induction false} StoresAgree(caps: Caps, s: Sessions, table: Table, now: int, steps: seq<Both>)
    requires Distinct(s) && WellFormed(table) && Agree(s, table, now) && FairRun(caps, s, table, now, steps)
    ensures SameUntilLastSecond(caps, s, table, now, steps)
    decreases |steps|
  {
    if steps != [] {
      var step := steps[0];
      if Asks(step) {
        AnswersAgree(s, table, now, step.op.id, step.op.owner);
      }
      if !(Asks(step) && FromMemory(s, now, step.op) != FromTable(table, step.op)) {
        StepKeepsAgreement(caps, s, table, now, step);
        StepKeepsShape(caps, s, table, now, step);
        StoresAgree(caps, InMemory(caps, s, now, step), InTable(caps, table, now, step), Time(now, step), steps[1..]);
      }
    }
  }
}

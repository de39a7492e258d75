/** The in-memory store of apps/server/src/mcp-session.memory-store.ts against a
    session on its own: what a resume answers is what the session's own requests
    say, unless an open returned its id as evicted. */
module SessionLives {
  import opened Outcomes
  import opened Lists
  import opened SessionEviction
  import opened SessionStore
  import opened SessionRuns

  // ---- One session on its own ------------------------------------------------------

  /** The owner's session, seen less than half an hour ago. */
  predicate Resumes(life: Option<Session>, owner: string, now: int) {
    life.Some? && life.value.owner == owner && now - life.value.lastSeenAt <= 30 * 60 * 1000
  }

  /** What one request makes of the session `id`, were there no other session, no
      cap and no sweep. */
  function Lived(life: Option<Session>, id: string, now: int, op: Op): Option<Session> {
    match op
    case Open(record) => if record.sessionId == id then Some(record) else life
    case Resume(of, owner, at) =>
      if of == id && Resumes(life, owner, now)
      then Some(Session(id, owner, life.value.clientName, life.value.defaultScope, at)) else life
    case Attach(of, scope) =>
      if of == id && life.Some?
      then Some(Session(id, life.value.owner, life.value.clientName, Some(scope), life.value.lastSeenAt)) else life
    case HangUp(of, owner, _) => if of == id && Resumes(life, owner, now) then None else life
    case Close(of, owner) => if of == id && life.Some? && life.value.owner == owner then None else life
    case Tick(_) => life
    case Sweep => life
  }

  function Life(life: Option<Session>, id: string, now: int, ops: seq<Op>): Option<Session>
    decreases |ops|
  {
    if ops == [] then life else Life(Lived(life, id, now, ops[0]), id, Clock(now, ops[0]), ops[1..])
  }

  /** The ids the opens of a run returned. */
  function ReturnedIds(caps: Caps, s: Sessions, now: int, ops: seq<Op>): seq<string>
    decreases |ops|
  {
    if ops == [] then []
    else
      (if ops[0].Open? then Ids(EvictedByOpen(s, ops[0].record, caps)) else [])
      + ReturnedIds(caps, After(caps, s, now, ops[0]), Clock(now, ops[0]), ops[1..])
  }

  // ---- The store follows it ----------------------------------------------------------

  /** The map's entry is the session as it lived; without one the session was
      evicted, or closed, or has idled out. */
  ghost predicate Tracks(s: Sessions, now: int, id: string, life: Option<Session>, evicted: bool) {
    && (life.Some? ==> life.value.sessionId == id)
    && (Has(s, id) ==> !evicted && life == Some(s[IndexOf(s, id)]))
    && (!Has(s, id) && !evicted && life.Some? ==> life.value.lastSeenAt < now - IDLE_TTL_MS)
  }

  /** Storing under an id that is there replaces that entry in its place. */
  lemma PutReplaces(s: Sessions, r: Session)
    requires Distinct(s) && exists x :: x in s && x.sessionId == r.sessionId
    ensures |Put(s, r)| == |s|
    ensures forall i :: 0 <= i < |s| ==> Put(s, r)[i] == if s[i].sessionId == r.sessionId then r else s[i]
  {
    IndexOfAbsent(s, r.sessionId);
  }

  lemma LookedUp(s: Sessions, id: string, r: Session)
    requires Distinct(s) && r.sessionId == id
    ensures r in s <==> Has(s, id) && s[IndexOf(s, id)] == r
  {
    if r in s {
      var i :| 0 <= i < |s| && s[i] == r;
      IndexOfDistinct(s, i);
    }
  }

  lemma OnceEach(s: Sessions, r: Session)
    requires Distinct(s)
    ensures multiset(s)[r] <= 1
  {
    if r in s {
      var i :| 0 <= i < |s| && s[i] == r;
      RemoveAtConserves(s, i);
      assert r !in RemoveAt(s, i);
    }
  }

  /** An open keeps or evicts each session, and never both. */
  lemma KeptOrEvicted(s: Sessions, r: Session, caps: Caps, x: Session)
    requires Distinct(s) && !Has(s, r.sessionId)
    ensures x in s + [r] <==> x in AfterOpen(s, r, caps) || x in EvictedByOpen(s, r, caps)
    ensures !(x in AfterOpen(s, r, caps) && x in EvictedByOpen(s, r, caps))
  {
    var who := OwnedBy(r.owner);
    var own := Trim(who, s + [r], caps.maxPerUser);
    TrimConserves(who, s + [r], caps.maxPerUser);
    TrimConserves(Everyone, own, caps.maxSessions);
    PutKeepsDistinct(s, r);
    OnceEach(s + [r], x);
    hide Trim, Trimmed, Distinct;
    var kept, gone := AfterOpen(s, r, caps), EvictedByOpen(s, r, caps);
    assert multiset(kept) + multiset(gone) == multiset(s + [r]);
    assert multiset(s + [r])[x] == multiset(kept)[x] + multiset(gone)[x];
  }

  lemma IdsOf(s: Sessions, id: string)
    ensures id in Ids(s) <==> exists r :: r in s && r.sessionId == id
  {
    if id in Ids(s) {
      var i :| 0 <= i < |s| && Ids(s)[i] == id;
      assert s[i] in s;
    }
    if r :| r in s && r.sessionId == id {
      var i :| 0 <= i < |s| && s[i] == r;
      assert Ids(s)[i] == id;
    }
  }

  /** Where a session is after an open: kept as it was, or among the ids returned. */
  lemma OpenTracks(caps: Caps, s: Sessions, now: int, r: Session, id: string, life: Option<Session>, evicted: bool)
    requires Distinct(s) && !Has(s, r.sessionId) && Tracks(s, now, id, life, evicted)
    requires r.sessionId == id ==> life.None? && !evicted
    ensures Tracks(AfterOpen(s, r, caps), now, id, Lived(life, id, now, Open(r)),
                   evicted || id in Ids(EvictedByOpen(s, r, caps)))
  {
    var kept, gone := AfterOpen(s, r, caps), EvictedByOpen(s, r, caps);
    AfterKeepsDistinct(caps, s, now, Open(r));
    PutKeepsDistinct(s, r);
    IdsOf(gone, id);
    hide AfterOpen, EvictedByOpen, Distinct;
    if Has(kept, id) {
      KeptOrEvicted(s, r, caps, kept[IndexOf(kept, id)]);
      LookedUp(s + [r], id, kept[IndexOf(kept, id)]);
    }
    forall x | x in gone && x.sessionId == id ensures Has(s + [r], id) && x == (s + [r])[IndexOf(s + [r], id)] {
      KeptOrEvicted(s, r, caps, x);
      LookedUp(s + [r], id, x);
    }
    StoredLookup(s, r, id);
    if Has(s + [r], id) {
      var x := (s + [r])[IndexOf(s + [r], id)];
      LookedUp(s + [r], id, x);
      KeptOrEvicted(s, r, caps, x);
      LookedUp(kept, id, x);
    }
  }

  lemma StoredLookup(s: Sessions, r: Session, id: string)
    requires Distinct(s) && Distinct(s + [r]) && !Has(s, r.sessionId)
    ensures Has(s + [r], id) <==> Has(s, id) || r.sessionId == id
    ensures Has(s + [r], id) ==> (s + [r])[IndexOf(s + [r], id)] == if r.sessionId == id then r else s[IndexOf(s, id)]
  {
    if r.sessionId == id {
      assert (s + [r])[|s|] == r;
      LookedUp(s + [r], id, r);
    } else if Has(s, id) {
      assert (s + [r])[IndexOf(s, id)] == s[IndexOf(s, id)];
      LookedUp(s + [r], id, s[IndexOf(s, id)]);
    }
  }

  lemma OverwriteLookup(s: Sessions, i: nat, r: Session, id: string)
    requires Distinct(s) && i < |s| && r.sessionId == s[i].sessionId
    ensures IndexOf(s[i := r], id) == IndexOf(s, id)
  {
    var t := s[i := r];
    assert forall j :: 0 <= j < |s| ==> t[j].sessionId == s[j].sessionId;
    var a, b := IndexOf(s, id), IndexOf(t, id);
    assert a < |s| ==> t[a].sessionId == id;
    assert b < |s| ==> s[b].sessionId == id;
  }

  lemma DeleteLookup(s: Sessions, gone: string, id: string)
    requires Distinct(s)
    ensures Has(Delete(s, gone), id) <==> Has(s, id) && id != gone
    ensures Has(s, id) && id != gone ==> Delete(s, gone)[IndexOf(Delete(s, gone), id)] == s[IndexOf(s, id)]
  {
    DeleteKeepsDistinct(s, gone);
    var t := Delete(s, gone);
    var i := IndexOf(s, gone);
    if i < |s| {
      if Has(s, id) && id != gone {
        var j := IndexOf(s, id);
        assert t[if j < i then j else j - 1] == s[j];
        LookedUp(t, id, s[j]);
      }
      if Has(t, id) {
        var j := IndexOf(t, id);
        assert s[if j < i then j else j + 1] == t[j];
        LookedUp(s, id, t[j]);
        IndexOfDistinct(s, i);
      }
    }
  }

  lemma SweepTracks(s: Sessions, now: int, id: string, life: Option<Session>, evicted: bool)
    requires Distinct(s) && Tracks(s, now, id, life, evicted)
    ensures Tracks(AfterSweep(s, now), now, id, life, evicted)
  {
    LookupLive(s, id, now - IDLE_TTL_MS);
  }

  lemma ResumeTracks(caps: Caps, s: Sessions, now: int, op: Op, id: string, life: Option<Session>, evicted: bool)
    requires Distinct(s) && Tracks(s, now, id, life, evicted) && op.Resume?
    ensures Tracks(After(caps, s, now, op), now, id, Lived(life, id, now, op), evicted)
  {
    if Has(s, op.id) {
      OverwriteLookup(s, IndexOf(s, op.id), s[IndexOf(s, op.id)].(lastSeenAt := op.at), id);
    }
  }

  lemma AttachTracks(caps: Caps, s: Sessions, now: int, op: Op, id: string, life: Option<Session>, evicted: bool)
    requires Distinct(s) && Tracks(s, now, id, life, evicted) && op.Attach?
    ensures Tracks(After(caps, s, now, op), now, id, Lived(life, id, now, op), evicted)
  {
    if Has(s, op.id) {
      OverwriteLookup(s, IndexOf(s, op.id), s[IndexOf(s, op.id)].(defaultScope := Some(op.scope)), id);
    }
  }

  lemma CloseTracks(caps: Caps, s: Sessions, now: int, op: Op, id: string, life: Option<Session>, evicted: bool)
    requires Distinct(s) && Tracks(s, now, id, life, evicted) && (op.HangUp? || op.Close?)
    ensures Tracks(After(caps, s, now, op), now, id, Lived(life, id, now, op), evicted)
  {
    DeleteLookup(s, op.id, id);
    if op.HangUp? && Resumable(s, op.id, op.owner, now) {
      ClosingWhatWasResumed(s, op.id, op.owner, op.at, now);
    }
  }

  lemma StepTracks(caps: Caps, s: Sessions, now: int, op: Op, id: string, life: Option<Session>, evicted: bool)
    requires Distinct(s) && Tracks(s, now, id, life, evicted)
    requires op.Open? ==> !Has(s, op.record.sessionId) && (op.record.sessionId == id ==> life.None? && !evicted)
    ensures var more := op.Open? && id in Ids(EvictedByOpen(s, op.record, caps));
            Tracks(After(caps, s, now, op), Clock(now, op), id, Lived(life, id, now, op), evicted || more)
  {
    hide Distinct, Resumable, AfterOpen, EvictedByOpen;
    match op
    case Open(r) => OpenTracks(caps, s, now, r, id, life, evicted);
    case Resume(_, _, _) => ResumeTracks(caps, s, now, op, id, life, evicted);
    case Attach(_, _) => AttachTracks(caps, s, now, op, id, life, evicted);
    case HangUp(_, _, _) => CloseTracks(caps, s, now, op, id, life, evicted);
    case Close(_, _) => CloseTracks(caps, s, now, op, id, life, evicted);
    case Tick(_) =>
    case Sweep => SweepTracks(s, now, id, life, evicted);
  }

  lemma {:induction false} RunTracks(caps: Caps, s: Sessions, now: int, ops: seq<Op>, used: set<string>, id: string,
          life: Option<Session>, evicted: bool)
    requires Distinct(s) && KnownIds(s, used) && FreshIds(ops, used) && Tracks(s, now, id, life, evicted)
    requires life.Some? || evicted ==> id in used
    ensures Distinct(Final(caps, s, now, ops))
    ensures Tracks(Final(caps, s, now, ops), FinalClock(now, ops), id, Life(life, id, now, ops),
                   evicted || id in ReturnedIds(caps, s, now, ops))
    decreases |ops|
  {
    if ops != [] {
      var op := ops[0];
      if op.Open? {
        IndexOfAbsent(s, op.record.sessionId);
      }
      StepTracks(caps, s, now, op, id, life, evicted);
      AfterKeepsDistinct(caps, s, now, op);
      KnownIdsStep(caps, s, now, op, used);
      ReturnedAreKnown(caps, s, op, used, id);
      hide Distinct, After, Tracks, KnownIds;
      RunTracks(caps, After(caps, s, now, op), Clock(now, op), ops[1..],
                if op.Open? then used + {op.record.sessionId} else used, id, Lived(life, id, now, op),
                evicted || (op.Open? && id in Ids(EvictedByOpen(s, op.record, caps))));
    }
  }

  lemma ReturnedAreKnown(caps: Caps, s: Sessions, op: Op, used: set<string>, id: string)
    requires Distinct(s) && KnownIds(s, used) && (op.Open? ==> !Has(s, op.record.sessionId))
    ensures op.Open? && id in Ids(EvictedByOpen(s, op.record, caps)) ==> id in used + {op.record.sessionId}
  {
    if op.Open? {
      IdsOf(EvictedByOpen(s, op.record, caps), id);
      forall x | x in EvictedByOpen(s, op.record, caps) ensures x in s + [op.record] {
        KeptOrEvicted(s, op.record, caps, x);
      }
    }
  }

  /** Entries in the order of their stamps. */
  ghost predicate OldestFirst(s: Sessions) {
    forall i, j :: 0 <= i < j < |s| ==> s[i].lastSeenAt <= s[j].lastSeenAt
  }

  lemma {:induction false} TrimmedInOrder(who: Who, s: Sessions, max: nat, least: int)
    requires forall r :: r in s && Counts(who, r) ==> least <= r.lastSeenAt
    ensures OldestFirst(Trimmed(who, s, max))
    ensures forall r :: r in Trimmed(who, s, max) ==> Counts(who, r) && least <= r.lastSeenAt
    decreases |s|
  {
    var m := Oldest(who, s);
    if |Select(who, s)| > max && m < |s| {
      OldestIsFirstMinimum(who, s);
      var rest := RemoveAt(s, m);
      assert forall r :: r in rest && Counts(who, r) ==> s[m].lastSeenAt <= r.lastSeenAt;
      TrimmedInOrder(who, rest, max, s[m].lastSeenAt);
      HeadInOrder(s[m], Trimmed(who, rest, max));
    }
  }

  lemma HeadInOrder(r: Session, s: Sessions)
    requires OldestFirst(s) && forall x :: x in s ==> r.lastSeenAt <= x.lastSeenAt
    ensures OldestFirst([r] + s)
  {
  }

  lemma LeastStamp(s: Sessions) returns (least: int)
    ensures forall r :: r in s ==> least <= r.lastSeenAt
  {
    least := 0;
    for i := 0 to |s|
      invariant forall j :: 0 <= j < i ==> least <= s[j].lastSeenAt
    {
      if s[i].lastSeenAt < least {
        least := s[i].lastSeenAt;
      }
    }
  }

  // ---- Main results ------------------------------------------------------------------

  /** What an open evicts comes back as the opener's own sessions over its cap and then
      those over the global cap, each part oldest first. */
  lemma EvictedInOrder(s: Sessions, r: Session, caps: Caps) returns (own: Sessions, others: Sessions)
    requires !Has(s, r.sessionId)
    ensures EvictedByOpen(s, r, caps) == own + others && OldestFirst(own) && OldestFirst(others)
    ensures forall x :: x in own ==> x.owner == r.owner
    ensures var n := |Select(OwnedBy(r.owner), s)| + 1; |own| == if n <= caps.maxPerUser then 0 else n - caps.maxPerUser
  {
    var who := OwnedBy(r.owner);
    var kept := Trim(who, s + [r], caps.maxPerUser);
    own := Trimmed(who, s + [r], caps.maxPerUser);
    others := Trimmed(Everyone, kept, caps.maxSessions);
    var a := LeastStamp(s + [r]);
    TrimmedInOrder(who, s + [r], caps.maxPerUser, a);
    var b := LeastStamp(kept);
    TrimmedInOrder(Everyone, kept, caps.maxSessions, b);
    TrimMeetsCap(who, s + [r], caps.maxPerUser);
    TrimConserves(who, s + [r], caps.maxPerUser);
    FilterConcat(Counted(who), s, [r]);
    assert |multiset(s + [r])| == |multiset(kept)| + |multiset(own)|;
  }

  /** After any run, a resume answers what the session's own opens, resumes, scopes
      and closes say, with the record they leave, as if it had been alone; only an
      eviction, of which some open returned the id, makes it answer otherwise, and
      then with nothing. */
  lemma ResumesAsLived(caps: Caps, start: int, ops: seq<Op>, id: string, owner: string, at: int)
    requires FreshIds(ops, {})
    ensures var now := FinalClock(start, ops);
            var life := Life(None, id, start, ops);
            ResumeAnswer(Final(caps, [], start, ops), id, owner, at, now) ==
            if Resumes(life, owner, now) && id !in ReturnedIds(caps, [], start, ops)
            then Some(Session(id, owner, life.value.clientName, life.value.defaultScope, at))
            else None
  {
    RunTracks(caps, [], start, ops, {}, id, None, false);
  }

  /** A close ends what it finds exactly when the session was opened by that owner
      and is neither evicted nor swept. */
  lemma ClosesAsLived(caps: Caps, start: int, ops: seq<Op>, id: string, owner: string)
    requires FreshIds(ops, {})
    ensures var s := Final(caps, [], start, ops);
            var life := Life(None, id, start, ops);
            && (Closable(s, id, owner) ==>
                  life.Some? && life.value.owner == owner && id !in ReturnedIds(caps, [], start, ops))
            && (Resumes(life, owner, FinalClock(start, ops)) && id !in ReturnedIds(caps, [], start, ops) ==>
                  Closable(s, id, owner))
  {
    RunTracks(caps, [], start, ops, {}, id, None, false);
  }

  /** Requests that only `user` makes, on any session id whatever. */
  predicate OnlyBy(ops: seq<Op>, user: string) {
    forall i :: 0 <= i < |ops| ==>
      match ops[i]
      case Resume(_, owner, _) => owner == user
      case HangUp(_, owner, _) => owner == user
      case Close(_, owner) => owner == user
      case Tick(_) => true
      case _ => false
  }

  /** No resumes and closes of one account, on whatever ids, touch another
      account's sessions. */
  lemma {:induction false} OthersAreUntouched(caps: Caps, s: Sessions, now: int, ops: seq<Op>, user: string,
          other: string)
    requires Distinct(s) && OnlyBy(ops, user) && other != user
    ensures Filter((r: Session) => r.owner == other, Final(caps, s, now, ops)) ==
            Filter((r: Session) => r.owner == other, s)
    decreases |ops|
  {
    if ops != [] {
      var theirs := (r: Session) => r.owner == other;
      assert OnlyBy(ops[1..], user);
      AfterKeepsDistinct(caps, s, now, ops[0]);
      OthersAreUntouched(caps, After(caps, s, now, ops[0]), Clock(now, ops[0]), ops[1..], user, other);
      StepSparesOthers(caps, s, now, ops[0], theirs, user);
    }
  }

  lemma StepSparesOthers(caps: Caps, s: Sessions, now: int, op: Op, theirs: Session -> bool, user: string)
    requires Distinct(s) && OnlyBy([op], user) && forall r :: theirs(r) ==> r.owner != user
    requires forall r: Session, at: int :: theirs(r.(lastSeenAt := at)) == theirs(r)
    ensures Filter(theirs, After(caps, s, now, op)) == Filter(theirs, s)
  {
    assert [op][0] == op;
    match op
    case Resume(id, owner, at) =>
      if Resumable(s, id, owner, now) {
        var i := IndexOf(s, id);
        var t := s[i := s[i].(lastSeenAt := at)];
        FilterSplit(theirs, s, i);
        FilterSplit(theirs, t, i);
        assert t[..i] == s[..i] && t[i + 1..] == s[i + 1..];
      }
    case HangUp(id, owner, at) =>
      if Resumable(s, id, owner, now) {
        ClosingWhatWasResumed(s, id, owner, at, now);
        FilterSplit(theirs, s, IndexOf(s, id));
      }
    case Close(id, owner) =>
      if Closable(s, id, owner) {
        FilterSplit(theirs, s, IndexOf(s, id));
      }
    case _ =>
  }
}

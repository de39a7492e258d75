/** The in-memory session store: the eviction loops of
    apps/server/src/session-cap.ts and the class of
    apps/server/src/mcp-session.memory-store.ts, proved against functions. */
module SessionStore {
  import opened Outcomes
  import opened Lists
  import opened SessionEviction

  /** A session with no request for this long is gone. */
  const IDLE_TTL_MS := 30 * 60 * 1000

  /** Both caps are read from the environment as positive integers. */
  type Positive = n: nat | 0 < n witness 1

  datatype Caps = Caps(maxSessions: Positive, maxPerUser: Positive)

  predicate IdledOut(r: Session, now: int) {
    r.lastSeenAt < now - IDLE_TTL_MS
  }

  function AfterOpen(s: Sessions, r: Session, caps: Caps): Sessions {
    Trim(Everyone, Trim(OwnedBy(r.owner), Put(s, r), caps.maxPerUser), caps.maxSessions)
  }

  function EvictedByOpen(s: Sessions, r: Session, caps: Caps): Sessions {
    var stored := Put(s, r);
    Trimmed(OwnedBy(r.owner), stored, caps.maxPerUser)
    + Trimmed(Everyone, Trim(OwnedBy(r.owner), stored, caps.maxPerUser), caps.maxSessions)
  }

  predicate Resumable(s: Sessions, id: string, owner: string, now: int) {
    var i := IndexOf(s, id);
    i < |s| && s[i].owner == owner && !IdledOut(s[i], now)
  }

  function AfterResume(s: Sessions, id: string, owner: string, at: int, now: int): Sessions {
    if Resumable(s, id, owner, now)
    then var i := IndexOf(s, id); s[i := s[i].(lastSeenAt := at)]
    else s
  }

  function ResumeAnswer(s: Sessions, id: string, owner: string, at: int, now: int): Option<Session> {
    if Resumable(s, id, owner, now) then Some(s[IndexOf(s, id)].(lastSeenAt := at)) else None
  }

  function AfterAttach(s: Sessions, id: string, scope: string): Sessions {
    var i := IndexOf(s, id);
    if i < |s| then s[i := s[i].(defaultScope := Some(scope))] else s
  }

  predicate Closable(s: Sessions, id: string, owner: string) {
    var i := IndexOf(s, id);
    i < |s| && s[i].owner == owner
  }

  function AfterClose(s: Sessions, id: string, owner: string): Sessions {
    if Closable(s, id, owner) then Delete(s, id) else s
  }

  function AfterSweep(s: Sessions, now: int): Sessions {
    Live(s, now - IDLE_TTL_MS)
  }

  lemma IndexOfDistinct(s: Sessions, i: nat)
    requires Distinct(s) && i < |s|
    ensures IndexOf(s, s[i].sessionId) == i
  {
  }

  // ---- The library sort -----------------------------------------------------

  function SeenAt(at: int): Session -> bool {
    (r: Session) => r.lastSeenAt == at
  }

  function Stamped(s: Sessions, at: int): Sessions {
    Filter(SeenAt(at), s)
  }

  ghost predicate Ascending(s: Sessions) {
    forall i, j :: 0 <= i < j < |s| ==> s[i].lastSeenAt <= s[j].lastSeenAt
  }

  /** `t` is `s` in ascending stamp order, entries with one stamp in their old
      order: what a stable Array.sort promises. */
  ghost predicate IsStableSort(s: Sessions, t: Sessions) {
    Ascending(t) && forall at :: Stamped(s, at) == Stamped(t, at)
  }

  function InsertByStamp(r: Session, s: Sessions): Sessions {
    if s == [] || r.lastSeenAt <= s[0].lastSeenAt then [r] + s else [s[0]] + InsertByStamp(r, s[1..])
  }

  function SortByStamp(s: Sessions): Sessions {
    if s == [] then [] else InsertByStamp(s[0], SortByStamp(s[1..]))
  }

  lemma {:induction false} InsertKeepsOrder(r: Session, s: Sessions)
    requires Ascending(s)
    ensures Ascending(InsertByStamp(r, s))
    ensures InsertByStamp(r, s)[0].lastSeenAt == r.lastSeenAt ||
            (s != [] && InsertByStamp(r, s)[0] == s[0] && s[0].lastSeenAt < r.lastSeenAt)
  {
    if s != [] && r.lastSeenAt > s[0].lastSeenAt {
      InsertKeepsOrder(r, s[1..]);
    }
  }

  lemma {:induction false} InsertIsStable(r: Session, s: Sessions, at: int)
    requires Ascending(s)
    ensures Stamped(InsertByStamp(r, s), at) == Stamped([r] + s, at)
  {
    if s != [] && r.lastSeenAt > s[0].lastSeenAt {
      InsertIsStable(r, s[1..], at);
      FilterConcat(SeenAt(at), [s[0]], InsertByStamp(r, s[1..]));
      FilterConcat(SeenAt(at), [r], s[1..]);
      FilterConcat(SeenAt(at), [s[0]], s[1..]);
      FilterConcat(SeenAt(at), [r], s);
      assert [s[0]] + s[1..] == s;
    }
  }

  lemma {:induction false} SortByStampIsStable(s: Sessions)
    ensures IsStableSort(s, SortByStamp(s))
  {
    if s != [] {
      SortByStampIsStable(s[1..]);
      InsertKeepsOrder(s[0], SortByStamp(s[1..]));
      forall at ensures Stamped(s, at) == Stamped(SortByStamp(s), at) {
        InsertIsStable(s[0], SortByStamp(s[1..]), at);
        FilterConcat(SeenAt(at), [s[0]], SortByStamp(s[1..]));
        FilterConcat(SeenAt(at), [s[0]], s[1..]);
        assert [s[0]] + s[1..] == s;
        assert Stamped(s[1..], at) == Stamped(SortByStamp(s[1..]), at);
      }
    }
  }

  // ---- A sorted prefix is a repeated minimum --------------------------------

  /** A stable sort has the same stamps. */
  lemma SameStamps(s: Sessions, t: Sessions, i: nat) returns (j: nat)
    requires i < |s| && forall at :: Stamped(s, at) == Stamped(t, at)
    ensures j < |t| && t[j].lastSeenAt == s[i].lastSeenAt
  {
    var at := s[i].lastSeenAt;
    assert Stamped(s, at) == Stamped(t, at);
    FilterMembers(SeenAt(at), s);
    FilterMembers(SeenAt(at), t);
    j :| 0 <= j < |t| && t[j].lastSeenAt == at;
  }

  /** The least stamp heads a stable sort. */
  lemma StableSortHead(s: Sessions, t: Sessions, m: nat)
    requires IsStableSort(s, t) && FirstMinimum(Everyone, s, m)
    ensures t != [] && t[0] == s[m]
  {
    var low := s[m].lastSeenAt;
    var j := SameStamps(s, t, m);
    var i := SameStamps(t, s, 0);
    assert t[0].lastSeenAt == low;
    assert Stamped(s, low) == Stamped(t, low);
    FilterSplit(SeenAt(low), s, m);
    FilterMembers(SeenAt(low), s[..m]);
    assert Stamped(s, low)[0] == s[m];
  }

  /** Without its head it stably sorts the rest. */
  lemma StableSortTail(s: Sessions, t: Sessions, m: nat)
    requires IsStableSort(s, t) && FirstMinimum(Everyone, s, m) && t != [] && t[0] == s[m]
    ensures IsStableSort(RemoveAt(s, m), t[1..])
  {
    forall at ensures Stamped(RemoveAt(s, m), at) == Stamped(t[1..], at) {
      assert Stamped(s, at) == Stamped(t, at);
      FilterSplit(SeenAt(at), s, m);
      FilterMembers(SeenAt(at), s[..m]);
      if at == s[m].lastSeenAt {
        assert Stamped(s[..m], at) == [];
        assert Stamped(s, at)[1..] == Stamped(s[m + 1..], at);
        assert Stamped(t, at)[1..] == Stamped(t[1..], at);
      }
    }
  }

  lemma OldestAmong(who: Who, before: Sessions, r: Session, after: Sessions)
    requires FirstMinimum(who, before + [r] + after, |before|)
    ensures FirstMinimum(Everyone, Select(who, before) + [r] + Select(who, after), |Select(who, before)|)
  {
    var s := before + [r] + after;
    var b, a := Select(who, before), Select(who, after);
    FilterMembers(Counted(who), before);
    FilterMembers(Counted(who), after);
    forall j | 0 <= j < |b| ensures r.lastSeenAt < b[j].lastSeenAt {
      assert b[j] in before && Counts(who, b[j]);
      var i :| 0 <= i < |before| && before[i] == b[j];
      assert s[i] == b[j];
    }
    forall j | 0 <= j < |a| ensures r.lastSeenAt <= a[j].lastSeenAt {
      assert a[j] in after && Counts(who, a[j]);
      var i :| 0 <= i < |after| && after[i] == a[j];
      assert s[|before| + 1 + i] == a[j];
    }
  }

  /** The oldest counted entry, seen among the counted ones alone. */
  lemma OldestOfSelected(who: Who, s: Sessions, m: nat)
    requires FirstMinimum(who, s, m)
    ensures var own := Select(who, s); var k := |Select(who, s[..m])|;
            && FirstMinimum(Everyone, own, k) && own[k] == s[m]
            && RemoveAt(own, k) == Select(who, RemoveAt(s, m))
  {
    var b, a := Select(who, s[..m]), Select(who, s[m + 1..]);
    FilterSplit(Counted(who), s, m);
    assert Select(who, s) == b + [s[m]] + a;
    assert FirstMinimum(Everyone, b + [s[m]] + a, |b|) by {
      assert s == s[..m] + [s[m]] + s[m + 1..];
      OldestAmong(who, s[..m], s[m], s[m + 1..]);
    }
    assert RemoveAt(b + [s[m]] + a, |b|) == b + a;
  }

  /** Map.delete of each entry in turn. */
  function DeleteAll(s: Sessions, gone: Sessions): Sessions {
    if gone == [] then s else DeleteAll(Delete(s, gone[0].sessionId), gone[1..])
  }

  /** What one eviction round shares with a stably sorted list of the counted. */
  lemma SortedHeadIsOldest(who: Who, s: Sessions, sorted: Sessions)
    requires IsStableSort(Select(who, s), sorted) && Select(who, s) != []
    ensures var m := Oldest(who, s);
            && m < |s| && Counts(who, s[m])
            && sorted != [] && sorted[0] == s[m]
            && IsStableSort(Select(who, RemoveAt(s, m)), sorted[1..])
            && |Select(who, RemoveAt(s, m))| == |Select(who, s)| - 1
  {
    var m := Oldest(who, s);
    OldestIsFirstMinimum(who, s);
    FilterMembers(Counted(who), s);
    OldestOfSelected(who, s, m);
    var k := |Select(who, s[..m])|;
    StableSortHead(Select(who, s), sorted, k);
    StableSortTail(Select(who, s), sorted, k);
  }

  /** One round of the slow form. */
  lemma EvictOne(who: Who, s: Sessions, m: nat, max: nat)
    requires Distinct(s) && m == Oldest(who, s) < |s| && max < |Select(who, s)|
    ensures Delete(s, s[m].sessionId) == RemoveAt(s, m) && Distinct(RemoveAt(s, m))
    ensures Trim(who, s, max) == Trim(who, RemoveAt(s, m), max)
    ensures Trimmed(who, s, max) == [s[m]] + Trimmed(who, RemoveAt(s, m), max)
  {
    IndexOfDistinct(s, m);
  }

  lemma {:induction false} DeletingTrimmedTrims(who: Who, s: Sessions, max: nat)
    requires Distinct(s)
    ensures DeleteAll(s, Trimmed(who, s, max)) == Trim(who, s, max)
    decreases |s|
  {
    var m := Oldest(who, s);
    if |Select(who, s)| > max && m < |s| {
      EvictOne(who, s, m, max);
      DeletingTrimmedTrims(who, RemoveAt(s, m), max);
      assert Trimmed(who, s, max)[1..] == Trimmed(who, RemoveAt(s, m), max);
    }
  }

  lemma {:induction false} SortedPrefixIsTrimmed(who: Who, s: Sessions, sorted: Sessions, max: nat, n: nat)
    requires Distinct(s) && IsStableSort(Select(who, s), sorted) && n == |Select(who, s)| - max
    ensures n <= |sorted|
    ensures sorted[..n] == Trimmed(who, s, max)
    decreases n
  {
    if n > 0 {
      var m := Oldest(who, s);
      SortedHeadIsOldest(who, s, sorted);
      EvictOne(who, s, m, max);
      SortedPrefixIsTrimmed(who, RemoveAt(s, m), sorted[1..], max, n - 1);
      PrefixCons(sorted, n);
    }
  }

  /** The fast form (sort once, cut a prefix) does what the slow form (take the
      minimum, again and again) does: the same entries go, in the same order. */
  lemma SortedPrefixIsTrim(who: Who, s: Sessions, sorted: Sessions, max: nat)
    requires Distinct(s) && IsStableSort(Select(who, s), sorted) && max <= |Select(who, s)|
    ensures var n := |Select(who, s)| - max;
            && n <= |sorted|
            && sorted[..n] == Trimmed(who, s, max)
            && DeleteAll(s, sorted[..n]) == Trim(who, s, max)
  {
    SortedPrefixIsTrimmed(who, s, sorted, max, |Select(who, s)| - max);
    DeletingTrimmedTrims(who, s, max);
  }

  // ---- The classes ----------------------------------------------------------

  /** The store's Map: distinct keys, in insertion order. */
  class SessionMap {
    var entries: Sessions

    ghost predicate Valid()
      reads this
    {
      Distinct(entries)
    }

    constructor ()
      ensures Valid() && entries == []
    {
      entries := [];
    }
  }

  /** The inner loop: the first entry with the least stamp. */
  method FindOldest(s: Sessions) returns (oldest: nat)
    requires s != []
    ensures FirstMinimum(Everyone, s, oldest)
  {
    oldest := 0;
    for i := 1 to |s|
      invariant 0 <= oldest < i
      invariant forall j :: 0 <= j < oldest ==> s[oldest].lastSeenAt < s[j].lastSeenAt
      invariant forall j :: oldest < j < i ==> s[oldest].lastSeenAt <= s[j].lastSeenAt
    {
      if s[i].lastSeenAt < s[oldest].lastSeenAt {
        oldest := i;
      }
    }
  }

  lemma EvictMinimum(s: Sessions, m: nat, max: nat)
    requires Distinct(s) && FirstMinimum(Everyone, s, m) && max < |s|
    ensures var t := Delete(s, s[m].sessionId);
            && |t| < |s| && Distinct(t)
            && Trim(Everyone, s, max) == Trim(Everyone, t, max)
            && Trimmed(Everyone, s, max) == [s[m]] + Trimmed(Everyone, t, max)
  {
    OldestIs(Everyone, s, m);
    FilterAll(Counted(Everyone), s);
    EvictOne(Everyone, s, m, max);
  }

  lemma TrimWithinCap(s: Sessions, max: nat)
    requires |s| <= max
    ensures Trim(Everyone, s, max) == s && Trimmed(Everyone, s, max) == []
  {
  }

  lemma Regroup(a: Sessions, b: Sessions, c: Sessions)
    ensures a + (b + c) == (a + b) + c
  {
  }

  /** Takes the minimum again and again until the map fits. */
  method EvictSessionsOverCap(sessions: SessionMap, maxSessions: nat) returns (evicted: Sessions)
    requires sessions.Valid()
    modifies sessions
    ensures sessions.Valid()
    ensures sessions.entries == Trim(Everyone, old(sessions.entries), maxSessions)
    ensures evicted == Trimmed(Everyone, old(sessions.entries), maxSessions)
    ensures |sessions.entries| <= maxSessions
  {
    hide Trim, Trimmed, Delete, Distinct, FirstMinimum;
    evicted := [];
    ghost var all := sessions.entries;
    while |sessions.entries| > maxSessions
      invariant sessions.Valid()
      invariant Trim(Everyone, sessions.entries, maxSessions) == Trim(Everyone, all, maxSessions)
      invariant evicted + Trimmed(Everyone, sessions.entries, maxSessions) == Trimmed(Everyone, all, maxSessions)
      decreases |sessions.entries|
    {
      var s := sessions.entries;
      var oldest := FindOldest(s);
      EvictMinimum(s, oldest, maxSessions);
      sessions.entries := Delete(s, s[oldest].sessionId);
      Regroup(evicted, [s[oldest]], Trimmed(Everyone, sessions.entries, maxSessions));
      evicted := evicted + [s[oldest]];
    }
    TrimWithinCap(sessions.entries, maxSessions);
    assert evicted + [] == evicted;
  }

  /** Sorts the account's entries once and deletes the prefix over the cap. */
  method EvictUserSessionsOverCap(sessions: SessionMap, owner: string, maxPerUser: nat) returns (evicted: Sessions)
    requires sessions.Valid()
    modifies sessions
    ensures sessions.Valid()
    ensures sessions.entries == Trim(OwnedBy(owner), old(sessions.entries), maxPerUser)
    ensures evicted == Trimmed(OwnedBy(owner), old(sessions.entries), maxPerUser)
  {
    ghost var s := sessions.entries;
    var own := Select(OwnedBy(owner), sessions.entries);
    if |own| <= maxPerUser {
      return [];
    }
    var sorted := SortByStamp(own);
    SortByStampIsStable(own);
    SortedPrefixIsTrim(OwnedBy(owner), s, sorted, maxPerUser);
    evicted := sorted[..|own| - maxPerUser];
    for i := 0 to |evicted|
      invariant DeleteAll(sessions.entries, evicted[i..]) == DeleteAll(s, evicted)
    {
      assert evicted[i..][1..] == evicted[i + 1..];
      sessions.entries := Delete(sessions.entries, evicted[i].sessionId);
    }
    TrimKeepsDistinct(OwnedBy(owner), s, maxPerUser);
  }

  function Ids(s: Sessions): seq<string> {
    seq(|s|, i requires 0 <= i < |s| => s[i].sessionId)
  }

  lemma PutKeepsDistinct(s: Sessions, r: Session)
    requires Distinct(s)
    ensures Distinct(Put(s, r))
  {
  }

  class InMemoryMcpSessionStore {
    const sessions: SessionMap
    const caps: Caps

    constructor (caps: Caps)
      ensures fresh(sessions) && sessions.Valid() && sessions.entries == [] && this.caps == caps
    {
      sessions := new SessionMap();
      this.caps := caps;
    }

    method Open(record: Session) returns (evicted: seq<string>)
      requires sessions.Valid()
      modifies sessions
      ensures sessions.Valid()
      ensures sessions.entries == AfterOpen(old(sessions.entries), record, caps)
      ensures evicted == Ids(EvictedByOpen(old(sessions.entries), record, caps))
    {
      PutKeepsDistinct(sessions.entries, record);
      sessions.entries := Put(sessions.entries, record);
      var own := EvictUserSessionsOverCap(sessions, record.owner, caps.maxPerUser);
      var others := EvictSessionsOverCap(sessions, caps.maxSessions);
      return Ids(own + others);
    }

    /** `now` is the clock the idle check reads, `at` the caller's stamp. */
    method Resume(sessionId: string, owner: string, at: int, now: int) returns (found: Option<Session>)
      requires sessions.Valid()
      modifies sessions
      ensures sessions.Valid()
      ensures found == ResumeAnswer(old(sessions.entries), sessionId, owner, at, now)
      ensures sessions.entries == AfterResume(old(sessions.entries), sessionId, owner, at, now)
    {
      var i := IndexOf(sessions.entries, sessionId);
      if i == |sessions.entries| || sessions.entries[i].owner != owner || IdledOut(sessions.entries[i], now) {
        return None;
      }
      sessions.entries := sessions.entries[i := sessions.entries[i].(lastSeenAt := at)];
      return Some(sessions.entries[i]);
    }

    method AttachScope(sessionId: string, scope: string)
      requires sessions.Valid()
      modifies sessions
      ensures sessions.Valid()
      ensures sessions.entries == AfterAttach(old(sessions.entries), sessionId, scope)
    {
      var i := IndexOf(sessions.entries, sessionId);
      if i < |sessions.entries| {
        sessions.entries := sessions.entries[i := sessions.entries[i].(defaultScope := Some(scope))];
      }
    }

    method Close(sessionId: string, owner: string) returns (ended: bool)
      requires sessions.Valid()
      modifies sessions
      ensures sessions.Valid()
      ensures ended <==> exists r :: r in old(sessions.entries) && r.sessionId == sessionId && r.owner == owner
      ensures forall r :: r in sessions.entries <==>
                r in old(sessions.entries) && !(r.sessionId == sessionId && r.owner == owner)
      ensures !ended ==> sessions.entries == old(sessions.entries)
      ensures ended == old(Closable(sessions.entries, sessionId, owner))
      ensures sessions.entries == AfterClose(old(sessions.entries), sessionId, owner)
    {
      var i := IndexOf(sessions.entries, sessionId);
      if i == |sessions.entries| || sessions.entries[i].owner != owner {
        return false;
      }
      sessions.entries := Delete(sessions.entries, sessionId);
      return true;
    }

    /** The timer's pass over the map: it deletes while it iterates. */
    method Sweep(now: int)
      requires sessions.Valid()
      modifies sessions
      ensures sessions.Valid()
      ensures sessions.entries == AfterSweep(old(sessions.entries), now)
    {
      var s := sessions.entries;
      for i := 0 to |s|
        invariant sessions.entries == Live(s[..i], now - IDLE_TTL_MS) + s[i..]
        invariant sessions.Valid()
      {
        SweepOne(s, i, now - IDLE_TTL_MS);
        if IdledOut(s[i], now) {
          sessions.entries := Delete(sessions.entries, s[i].sessionId);
        }
      }
      assert s[..|s|] == s;
    }
  }

  /** One step of the sweep's iteration. */
  lemma SweepOne(s: Sessions, i: nat, cutoff: int)
    requires i < |s| && Distinct(Live(s[..i], cutoff) + s[i..])
    ensures var e := Live(s[..i], cutoff) + s[i..]; var f := Live(s[..i + 1], cutoff) + s[i + 1..];
            if s[i].lastSeenAt < cutoff then Delete(e, s[i].sessionId) == f && Distinct(f) else e == f
  {
    var front, rest := Live(s[..i], cutoff), s[i + 1..];
    LiveOneMore(s, i, cutoff);
    HeadAndRest(s, i);
    if s[i].lastSeenAt < cutoff {
      assert front + [] == front;
      DeleteMiddle(front, s[i], rest);
    } else {
      hide Live, Distinct;
      Regroup(front, [s[i]], rest);
    }
  }

  lemma LiveOneMore(s: Sessions, i: nat, cutoff: int)
    requires i < |s|
    ensures Live(s[..i + 1], cutoff) == Live(s[..i], cutoff) + (if s[i].lastSeenAt < cutoff then [] else [s[i]])
  {
    assert s[..i + 1] == s[..i] + [s[i]];
    FilterConcat(SeenSince(cutoff), s[..i], [s[i]]);
    assert [s[i]][1..] == [];
  }

  lemma HeadAndRest(s: Sessions, i: nat)
    requires i < |s|
    ensures s[i..] == [s[i]] + s[i + 1..]
  {
  }

  lemma DeleteMiddle(front: Sessions, r: Session, rest: Sessions)
    requires Distinct(front + ([r] + rest))
    ensures Delete(front + ([r] + rest), r.sessionId) == front + rest && Distinct(front + rest)
  {
    var e := front + ([r] + rest);
    IndexOfDistinct(e, |front|);
    assert RemoveAt(e, |front|) == front + rest;
  }
}

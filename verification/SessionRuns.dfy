/** Whole runs of the in-memory session store: the background sweep cannot be
    observed, both caps always hold, and one account's opens cost the others no
    more than its unused allowance. */
module SessionRuns {
  import opened Outcomes
  import opened Lists
  import opened SessionEviction
  import opened SessionStore

  /** `HangUp` is the DELETE request: resume, then close what was resumed; `Close`
      is a close on its own. The store's clock is the run's; `at` is the stamp the
      caller passes. */
  datatype Op =
    | Open(record: Session)
    | Resume(id: string, owner: string, at: int)
    | Attach(id: string, scope: string)
    | HangUp(id: string, owner: string, at: int)
    | Close(id: string, owner: string)
    | Tick(ms: nat)
    | Sweep

  function After(caps: Caps, s: Sessions, now: int, op: Op): Sessions {
    match op
    case Open(record) => AfterOpen(s, record, caps)
    case Resume(id, owner, at) => AfterResume(s, id, owner, at, now)
    case Attach(id, scope) => AfterAttach(s, id, scope)
    case HangUp(id, owner, at) =>
      if Resumable(s, id, owner, now) then AfterClose(AfterResume(s, id, owner, at, now), id, owner) else s
    case Close(id, owner) => AfterClose(s, id, owner)
    case Tick(_) => s
    case Sweep => AfterSweep(s, now)
  }

  function Clock(now: int, op: Op): int {
    if op.Tick? then now + op.ms else now
  }

  /** What the caller gets: the answer of each resume. */
  function Answer(s: Sessions, now: int, op: Op): seq<Option<Session>> {
    if op.Resume? || op.HangUp? then [ResumeAnswer(s, op.id, op.owner, op.at, now)] else []
  }

  function Answers(caps: Caps, s: Sessions, now: int, ops: seq<Op>): seq<Option<Session>>
    decreases |ops|
  {
    if ops == [] then []
    else Answer(s, now, ops[0]) + Answers(caps, After(caps, s, now, ops[0]), Clock(now, ops[0]), ops[1..])
  }

  function Final(caps: Caps, s: Sessions, now: int, ops: seq<Op>): Sessions
    decreases |ops|
  {
    if ops == [] then s else Final(caps, After(caps, s, now, ops[0]), Clock(now, ops[0]), ops[1..])
  }

  function WithoutSweeps(ops: seq<Op>): seq<Op> {
    Filter((op: Op) => !op.Sweep?, ops)
  }

  /** Session ids are generated, so no open repeats one. */
  ghost predicate FreshIds(ops: seq<Op>, used: set<string>) {
    ops == [] ||
    (if ops[0].Open?
     then ops[0].record.sessionId !in used && FreshIds(ops[1..], used + {ops[0].record.sessionId})
     else FreshIds(ops[1..], used))
  }

  ghost predicate KnownIds(s: Sessions, used: set<string>) {
    forall r :: r in s ==> r.sessionId in used
  }

  // ---- The sweep cannot be observed ----------------------------------------

  /** A live entry sits in the swept map where the live ones before it end. */
  lemma LiveIndex(s: Sessions, i: nat, cutoff: int)
    requires Distinct(s) && i < |s| && cutoff <= s[i].lastSeenAt
    ensures var k := |Live(s[..i], cutoff)|;
            k < |Live(s, cutoff)| && Live(s, cutoff)[k] == s[i] && IndexOf(Live(s, cutoff), s[i].sessionId) == k
  {
    var before := Live(s[..i], cutoff);
    FilterSplit(SeenSince(cutoff), s, i);
    FilterMembers(SeenSince(cutoff), s[..i]);
    var t := Live(s, cutoff);
    assert t[|before|] == s[i];
    forall j | 0 <= j < |before| ensures t[j].sessionId != s[i].sessionId {
      assert before[j] in s[..i];
    }
  }

  lemma IndexOfAbsent(s: Sessions, id: string)
    ensures IndexOf(s, id) == |s| <==> forall r :: r in s ==> r.sessionId != id
  {
  }

  /** Looking a live entry up finds the same one before and after a sweep. */
  lemma LookupLive(s: Sessions, id: string, cutoff: int)
    requires Distinct(s)
    ensures var t := Live(s, cutoff);
            if Has(s, id) && cutoff <= s[IndexOf(s, id)].lastSeenAt
            then Has(t, id) && t[IndexOf(t, id)] == s[IndexOf(s, id)]
              && IndexOf(t, id) == |Live(s[..IndexOf(s, id)], cutoff)|
            else !Has(t, id)
  {
    var i := IndexOf(s, id);
    if i < |s| && cutoff <= s[i].lastSeenAt {
      LiveIndex(s, i, cutoff);
    } else {
      FilterMembers(SeenSince(cutoff), s);
      IndexOfAbsent(s, id);
      IndexOfAbsent(Live(s, cutoff), id);
      forall r | r in Live(s, cutoff) ensures r.sessionId != id {
        var j :| 0 <= j < |s| && s[j] == r;
        assert j != i;
      }
    }
  }

  /** Overwriting one entry, seen through a sweep. */
  lemma LiveUpdate(s: Sessions, i: nat, r: Session, cutoff: int)
    requires i < |s|
    ensures Live(s[i := r], cutoff) ==
            Live(s[..i], cutoff) + (if cutoff <= r.lastSeenAt then [r] else []) + Live(s[i + 1..], cutoff)
  {
    FilterSplit(SeenSince(cutoff), s[i := r], i);
    assert s[i := r][..i] == s[..i] && s[i := r][i + 1..] == s[i + 1..];
  }

  /** Around a live entry the swept map is the sweep of what lies around it. */
  lemma LiveSides(s: Sessions, id: string, cutoff: int)
    requires Distinct(s) && Has(s, id) && cutoff <= s[IndexOf(s, id)].lastSeenAt
    ensures var i := IndexOf(s, id); var t := Live(s, cutoff); var k := IndexOf(t, id);
            && k < |t|
            && t[..k] == Live(s[..i], cutoff) && Live(t[..k], cutoff) == t[..k]
            && t[k + 1..] == Live(s[i + 1..], cutoff) && Live(t[k + 1..], cutoff) == t[k + 1..]
  {
    hide Live, IndexOf, Distinct;
    var i := IndexOf(s, id);
    var before, after := Live(s[..i], cutoff), Live(s[i + 1..], cutoff);
    LookupLive(s, id, cutoff);
    LiveAround(s, i, cutoff);
    PartsAround(before, s[i], after);
    LiveTwice(s[..i], cutoff, cutoff);
    LiveTwice(s[i + 1..], cutoff, cutoff);
  }

  lemma PartsAround(before: Sessions, r: Session, after: Sessions)
    ensures var t := before + [r] + after; t[..|before|] == before && t[|before| + 1..] == after
  {
  }

  lemma UpdateSeenBySweep(s: Sessions, i: nat, t: Sessions, k: nat, r: Session, cutoff: int)
    requires i < |s| && k < |t|
    requires t[..k] == Live(s[..i], cutoff) && Live(t[..k], cutoff) == t[..k]
    requires t[k + 1..] == Live(s[i + 1..], cutoff) && Live(t[k + 1..], cutoff) == t[k + 1..]
    ensures Live(s[i := r], cutoff) == Live(t[k := r], cutoff)
  {
    hide Live;
    LiveUpdate(s, i, r, cutoff);
    LiveUpdate(t, k, r, cutoff);
  }

  /** Overwriting an entry found by id commutes with a sweep before it. */
  lemma UpdateCommutes(s: Sessions, id: string, r: Session, cutoff: int)
    requires Distinct(s) && Has(s, id) && cutoff <= s[IndexOf(s, id)].lastSeenAt
    ensures var t := Live(s, cutoff);
            Has(t, id) && Live(s[IndexOf(s, id) := r], cutoff) == Live(t[IndexOf(t, id) := r], cutoff)
  {
    hide Live, IndexOf, Distinct;
    LiveSides(s, id, cutoff);
    UpdateSeenBySweep(s, IndexOf(s, id), Live(s, cutoff), IndexOf(Live(s, cutoff), id), r, cutoff);
  }

  lemma DeleteCommutes(s: Sessions, id: string, cutoff: int)
    requires Distinct(s)
    ensures Live(Delete(s, id), cutoff) == Live(Delete(Live(s, cutoff), id), cutoff)
  {
    var i := IndexOf(s, id);
    var t := Live(s, cutoff);
    if i < |s| && cutoff <= s[i].lastSeenAt {
      LiveSides(s, id, cutoff);
      FilterSplit(SeenSince(cutoff), s, i);
      FilterSplit(SeenSince(cutoff), t, IndexOf(t, id));
    } else {
      LookupLive(s, id, cutoff);
      LiveTwice(s, cutoff, cutoff);
      if i < |s| {
        FilterSplit(SeenSince(cutoff), s, i);
      }
    }
  }

  /** Closing an idle session does to the live ones what closing a swept one does. */
  lemma CloseCommutes(s: Sessions, id: string, owner: string, cutoff: int)
    requires Distinct(s)
    ensures Live(AfterClose(s, id, owner), cutoff) == Live(AfterClose(Live(s, cutoff), id, owner), cutoff)
  {
    LookupLive(s, id, cutoff);
    LiveTwice(s, cutoff, cutoff);
    DeleteCommutes(s, id, cutoff);
  }

  lemma OpenCommutes(s: Sessions, r: Session, caps: Caps, cutoff: int)
    requires !Has(s, r.sessionId)
    ensures Live(AfterOpen(s, r, caps), cutoff) == Live(AfterOpen(Live(s, cutoff), r, caps), cutoff)
  {
    var t := Live(s, cutoff);
    FilterMembers(SeenSince(cutoff), s);
    IndexOfAbsent(s, r.sessionId);
    IndexOfAbsent(t, r.sessionId);
    var who := OwnedBy(r.owner);
    SweepCommutesWithTrim(who, s + [r], caps.maxPerUser, cutoff);
    SweepCommutesWithTrim(Everyone, Trim(who, s + [r], caps.maxPerUser), caps.maxSessions, cutoff);
    SweepCommutesWithTrim(who, t + [r], caps.maxPerUser, cutoff);
    SweepCommutesWithTrim(Everyone, Trim(who, t + [r], caps.maxPerUser), caps.maxSessions, cutoff);
    FilterConcat(SeenSince(cutoff), s, [r]);
    FilterConcat(SeenSince(cutoff), t, [r]);
    LiveTwice(s, cutoff, cutoff);
  }

  lemma ResumeCommutes(s: Sessions, id: string, owner: string, at: int, now: int)
    requires Distinct(s)
    ensures var c := now - IDLE_TTL_MS; var t := Live(s, c);
            && ResumeAnswer(s, id, owner, at, now) == ResumeAnswer(t, id, owner, at, now)
            && Live(AfterResume(s, id, owner, at, now), c) == Live(AfterResume(t, id, owner, at, now), c)
  {
    var c := now - IDLE_TTL_MS;
    LookupLive(s, id, c);
    LiveTwice(s, c, c);
    if Resumable(s, id, owner, now) {
      UpdateCommutes(s, id, s[IndexOf(s, id)].(lastSeenAt := at), c);
    }
  }

  lemma AttachCommutes(s: Sessions, id: string, scope: string, cutoff: int)
    requires Distinct(s)
    ensures Live(AfterAttach(s, id, scope), cutoff) == Live(AfterAttach(Live(s, cutoff), id, scope), cutoff)
  {
    var i := IndexOf(s, id);
    LookupLive(s, id, cutoff);
    LiveTwice(s, cutoff, cutoff);
    if i < |s| {
      var r := s[i].(defaultScope := Some(scope));
      if cutoff <= s[i].lastSeenAt {
        UpdateCommutes(s, id, r, cutoff);
      } else {
        LiveUpdate(s, i, r, cutoff);
        FilterSplit(SeenSince(cutoff), s, i);
      }
    }
  }

  lemma UpdateKeepsDistinct(s: Sessions, i: nat, r: Session)
    requires Distinct(s) && i < |s| && r.sessionId == s[i].sessionId
    ensures Distinct(s[i := r])
  {
  }

  lemma DeleteKeepsDistinct(s: Sessions, id: string)
    requires Distinct(s)
    ensures Distinct(Delete(s, id))
  {
  }

  lemma {:induction false} LiveKeepsDistinct(s: Sessions, cutoff: int)
    requires Distinct(s)
    ensures Distinct(Live(s, cutoff))
  {
    if s != [] {
      LiveKeepsDistinct(s[1..], cutoff);
      FilterMembers(SeenSince(cutoff), s[1..]);
      var rest := Live(s[1..], cutoff);
      forall j | 0 <= j < |rest| ensures rest[j].sessionId != s[0].sessionId {
        assert rest[j] in rest && rest[j] in s[1..];
      }
    }
  }

  /** The fresh stamp of a resume is gone with the entry. */
  lemma ClosingWhatWasResumed(s: Sessions, id: string, owner: string, at: int, now: int)
    requires Distinct(s) && Resumable(s, id, owner, now)
    ensures AfterClose(AfterResume(s, id, owner, at, now), id, owner) == Delete(s, id)
  {
    var i := IndexOf(s, id);
    var u := AfterResume(s, id, owner, at, now);
    UpdateKeepsDistinct(s, i, u[i]);
    IndexOfDistinct(u, i);
    assert RemoveAt(u, i) == RemoveAt(s, i);
  }

  lemma AfterKeepsDistinct(caps: Caps, s: Sessions, now: int, op: Op)
    requires Distinct(s)
    ensures Distinct(After(caps, s, now, op))
  {
    match op
    case Resume(id, owner, at) =>
      if Resumable(s, id, owner, now) {
        UpdateKeepsDistinct(s, IndexOf(s, id), s[IndexOf(s, id)].(lastSeenAt := at));
      }
    case Attach(id, scope) =>
      if Has(s, id) {
        UpdateKeepsDistinct(s, IndexOf(s, id), s[IndexOf(s, id)].(defaultScope := Some(scope)));
      }
    case Open(r) =>
      PutKeepsDistinct(s, r);
      TrimKeepsDistinct(OwnedBy(r.owner), Put(s, r), caps.maxPerUser);
      TrimKeepsDistinct(Everyone, Trim(OwnedBy(r.owner), Put(s, r), caps.maxPerUser), caps.maxSessions);
    case HangUp(id, owner, at) =>
      if Resumable(s, id, owner, now) {
        ClosingWhatWasResumed(s, id, owner, at, now);
        DeleteKeepsDistinct(s, id);
      }
    case Close(id, _) => DeleteKeepsDistinct(s, id);
    case Sweep => LiveKeepsDistinct(s, now - IDLE_TTL_MS);
    case _ =>
  }

  lemma HangUpCommutes(s: Sessions, id: string, owner: string, at: int, now: int)
    requires Distinct(s)
    ensures var c := now - IDLE_TTL_MS; var t := Live(s, c);
            && Resumable(s, id, owner, now) == Resumable(t, id, owner, now)
            && (Resumable(s, id, owner, now) ==>
                  Live(AfterClose(AfterResume(s, id, owner, at, now), id, owner), c) ==
                  Live(AfterClose(AfterResume(t, id, owner, at, now), id, owner), c))
  {
    var c := now - IDLE_TTL_MS;
    var t := Live(s, c);
    LookupLive(s, id, c);
    if Resumable(s, id, owner, now) {
      LiveKeepsDistinct(s, c);
      ClosingWhatWasResumed(s, id, owner, at, now);
      ClosingWhatWasResumed(t, id, owner, at, now);
      DeleteCommutes(s, id, c);
    }
  }

  /** Any operation after a sweep answers and leaves what it would without it. */
  lemma OpCommutesWithSweep(caps: Caps, s: Sessions, now: int, op: Op)
    requires Distinct(s) && (op.Open? ==> !Has(s, op.record.sessionId))
    ensures var c := now - IDLE_TTL_MS; var t := Live(s, c);
            && Answer(s, now, op) == Answer(t, now, op)
            && Live(After(caps, s, now, op), c) == Live(After(caps, t, now, op), c)
  {
    var c := now - IDLE_TTL_MS;
    LiveTwice(s, c, c);
    match op
    case Open(r) => OpenCommutes(s, r, caps, c);
    case Resume(id, owner, at) => ResumeCommutes(s, id, owner, at, now);
    case Attach(id, scope) => AttachCommutes(s, id, scope, c);
    case HangUp(id, owner, at) =>
      ResumeCommutes(s, id, owner, at, now);
      HangUpCommutes(s, id, owner, at, now);
    case Close(id, owner) => CloseCommutes(s, id, owner, c);
    case _ =>
  }

  /** Two maps whose live entries agree. */
  ghost predicate SameLive(a: Sessions, b: Sessions, now: int) {
    Live(a, now - IDLE_TTL_MS) == Live(b, now - IDLE_TTL_MS)
  }

  lemma StepKeepsSameLive(caps: Caps, a: Sessions, b: Sessions, now: int, op: Op)
    requires Distinct(a) && Distinct(b) && SameLive(a, b, now)
    requires op.Open? ==> !Has(a, op.record.sessionId) && !Has(b, op.record.sessionId)
    ensures Answer(a, now, op) == Answer(b, now, op)
    ensures SameLive(After(caps, a, now, op), After(caps, b, now, op), Clock(now, op))
  {
    OpCommutesWithSweep(caps, a, now, op);
    OpCommutesWithSweep(caps, b, now, op);
    var c := now - IDLE_TTL_MS;
    var later := Clock(now, op) - IDLE_TTL_MS;
    LiveTwice(After(caps, a, now, op), c, later);
    LiveTwice(After(caps, b, now, op), c, later);
  }

  lemma KnownIdsStep(caps: Caps, s: Sessions, now: int, op: Op, used: set<string>)
    requires KnownIds(s, used)
    ensures KnownIds(After(caps, s, now, op), if op.Open? then used + {op.record.sessionId} else used)
  {
    match op
    case Open(r) =>
      var who := OwnedBy(r.owner);
      TrimKeepsOnlyMembers(who, Put(s, r), caps.maxPerUser);
      TrimKeepsOnlyMembers(Everyone, Trim(who, Put(s, r), caps.maxPerUser), caps.maxSessions);
    case Sweep => FilterMembers(SeenSince(now - IDLE_TTL_MS), s);
    case _ =>
  }

  lemma {:induction false} SweepsDoNotShow(caps: Caps, a: Sessions, b: Sessions, now: int, ops: seq<Op>,
          used: set<string>)
    requires Distinct(a) && Distinct(b) && SameLive(a, b, now)
    requires KnownIds(a, used) && KnownIds(b, used) && FreshIds(ops, used)
    ensures Answers(caps, a, now, ops) == Answers(caps, b, now, WithoutSweeps(ops))
    decreases |ops|
  {
    if ops != [] {
      var op := ops[0];
      AfterKeepsDistinct(caps, a, now, op);
      KnownIdsStep(caps, a, now, op, used);
      if op.Sweep? {
        LiveTwice(a, now - IDLE_TTL_MS, now - IDLE_TTL_MS);
        SweepsDoNotShow(caps, AfterSweep(a, now), b, now, ops[1..], used);
        assert WithoutSweeps(ops) == WithoutSweeps(ops[1..]);
      } else {
        var known := if op.Open? then used + {op.record.sessionId} else used;
        AfterKeepsDistinct(caps, b, now, op);
        KnownIdsStep(caps, b, now, op, used);
        if op.Open? {
          IndexOfAbsent(a, op.record.sessionId);
          IndexOfAbsent(b, op.record.sessionId);
        }
        StepKeepsSameLive(caps, a, b, now, op);
        SweepsDoNotShow(caps, After(caps, a, now, op), After(caps, b, now, op), Clock(now, op), ops[1..], known);
        assert WithoutSweeps(ops) == [op] + WithoutSweeps(ops[1..]);
        assert WithoutSweeps(ops)[1..] == WithoutSweeps(ops[1..]);
      }
    }
  }

  /** Two runs that differ only in where sweeps happen answer every request
      alike, although both caps count sessions a sweep has not removed yet. */
  lemma SweepsAreUnobservable(caps: Caps, s: Sessions, now: int, one: seq<Op>, two: seq<Op>, used: set<string>)
    requires Distinct(s) && KnownIds(s, used) && FreshIds(one, used) && FreshIds(two, used)
    requires WithoutSweeps(one) == WithoutSweeps(two)
    ensures Answers(caps, s, now, one) == Answers(caps, s, now, two)
  {
    SweepsDoNotShow(caps, s, s, now, one, used);
    SweepsDoNotShow(caps, s, s, now, two, used);
  }

  // ---- Both caps, always -----------------------------------------------------

  ghost predicate WithinCaps(caps: Caps, s: Sessions) {
    |s| <= caps.maxSessions && forall owner :: |Select(OwnedBy(owner), s)| <= caps.maxPerUser
  }

  lemma {:induction false} TrimShrinks(who: Who, other: Who, s: Sessions, max: nat)
    ensures |Select(other, Trim(who, s, max))| <= |Select(other, s)|
    ensures |Select(other, Trim(who, s, max))| + |Select(other, Trimmed(who, s, max))| == |Select(other, s)|
    decreases |s|
  {
    var m := Oldest(who, s);
    if |Select(who, s)| > max && m < |s| {
      FilterSplit(Counted(other), s, m);
      TrimShrinks(who, other, RemoveAt(s, m), max);
      FilterConcat(Counted(other), [s[m]], Trimmed(who, RemoveAt(s, m), max));
    }
  }

  /** After any open both caps hold, from any map whatever. */
  lemma OpenEnforcesCaps(caps: Caps, s: Sessions, r: Session)
    ensures |AfterOpen(s, r, caps)| <= caps.maxSessions
    ensures |Select(OwnedBy(r.owner), AfterOpen(s, r, caps))| <= caps.maxPerUser
  {
    var who := OwnedBy(r.owner);
    var own := Trim(who, Put(s, r), caps.maxPerUser);
    TrimMeetsCap(who, Put(s, r), caps.maxPerUser);
    TrimMeetsCap(Everyone, own, caps.maxSessions);
    FilterAll(Counted(Everyone), Trim(Everyone, own, caps.maxSessions));
    TrimShrinks(Everyone, who, own, caps.maxSessions);
  }

  /** The new session survives its own open when it is stamped last. */
  lemma OpenKeepsNewSession(caps: Caps, s: Sessions, r: Session)
    requires !Has(s, r.sessionId) && forall x :: x in s ==> x.lastSeenAt <= r.lastSeenAt
    ensures r in AfterOpen(s, r, caps)
  {
    var who := OwnedBy(r.owner);
    assert LatestLast(s + [r]);
    TrimKeepsLatest(who, s + [r], caps.maxPerUser);
    var own := Trim(who, s + [r], caps.maxPerUser);
    TrimKeepsOnlyMembers(who, s + [r], caps.maxPerUser);
    assert forall i :: 0 <= i < |own| ==> own[i] in own && own[i] in s + [r];
    TrimKeepsLatest(Everyone, own, caps.maxSessions);
  }

  /** Requests stamp sessions with times the clock has reached. */
  predicate InTime(op: Op, now: int) {
    match op
    case Open(r) => r.lastSeenAt <= now
    case Resume(_, _, at) => at <= now
    case HangUp(_, _, at) => at <= now
    case _ => true
  }

  predicate AllStamped(ops: seq<Op>, now: int)
    decreases |ops|
  {
    ops == [] || (InTime(ops[0], now) && AllStamped(ops[1..], Clock(now, ops[0])))
  }

  ghost predicate SeenBy(s: Sessions, now: int) {
    forall x :: x in s ==> x.lastSeenAt <= now
  }

  lemma OverwriteSeenBy(s: Sessions, i: nat, r: Session, now: int)
    requires i < |s| && SeenBy(s, now) && r.lastSeenAt <= now
    ensures SeenBy(s[i := r], now)
  {
    forall x | x in s[i := r] ensures x.lastSeenAt <= now {
      var j :| 0 <= j < |s| && s[i := r][j] == x;
      assert s[j] in s;
    }
  }

  lemma DeleteSeenBy(s: Sessions, id: string, now: int)
    requires SeenBy(s, now)
    ensures SeenBy(Delete(s, id), now)
  {
  }

  lemma StepSeenBy(caps: Caps, s: Sessions, now: int, op: Op)
    requires SeenBy(s, now) && InTime(op, now)
    ensures SeenBy(After(caps, s, now, op), Clock(now, op))
  {
    match op
    case Open(r) =>
      var stored := Put(s, r);
      if Has(s, r.sessionId) {
        OverwriteSeenBy(s, IndexOf(s, r.sessionId), r, now);
      }
      TrimKeepsOnlyMembers(OwnedBy(r.owner), stored, caps.maxPerUser);
      TrimKeepsOnlyMembers(Everyone, Trim(OwnedBy(r.owner), stored, caps.maxPerUser), caps.maxSessions);
    case Resume(id, owner, at) =>
      if Resumable(s, id, owner, now) {
        OverwriteSeenBy(s, IndexOf(s, id), s[IndexOf(s, id)].(lastSeenAt := at), now);
      }
    case Attach(id, scope) =>
      if Has(s, id) {
        assert s[IndexOf(s, id)] in s;
        OverwriteSeenBy(s, IndexOf(s, id), s[IndexOf(s, id)].(defaultScope := Some(scope)), now);
      }
    case HangUp(id, owner, at) =>
      if Resumable(s, id, owner, now) {
        OverwriteSeenBy(s, IndexOf(s, id), s[IndexOf(s, id)].(lastSeenAt := at), now);
        DeleteSeenBy(AfterResume(s, id, owner, at, now), id, now);
      }
    case Close(id, _) => DeleteSeenBy(s, id, now);
    case Tick(_) =>
    case Sweep => FilterMembers(SeenSince(now - IDLE_TTL_MS), s);
  }

  lemma {:induction false} RunSeenBy(caps: Caps, s: Sessions, now: int, ops: seq<Op>)
    requires SeenBy(s, now) && AllStamped(ops, now)
    ensures SeenBy(Final(caps, s, now, ops), FinalClock(now, ops))
    decreases |ops|
  {
    hide SeenBy, InTime, After;
    if ops != [] {
      StepSeenBy(caps, s, now, ops[0]);
      RunSeenBy(caps, After(caps, s, now, ops[0]), Clock(now, ops[0]), ops[1..]);
    }
  }

  function FinalClock(now: int, ops: seq<Op>): int
    decreases |ops|
  {
    if ops == [] then now else FinalClock(Clock(now, ops[0]), ops[1..])
  }

  /** Over any run whose stamps are times the clock had reached, a session opened
      with the current time survives its own open, whatever the caps. */
  lemma NewSessionSurvivesInEveryRun(caps: Caps, start: int, ops: seq<Op>, r: Session)
    requires AllStamped(ops, start) && !Has(Final(caps, [], start, ops), r.sessionId)
    requires r.lastSeenAt == FinalClock(start, ops)
    ensures r in AfterOpen(Final(caps, [], start, ops), r, caps)
  {
    RunSeenBy(caps, [], start, ops);
    OpenKeepsNewSession(caps, Final(caps, [], start, ops), r);
  }

  lemma OverwriteCounts(who: Who, s: Sessions, i: nat, r: Session)
    requires i < |s| && r.owner == s[i].owner
    ensures |Select(who, s[i := r])| == |Select(who, s)|
  {
    FilterSplit(Counted(who), s, i);
    FilterSplit(Counted(who), s[i := r], i);
    assert s[i := r][..i] == s[..i] && s[i := r][i + 1..] == s[i + 1..];
  }

  /** What a resume or an attach does to the counts: nothing. */
  lemma TouchCounts(s: Sessions, now: int, op: Op, caps: Caps, who: Who)
    requires op.Resume? || op.Attach? || op.Tick?
    ensures |After(caps, s, now, op)| == |s| && |Select(who, After(caps, s, now, op))| == |Select(who, s)|
  {
    if !op.Tick? && Has(s, op.id) {
      var i := IndexOf(s, op.id);
      var touched := if op.Resume? then s[i].(lastSeenAt := op.at) else s[i].(defaultScope := Some(op.scope));
      OverwriteCounts(who, s, i, touched);
    }
  }

  lemma StepKeepsCaps(caps: Caps, s: Sessions, now: int, op: Op, owner: string)
    requires Distinct(s) && WithinCaps(caps, s) && (op.Open? ==> !Has(s, op.record.sessionId))
    ensures |After(caps, s, now, op)| <= caps.maxSessions
    ensures |Select(OwnedBy(owner), After(caps, s, now, op))| <= caps.maxPerUser
  {
    var who := OwnedBy(owner);
    match op
    case Open(r) =>
      OpenEnforcesCaps(caps, s, r);
      if owner != r.owner {
        TrimSparesOthers(r.owner, owner, s + [r], caps.maxPerUser);
        FilterConcat(Counted(who), s, [r]);
        TrimShrinks(Everyone, who, Trim(OwnedBy(r.owner), s + [r], caps.maxPerUser), caps.maxSessions);
      }
    case HangUp(id, o, at) =>
      if Resumable(s, id, o, now) {
        ClosingWhatWasResumed(s, id, o, at, now);
        FilterSplit(Counted(who), s, IndexOf(s, id));
      }
    case Close(id, o) =>
      if Closable(s, id, o) {
        FilterSplit(Counted(who), s, IndexOf(s, id));
      }
    case Sweep =>
      FiltersCommute(SeenSince(now - IDLE_TTL_MS), Counted(who), s);
    case _ => TouchCounts(s, now, op, caps, who);
  }

  lemma CapsHoldAfterStep(caps: Caps, s: Sessions, now: int, op: Op, used: set<string>)
    requires Distinct(s) && WithinCaps(caps, s) && KnownIds(s, used)
    requires op.Open? ==> op.record.sessionId !in used
    ensures WithinCaps(caps, After(caps, s, now, op))
  {
    if op.Open? {
      IndexOfAbsent(s, op.record.sessionId);
    }
    forall owner ensures |Select(OwnedBy(owner), After(caps, s, now, op))| <= caps.maxPerUser {
      StepKeepsCaps(caps, s, now, op, owner);
    }
    StepKeepsCaps(caps, s, now, op, "");
  }

  /** In every run that starts within the caps, the caps hold all along. */
  lemma {:induction false} CapsHoldInEveryRun(caps: Caps, s: Sessions, now: int, ops: seq<Op>, used: set<string>)
    requires Distinct(s) && WithinCaps(caps, s) && KnownIds(s, used) && FreshIds(ops, used)
    ensures WithinCaps(caps, Final(caps, s, now, ops))
    decreases |ops|
  {
    if ops != [] {
      var op := ops[0];
      CapsHoldAfterStep(caps, s, now, op, used);
      AfterKeepsDistinct(caps, s, now, op);
      KnownIdsStep(caps, s, now, op, used);
      CapsHoldInEveryRun(caps, After(caps, s, now, op), Clock(now, op), ops[1..],
                         if op.Open? then used + {op.record.sessionId} else used);
    }
  }

  // ---- The fence over runs -----------------------------------------------------

  function Others(user: string, s: Sessions): int {
    |s| - |Select(OwnedBy(user), s)|
  }

  /** Sessions of other accounts that a run's opens evicted. */
  function OthersEvicted(caps: Caps, s: Sessions, now: int, ops: seq<Op>, user: string): int
    decreases |ops|
  {
    if ops == [] then 0
    else
      (if ops[0].Open? then Others(user, EvictedByOpen(s, ops[0].record, caps)) else 0)
      + OthersEvicted(caps, After(caps, s, now, ops[0]), Clock(now, ops[0]), ops[1..], user)
  }

  /** What removes sessions without opening one. */
  predicate TakesAway(op: Op) {
    op.Sweep? || op.HangUp? || op.Close?
  }

  /** Sessions of `user` that a run's sweeps and closes took away. */
  function OwnGone(caps: Caps, s: Sessions, now: int, ops: seq<Op>, user: string): int
    decreases |ops|
  {
    if ops == [] then 0
    else
      (if TakesAway(ops[0]) then OwnCount(user, s) - OwnCount(user, After(caps, s, now, ops[0])) else 0)
      + OwnGone(caps, After(caps, s, now, ops[0]), Clock(now, ops[0]), ops[1..], user)
  }

  function OwnCount(user: string, s: Sessions): nat {
    |Select(OwnedBy(user), s)|
  }

  /** Only `user` opens; anybody may resume, attach a scope, close or let time
      pass, and sweeps come as they like. */
  predicate OnlyOpensBy(ops: seq<Op>, user: string) {
    forall i :: 0 <= i < |ops| && ops[i].Open? ==> ops[i].record.owner == user
  }

  /** One open evicts at most one session of another account, and only when it
      raises the opener's own count; at its cap it evicts none. */
  lemma OneOpenIsFenced(caps: Caps, s: Sessions, r: Session)
    requires !Has(s, r.sessionId) && WithinCaps(caps, s)
    ensures var own := |Select(OwnedBy(r.owner), s)|;
            var own' := |Select(OwnedBy(r.owner), AfterOpen(s, r, caps))|;
            && 0 <= Others(r.owner, EvictedByOpen(s, r, caps)) <= own' - own
            && (own == caps.maxPerUser ==> own' == own)
  {
    var who := OwnedBy(r.owner);
    var stored := s + [r];
    var kept := Trim(who, stored, caps.maxPerUser);
    FilterConcat(Counted(who), s, [r]);
    TrimMeetsCap(who, stored, caps.maxPerUser);
    TrimShrinks(who, who, stored, caps.maxPerUser);
    TrimConserves(who, stored, caps.maxPerUser);
    TrimMeetsCap(Everyone, kept, caps.maxSessions);
    TrimShrinks(Everyone, who, kept, caps.maxSessions);
    TrimConserves(Everyone, kept, caps.maxSessions);
    FilterAll(Counted(Everyone), kept);
    FilterAll(Counted(Everyone), Trim(Everyone, kept, caps.maxSessions));
    var a, b := Trimmed(who, stored, caps.maxPerUser), Trimmed(Everyone, kept, caps.maxSessions);
    FilterConcat(Counted(who), a, b);
    assert |multiset(stored)| == |stored| && |multiset(kept)| == |kept| && |multiset(a)| == |a| && |multiset(b)| == |b|;
  }

  /** What a sweep or a close does to an account: it takes away, or leaves. */
  lemma QuietStep(caps: Caps, s: Sessions, now: int, op: Op, user: string)
    requires Distinct(s) && !op.Open?
    ensures OwnCount(user, After(caps, s, now, op)) <= OwnCount(user, s)
    ensures !TakesAway(op) ==> OwnCount(user, After(caps, s, now, op)) == OwnCount(user, s)
  {
    match op
    case HangUp(id, owner, at) =>
      if Resumable(s, id, owner, now) {
        ClosingWhatWasResumed(s, id, owner, at, now);
        FilterSplit(Counted(OwnedBy(user)), s, IndexOf(s, id));
      }
    case Close(id, owner) =>
      if Closable(s, id, owner) {
        FilterSplit(Counted(OwnedBy(user)), s, IndexOf(s, id));
      }
    case Sweep => FiltersCommute(SeenSince(now - IDLE_TTL_MS), Counted(OwnedBy(user)), s);
    case _ => TouchCounts(s, now, op, caps, OwnedBy(user));
  }

  /** The bill for the others: a run in which one account opens evicts at most as
      many sessions of others as that account grew, counting again what sweeps and
      closes took from it; so never more than its unused allowance at the start and
      what it lost that way, and without such losses none once it is at its cap. */
  lemma {:induction false} FenceOverRuns(caps: Caps, s: Sessions, now: int, ops: seq<Op>, user: string,
          used: set<string>)
    requires Distinct(s) && WithinCaps(caps, s) && KnownIds(s, used) && FreshIds(ops, used)
    requires OnlyOpensBy(ops, user)
    ensures var gone := OwnGone(caps, s, now, ops, user);
            && 0 <= gone
            && 0 <= OthersEvicted(caps, s, now, ops, user)
                 <= OwnCount(user, Final(caps, s, now, ops)) - OwnCount(user, s) + gone
                 <= caps.maxPerUser - OwnCount(user, s) + gone
    decreases |ops|
  {
    if ops != [] {
      var op := ops[0];
      var t := After(caps, s, now, op);
      OneStepOfFence(caps, s, now, op, user, used);
      var known := if op.Open? then used + {op.record.sessionId} else used;
      hide After, Select, Others, WithinCaps, KnownIds, Distinct;
      FenceOverRuns(caps, t, Clock(now, op), ops[1..], user, known);
    }
  }

  lemma OneStepOfFence(caps: Caps, s: Sessions, now: int, op: Op, user: string, used: set<string>)
    requires Distinct(s) && WithinCaps(caps, s) && KnownIds(s, used)
    requires op.Open? ==> op.record.sessionId !in used && op.record.owner == user
    ensures var t := After(caps, s, now, op);
            && Distinct(t) && WithinCaps(caps, t) && OwnCount(user, t) <= caps.maxPerUser
            && KnownIds(t, if op.Open? then used + {op.record.sessionId} else used)
            && (if op.Open? then
                  0 <= Others(user, EvictedByOpen(s, op.record, caps)) <= OwnCount(user, t) - OwnCount(user, s)
                else if TakesAway(op) then OwnCount(user, t) <= OwnCount(user, s)
                else OwnCount(user, t) == OwnCount(user, s))
  {
    if op.Open? {
      IndexOfAbsent(s, op.record.sessionId);
      OneOpenIsFenced(caps, s, op.record);
    } else {
      QuietStep(caps, s, now, op, user);
    }
    CapsHoldAfterStep(caps, s, now, op, used);
    AfterKeepsDistinct(caps, s, now, op);
    KnownIdsStep(caps, s, now, op, used);
  }
}

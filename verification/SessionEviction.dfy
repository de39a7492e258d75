/** The session map of apps/server/src/mcp-session.memory-store.ts as an
    insertion-ordered list, and what the two eviction rules of
    apps/server/src/session-cap.ts do to it. */
module SessionEviction {
  import opened Outcomes
  import opened Lists

  datatype Session = Session(
    sessionId: string,
    owner: string,
    clientName: Option<string>,
    defaultScope: Option<string>,
    lastSeenAt: int)

  /** A JavaScript Map keyed on `sessionId`, in insertion order. */
  type Sessions = seq<Session>

  ghost predicate Distinct(s: Sessions) {
    forall i, j :: 0 <= i < j < |s| ==> s[i].sessionId != s[j].sessionId
  }

  /** The position of `id`, or the size of the map when it has no such entry. */
  function IndexOf(s: Sessions, id: string): (i: nat)
    ensures i <= |s|
    ensures i < |s| ==> s[i].sessionId == id
    ensures forall j :: 0 <= j < i ==> s[j].sessionId != id
  {
    if s == [] || s[0].sessionId == id then 0 else 1 + IndexOf(s[1..], id)
  }

  predicate Has(s: Sessions, id: string) {
    IndexOf(s, id) < |s|
  }

  /** Map.set: an existing key keeps its place, a new one goes last. */
  function Put(s: Sessions, r: Session): Sessions {
    var i := IndexOf(s, r.sessionId);
    if i < |s| then s[i := r] else s + [r]
  }

  /** Map.delete. */
  function Delete(s: Sessions, id: string): Sessions {
    var i := IndexOf(s, id);
    if i < |s| then RemoveAt(s, i) else s
  }

  // ---- Whom an eviction rule looks at --------------------------------------

  /** Everybody for the global cap, one account for the per-user cap. */
  datatype Who = Everyone | OwnedBy(owner: string)

  predicate Counts(who: Who, r: Session) {
    who.Everyone? || r.owner == who.owner
  }

  function Counted(who: Who): Session -> bool {
    (r: Session) => Counts(who, r)
  }

  function Select(who: Who, s: Sessions): Sessions {
    Filter(Counted(who), s)
  }

  /** The least recently seen entry the rule counts, the earliest inserted of
      several; the size of the map when it counts none. */
  function Oldest(who: Who, s: Sessions): (m: nat)
    ensures m <= |s|
  {
    if s == [] then 0
    else
      var m := Oldest(who, s[1..]);
      if Counts(who, s[0]) && (m == |s| - 1 || s[0].lastSeenAt <= s[1..][m].lastSeenAt) then 0 else 1 + m
  }

  /** `m` is the first minimum of the counted entries. */
  ghost predicate FirstMinimum(who: Who, s: Sessions, m: nat) {
    && m < |s| && Counts(who, s[m])
    && (forall j :: 0 <= j < m && Counts(who, s[j]) ==> s[m].lastSeenAt < s[j].lastSeenAt)
    && (forall j :: m < j < |s| && Counts(who, s[j]) ==> s[m].lastSeenAt <= s[j].lastSeenAt)
  }

  lemma {:induction false} OldestIsFirstMinimum(who: Who, s: Sessions)
    ensures Oldest(who, s) < |s| ==> FirstMinimum(who, s, Oldest(who, s))
    ensures Oldest(who, s) == |s| ==> forall j :: 0 <= j < |s| ==> !Counts(who, s[j])
  {
    if s != [] {
      OldestIsFirstMinimum(who, s[1..]);
      assert forall j :: 1 <= j < |s| ==> s[j] == s[1..][j - 1];
    }
  }

  /** The first minimum is unique. */
  lemma OldestIs(who: Who, s: Sessions, m: nat)
    requires FirstMinimum(who, s, m)
    ensures Oldest(who, s) == m
  {
    OldestIsFirstMinimum(who, s);
  }

  /** Least recently used entries go until at most `max` counted ones are left. */
  function Trim(who: Who, s: Sessions, max: nat): Sessions
    decreases |s|
  {
    var m := Oldest(who, s);
    if |Select(who, s)| <= max || m == |s| then s else Trim(who, RemoveAt(s, m), max)
  }

  /** The entries `Trim` removes, in the order it removes them. */
  function Trimmed(who: Who, s: Sessions, max: nat): Sessions
    decreases |s|
  {
    var m := Oldest(who, s);
    if |Select(who, s)| <= max || m == |s| then [] else [s[m]] + Trimmed(who, RemoveAt(s, m), max)
  }

  // ---- What a trim achieves ------------------------------------------------

  lemma {:induction false} TrimMeetsCap(who: Who, s: Sessions, max: nat)
    ensures |Select(who, Trim(who, s, max))| == (if |Select(who, s)| <= max then |Select(who, s)| else max)
    ensures |s| - |Trim(who, s, max)| == |Select(who, s)| - |Select(who, Trim(who, s, max))|
    decreases |s|
  {
    var m := Oldest(who, s);
    OldestIsFirstMinimum(who, s);
    FilterMembers(Counted(who), s);
    if |Select(who, s)| > max && m < |s| {
      FilterSplit(Counted(who), s, m);
      TrimMeetsCap(who, RemoveAt(s, m), max);
    }
  }

  lemma {:induction false} TrimConserves(who: Who, s: Sessions, max: nat)
    ensures multiset(Trim(who, s, max)) + multiset(Trimmed(who, s, max)) == multiset(s)
    decreases |s|
  {
    var m := Oldest(who, s);
    if |Select(who, s)| > max && m < |s| {
      TrimConserves(who, RemoveAt(s, m), max);
      RemoveAtConserves(s, m);
    }
  }

  lemma TrimKeepsOnlyMembers(who: Who, s: Sessions, max: nat)
    ensures forall r :: r in Trim(who, s, max) ==> r in s
  {
    TrimConserves(who, s, max);
    forall r | r in Trim(who, s, max) ensures r in s {
      assert r in multiset(Trim(who, s, max));
      assert r in multiset(s);
    }
  }

  lemma {:induction false} TrimKeepsDistinct(who: Who, s: Sessions, max: nat)
    requires Distinct(s)
    ensures Distinct(Trim(who, s, max))
    decreases |s|
  {
    var m := Oldest(who, s);
    if |Select(who, s)| > max && m < |s| {
      TrimKeepsDistinct(who, RemoveAt(s, m), max);
    }
  }

  /** The fence: trimming one account never removes another account's entries. */
  lemma {:induction false} TrimSparesOthers(owner: string, other: string, s: Sessions, max: nat)
    requires owner != other
    ensures Select(OwnedBy(other), Trim(OwnedBy(owner), s, max)) == Select(OwnedBy(other), s)
    decreases |s|
  {
    var m := Oldest(OwnedBy(owner), s);
    OldestIsFirstMinimum(OwnedBy(owner), s);
    if |Select(OwnedBy(owner), s)| > max && m < |s| {
      TrimSparesOthers(owner, other, RemoveAt(s, m), max);
      FilterSplit(Counted(OwnedBy(other)), s, m);
    }
  }

  function Last(s: Sessions): Session
    requires s != []
  {
    s[|s| - 1]
  }

  ghost predicate LatestLast(s: Sessions) {
    s != [] && forall i :: 0 <= i < |s| ==> s[i].lastSeenAt <= Last(s).lastSeenAt
  }

  lemma CountedBeforeLast(who: Who, s: Sessions) returns (j: nat)
    requires 1 < |Select(who, s)|
    ensures j < |s| - 1 && Counts(who, s[j])
  {
    var front := s[..|s| - 1];
    FilterConcat(Counted(who), front, [Last(s)]);
    assert s == front + [Last(s)];
    FilterMembers(Counted(who), front);
    j :| 0 <= j < |front| && Counts(who, front[j]);
  }

  /** With two counted entries the latest stamped, last inserted one is not the oldest. */
  lemma LatestIsNotOldest(who: Who, s: Sessions)
    requires 1 < |Select(who, s)| && LatestLast(s)
    ensures Oldest(who, s) < |s| - 1
  {
    var j := CountedBeforeLast(who, s);
    OldestIsFirstMinimum(who, s);
    assert s[j].lastSeenAt <= Last(s).lastSeenAt;
  }

  lemma LatestLastStays(s: Sessions, i: nat)
    requires LatestLast(s) && i < |s| - 1
    ensures LatestLast(RemoveAt(s, i)) && Last(RemoveAt(s, i)) == Last(s)
  {
  }

  /** The latest stamped, last inserted entry survives any positive cap. */
  lemma {:induction false} TrimKeepsLatest(who: Who, s: Sessions, max: nat)
    requires LatestLast(s) && 0 < max
    ensures Trim(who, s, max) != [] && Last(Trim(who, s, max)) == Last(s)
    decreases |s|
  {
    var m := Oldest(who, s);
    if |Select(who, s)| > max && m < |s| {
      LatestIsNotOldest(who, s);
      LatestLastStays(s, m);
      var t := RemoveAt(s, m);
      TrimKeepsLatest(who, t, max);
      assert Trim(who, s, max) == Trim(who, t, max);
    }
  }

  // ---- The sweep -----------------------------------------------------------

  /** The entries last seen at `cutoff` or later: what a sweep leaves. */
  function SeenSince(cutoff: int): Session -> bool {
    (r: Session) => cutoff <= r.lastSeenAt
  }

  function Live(s: Sessions, cutoff: int): Sessions {
    Filter(SeenSince(cutoff), s)
  }

  lemma LiveTwice(s: Sessions, early: int, late: int)
    requires early <= late
    ensures Live(Live(s, early), late) == Live(s, late)
  {
    FilterTwice(SeenSince(early), SeenSince(late), SeenSince(late), s);
  }

  /** With nothing counted below the cutoff, selecting sees the live entries only. */
  lemma SelectLive(who: Who, s: Sessions, cutoff: int)
    ensures |Select(who, Live(s, cutoff))| <= |Select(who, s)|
    ensures (forall j :: 0 <= j < |s| && Counts(who, s[j]) ==> cutoff <= s[j].lastSeenAt) ==>
              Select(who, Live(s, cutoff)) == Select(who, s)
  {
    FiltersCommute(SeenSince(cutoff), Counted(who), s);
    if forall j :: 0 <= j < |s| && Counts(who, s[j]) ==> cutoff <= s[j].lastSeenAt {
      FilterMembers(Counted(who), s);
      FilterAll(SeenSince(cutoff), Select(who, s));
    }
  }

  /** A live oldest entry is the oldest of the live ones as well. */
  lemma OldestOfLive(who: Who, before: Sessions, r: Session, after: Sessions, cutoff: int)
    requires FirstMinimum(who, before + [r] + after, |before|) && cutoff <= r.lastSeenAt
    ensures FirstMinimum(who, Live(before, cutoff) + [r] + Live(after, cutoff), |Live(before, cutoff)|)
  {
    var s := before + [r] + after;
    var b, a := Live(before, cutoff), Live(after, cutoff);
    var t := b + [r] + a;
    FilterMembers(SeenSince(cutoff), before);
    FilterMembers(SeenSince(cutoff), after);
    forall j | 0 <= j < |b| && Counts(who, t[j]) ensures r.lastSeenAt < t[j].lastSeenAt {
      assert b[j] in before;
      var i :| 0 <= i < |before| && before[i] == b[j];
      assert s[i] == t[j];
    }
    forall j | |b| < j < |t| && Counts(who, t[j]) ensures r.lastSeenAt <= t[j].lastSeenAt {
      assert a[j - |b| - 1] in after;
      var i :| 0 <= i < |after| && after[i] == a[j - |b| - 1];
      assert s[|before| + 1 + i] == t[j];
    }
  }

  lemma LiveAround(s: Sessions, m: nat, cutoff: int)
    requires m < |s| && cutoff <= s[m].lastSeenAt
    ensures var b, a := Live(s[..m], cutoff), Live(s[m + 1..], cutoff);
            && Live(s, cutoff) == b + [s[m]] + a
            && RemoveAt(b + [s[m]] + a, |b|) == Live(RemoveAt(s, m), cutoff)
  {
    FilterSplit(SeenSince(cutoff), s, m);
    var b, a := Live(s[..m], cutoff), Live(s[m + 1..], cutoff);
    assert RemoveAt(b + [s[m]] + a, |b|) == b + a;
  }

  lemma RemoveOldestLive(who: Who, s: Sessions, m: nat, cutoff: int)
    requires FirstMinimum(who, s, m) && cutoff <= s[m].lastSeenAt
    ensures var t := Live(s, cutoff);
            Oldest(who, t) < |t| && RemoveAt(t, Oldest(who, t)) == Live(RemoveAt(s, m), cutoff)
  {
    var b, a := Live(s[..m], cutoff), Live(s[m + 1..], cutoff);
    LiveAround(s, m, cutoff);
    assert s == s[..m] + [s[m]] + s[m + 1..];
    OldestOfLive(who, s[..m], s[m], s[m + 1..], cutoff);
    OldestIs(who, b + [s[m]] + a, |b|);
  }

  /** One eviction either takes a stale entry or takes the live one that a swept
      map would lose too. */
  lemma EvictionUnderSweep(who: Who, s: Sessions, m: nat, max: nat, cutoff: int)
    requires m == Oldest(who, s) < |s| && max < |Select(who, s)|
    ensures var t := Live(s, cutoff);
            || Live(RemoveAt(s, m), cutoff) == t
            || (&& max < |Select(who, t)| && Oldest(who, t) < |t|
                && RemoveAt(t, Oldest(who, t)) == Live(RemoveAt(s, m), cutoff))
  {
    OldestIsFirstMinimum(who, s);
    if s[m].lastSeenAt < cutoff {
      FilterSplit(SeenSince(cutoff), s, m);
    } else {
      SelectLive(who, s, cutoff);
      RemoveOldestLive(who, s, m, cutoff);
    }
  }

  /** Sweeping commutes with evicting: stale entries are strictly older than
      live ones, so every eviction takes them first. */
  lemma {:induction false} SweepCommutesWithTrim(who: Who, s: Sessions, max: nat, cutoff: int)
    ensures Live(Trim(who, s, max), cutoff) == Trim(who, Live(s, cutoff), max)
    decreases |s|
  {
    var m := Oldest(who, s);
    SelectLive(who, s, cutoff);
    if |Select(who, s)| > max && m < |s| {
      SweepCommutesWithTrim(who, RemoveAt(s, m), max, cutoff);
      EvictionUnderSweep(who, s, m, max, cutoff);
    } else if m == |s| {
      OldestIsFirstMinimum(who, s);
      FilterMembers(Counted(who), s);
    }
  }
}

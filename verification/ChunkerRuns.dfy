/** What the chunker of apps/watcher/src/chunker.ts keeps over every sequence of
    appends, idle flushes and full flushes. */
module ChunkerRuns {
  import opened Outcomes
  import opened OrderedMaps
  import opened Chunker
  import opened Strings

  datatype Op =
    | Append(conversation: string, text: string, ids: seq<string>, hint: Option<string>, now: int)
    | FlushIdle(now: int)
    | FlushAll

  function Step(limits: Limits, ledger: Ledger, op: Op): (Ledger, seq<Release>) {
    match op
    case Append(c, text, ids, hint, now) => Appended(limits, ledger, c, Said(text, ids), hint, now)
    case FlushIdle(now) => (Kept(ledger, Some(now - limits.idleMs)), Releases(ledger, Some(now - limits.idleMs)))
    case FlushAll => (Kept(ledger, None), Releases(ledger, None))
  }

  function Run(limits: Limits, ledger: Ledger, ops: seq<Op>): (Ledger, seq<Release>)
    decreases |ops|
  {
    if ops == [] then (ledger, [])
    else
      var (mid, first) := Step(limits, ledger, ops[0]);
      var (after, rest) := Run(limits, mid, ops[1..]);
      (after, first + rest)
  }

  // ---- Conservation --------------------------------------------------------------------

  /** What a conversation has said and not yet sent. */
  function Pending(ledger: Ledger, c: string): seq<Said> {
    match Get(ledger, c)
    case None => []
    case Some(a) => a.said
  }

  /** What the operations had a conversation say. */
  function SaidIn(ops: seq<Op>, c: string): seq<Said>
    decreases |ops|
  {
    if ops == [] then [] else SaidBy(ops[0], c) + SaidIn(ops[1..], c)
  }

  function SaidBy(op: Op, c: string): seq<Said> {
    if op.Append? && op.conversation == c && op.text != "" then [Said(op.text, op.ids)] else []
  }

  /** What left of a conversation, chunk after chunk. */
  function Spoken(releases: seq<Release>, c: string): seq<Said>
    decreases |releases|
  {
    if releases == [] then []
    else (if releases[0].conversation == c then releases[0].account.said else []) + Spoken(releases[1..], c)
  }

  lemma {:induction false} SpokenConcat(a: seq<Release>, b: seq<Release>, c: string)
    ensures Spoken(a + b, c) == Spoken(a, c) + Spoken(b, c)
    decreases |a|
  {
    if a == [] {
      assert a + b == b;
    } else {
      assert (a + b)[1..] == a[1..] + b;
      SpokenConcat(a[1..], b, c);
    }
  }

  lemma SpokenOne(r: Release, c: string)
    ensures Spoken([r], c) == if r.conversation == c then r.account.said else []
  {
    assert [r][1..] == [];
  }

  lemma {:induction false} DueSpeaks(ledger: Ledger, cutoff: Option<int>, c: string)
    requires Unique(ledger)
    ensures var a := Get(ledger, c);
            Spoken(Releases(ledger, cutoff), c) == if a.Some? && Due(a.value, cutoff) then a.value.said else []
    decreases |ledger|
  {
    hide Due, Spoken;
    if ledger == [] {
      NoneSpoken(c);
    } else {
      HeadIsAlone(ledger);
      GetMember(ledger[1..], ledger[0].0);
      DueSpeaks(ledger[1..], cutoff, c);
      HeadSpeaks(ledger[0].0, ledger[0].1, Releases(ledger[1..], cutoff), cutoff, c);
    }
  }

  lemma HeadSpeaks(k: string, a: Account, rest: seq<Release>, cutoff: Option<int>, c: string)
    ensures var head := if Due(a, cutoff) && a.said != [] then [Release(k, a, false)] else [];
            Spoken(head + rest, c) == (if k == c && Due(a, cutoff) then a.said else []) + Spoken(rest, c)
    ensures a.said + [] == a.said && [] + Spoken(rest, c) == Spoken(rest, c)
  {
    hide Due, Spoken;
    SpokenOne(Release(k, a, false), c);
    SpokenConcat([Release(k, a, false)], rest, c);
    assert [] + rest == rest;
  }

  lemma NoneSpoken(c: string)
    ensures Spoken([], c) == []
  {
  }

  lemma {:induction false} KeptGet(ledger: Ledger, cutoff: Option<int>, c: string)
    requires Unique(ledger)
    ensures var a := Get(ledger, c);
            Get(Kept(ledger, cutoff), c) == if a.Some? && Due(a.value, cutoff) then None else a
    decreases |ledger|
  {
    hide Due;
    if ledger != [] {
      HeadIsAlone(ledger);
      GetMember(ledger[1..], ledger[0].0);
      KeptGet(ledger[1..], cutoff, c);
      var rest := Kept(ledger[1..], cutoff);
      assert [] + rest == rest && ([ledger[0]] + rest)[1..] == rest;
    }
  }

  /** A timed flush takes all of a conversation or nothing of it. */
  lemma DueLeavesWhole(ledger: Ledger, cutoff: Option<int>, c: string)
    requires Unique(ledger)
    ensures var a := Get(ledger, c);
            var goes := a.Some? && Due(a.value, cutoff);
            Spoken(Releases(ledger, cutoff), c) == (if goes then a.value.said else [])
            && Get(Kept(ledger, cutoff), c) == (if goes then None else a)
  {
    hide Due, Spoken, Releases, Kept, Get, Unique;
    DueSpeaks(ledger, cutoff, c);
    KeptGet(ledger, cutoff, c);
  }

  lemma {:induction false} KeptStaysUnique(ledger: Ledger, cutoff: Option<int>)
    requires Unique(ledger)
    ensures Unique(Kept(ledger, cutoff))
    decreases |ledger|
  {
    if ledger != [] {
      HeadIsAlone(ledger);
      KeptStaysUnique(ledger[1..], cutoff);
      KeptMembers(ledger[1..], cutoff);
      if Due(ledger[0].1, cutoff) {
        assert Kept(ledger, cutoff) == Kept(ledger[1..], cutoff);
      } else {
        UniqueCons(ledger[0], Kept(ledger[1..], cutoff));
      }
    }
  }

  lemma FlushedStaysUnique(limits: Limits, ledger: Ledger, k: string, reseed: bool)
    requires Unique(ledger)
    ensures Unique(Flushed(limits, ledger, k, reseed).0)
  {
    hide Unique, Get, Put, Drop, Tail, Text;
    DropStaysUnique(ledger, k);
    if Get(ledger, k).Some? {
      var a := Get(ledger, k).value;
      PutStaysUnique(ledger, k, Account(Some(Tail(limits.overlapChars, Text(a))), [], a.at, a.hint));
    }
  }

  lemma StepStaysUnique(limits: Limits, ledger: Ledger, op: Op)
    requires Unique(ledger)
    ensures Unique(Step(limits, ledger, op).0)
  {
    hide Unique, Get, Put, Flushed, Kept, Releases, Size;
    match op {
      case Append(k, text, ids, hint, now) =>
        var next := Put(ledger, k, Extended(Get(ledger, k), Said(text, ids), hint, now));
        PutStaysUnique(ledger, k, Extended(Get(ledger, k), Said(text, ids), hint, now));
        FlushedStaysUnique(limits, next, k, true);
      case FlushIdle(now) => KeptStaysUnique(ledger, Some(now - limits.idleMs));
      case FlushAll => KeptStaysUnique(ledger, None);
    }
  }

  /** What a flush of one conversation takes and leaves of any. */
  lemma FlushedTakes(limits: Limits, ledger: Ledger, k: string, c: string)
    ensures var (after, releases) := Flushed(limits, ledger, k, true);
            Spoken(releases, c) + Pending(after, c) == Pending(ledger, c)
  {
    hide Get, Put, Drop, Tail, Text;
    GetDrop(ledger, k, c);
    if Get(ledger, k).Some? {
      var a := Get(ledger, k).value;
      GetPut(ledger, k, Account(Some(Tail(limits.overlapChars, Text(a))), [], a.at, a.hint), c);
      SpokenOne(Release(k, a, true), c);
      assert a.said + [] == a.said;
    }
    assert [] + Pending(ledger, c) == Pending(ledger, c);
  }

  lemma AppendConserves(limits: Limits, ledger: Ledger, k: string, said: Said, hint: Option<string>, now: int,
          c: string)
    ensures var (after, releases) := Appended(limits, ledger, k, said, hint, now);
            Spoken(releases, c) + Pending(after, c)
            == Pending(ledger, c) + (if k == c && said.text != "" then [said] else [])
  {
    hide Get, Put, Flushed, Size;
    var before := Pending(ledger, c);
    assert before + [] == before && [] + before == before;
    if said.text != "" {
      var a := Extended(Get(ledger, k), said, hint, now);
      var next := Put(ledger, k, a);
      GetPut(ledger, k, a, c);
      assert [] + [said] == [said];
      assert [] + Pending(next, c) == Pending(next, c);
      FlushedTakes(limits, next, k, c);
    }
  }

  lemma StepConserves(limits: Limits, ledger: Ledger, op: Op, c: string)
    requires Unique(ledger)
    ensures var (after, releases) := Step(limits, ledger, op);
            Spoken(releases, c) + Pending(after, c) == Pending(ledger, c) + SaidBy(op, c)
  {
    hide Get, Put, Flushed, Unique, Kept, Releases, Appended, Pending, Spoken;
    var before := Pending(ledger, c);
    assert before + [] == before;
    match op {
      case Append(k, text, ids, hint, now) => AppendConserves(limits, ledger, k, Said(text, ids), hint, now, c);
      case FlushIdle(now) => DueConserves(ledger, Some(now - limits.idleMs), c);
      case FlushAll => DueConserves(ledger, None, c);
    }
  }

  lemma DueConserves(ledger: Ledger, cutoff: Option<int>, c: string)
    requires Unique(ledger)
    ensures Spoken(Releases(ledger, cutoff), c) + Pending(Kept(ledger, cutoff), c) == Pending(ledger, c)
  {
    hide Due, Spoken, Releases, Kept, Get, Unique;
    DueLeavesWhole(ledger, cutoff, c);
  }

  /** Over any run, what left and what is pending is what was said, in order. */
  lemma {:induction false} RunConserves(limits: Limits, ledger: Ledger, ops: seq<Op>, c: string)
    requires Unique(ledger)
    ensures var (after, releases) := Run(limits, ledger, ops);
            Unique(after) && Spoken(releases, c) + Pending(after, c) == Pending(ledger, c) + SaidIn(ops, c)
    decreases |ops|
  {
    hide Unique, Step, SaidBy, Pending;
    if ops != [] {
      var (mid, first) := Step(limits, ledger, ops[0]);
      var (after, rest) := Run(limits, mid, ops[1..]);
      StepStaysUnique(limits, ledger, ops[0]);
      StepConserves(limits, ledger, ops[0], c);
      RunConserves(limits, mid, ops[1..], c);
      SpokenConcat(first, rest, c);
      Regroup(Spoken(first, c), Spoken(rest, c), Pending(after, c), Pending(mid, c), SaidIn(ops[1..], c),
              Pending(ledger, c), SaidBy(ops[0], c));
    } else {
      assert [] + Pending(ledger, c) == Pending(ledger, c) + [];
    }
  }

  lemma Regroup<T>(first: seq<T>, rest: seq<T>, after: seq<T>, mid: seq<T>, later: seq<T>, before: seq<T>, now: seq<T>)
    requires rest + after == mid + later && first + mid == before + now
    ensures (first + rest) + after == before + (now + later)
  {
    assert (first + rest) + after == first + (rest + after);
    assert first + (mid + later) == (first + mid) + later;
    assert (before + now) + later == before + (now + later);
  }

  lemma {:induction false} RunConcat(limits: Limits, ledger: Ledger, a: seq<Op>, b: seq<Op>)
    ensures var (mid, first) := Run(limits, ledger, a);
            var (after, rest) := Run(limits, mid, b);
            Run(limits, ledger, a + b) == (after, first + rest)
    decreases |a|
  {
    hide Step;
    if a == [] {
      assert a + b == b;
      var rest := Run(limits, ledger, b).1;
      assert [] + rest == rest;
    } else {
      assert (a + b)[1..] == a[1..] + b;
      var (mid, first) := Step(limits, ledger, a[0]);
      RunConcat(limits, mid, a[1..], b);
      var (mid2, second) := Run(limits, mid, a[1..]);
      var third := Run(limits, mid2, b).1;
      assert (first + second) + third == first + (second + third);
    }
  }

  // ---- The carried overlap ---------------------------------------------------------------

  /** The tail is a proper suffix no longer than the overlap; when the window has
      a line break it starts right behind the first one, else it is the window. */
  lemma TailMeans(overlapChars: nat, text: string)
    ensures var t := Tail(overlapChars, text);
            |t| <= overlapChars && (t == "" || |t| < |text|) && |t| <= |text| && t == text[|text| - |t|..]
    ensures 0 < overlapChars < |text| ==> InWindow(text, |text| - overlapChars, Tail(overlapChars, text))
    ensures !(0 < overlapChars < |text|) ==> Tail(overlapChars, text) == ""
  {
    hide Tail, LastChars, InWindow, IndexOf;
    TailIs(overlapChars, text);
    if 0 < overlapChars < |text| {
      var start := |text| - overlapChars;
      match IndexOf(text[start..], NEWLINE) {
        case Some(i) => CutTail(text, start, i);
        case None => WholeTail(text, start);
      }
    }
  }

  lemma CutTail(text: string, start: nat, i: nat)
    requires start + i < |text| && text[start..][i] == NEWLINE && NEWLINE !in text[start..][..i]
    ensures var t := text[start..][i + 1..];
            |t| == |text| - start - i - 1 && t == text[|text| - |t|..] && InWindow(text, start, t)
  {
    CutAt(text, start, i);
    assert text[start + i] == NEWLINE;
  }

  lemma WholeTail(text: string, start: nat)
    requires start <= |text| && NEWLINE !in text[start..]
    ensures InWindow(text, start, text[start..])
  {
    assert forall i :: start <= i < |text| ==> text[i] == text[start..][i - start];
  }

  lemma TailIs(overlapChars: nat, text: string)
    ensures var start := |text| - overlapChars;
            Tail(overlapChars, text) ==
            if !(0 < overlapChars < |text|) then ""
            else
              match IndexOf(text[start..], NEWLINE)
              case Some(i) => text[start..][i + 1..]
              case None => text[start..]
  {
    hide IndexOf;
  }

  /** How a tail lies in the window that starts at `start`. */
  ghost predicate InWindow(text: string, start: nat, tail: string) {
    if exists i :: start <= i < |text| && text[i] == NEWLINE
    then
      var cut := |text| - |tail| - 1;
      start <= cut && text[cut] == NEWLINE && forall i :: start <= i < cut ==> text[i] != NEWLINE
    else |tail| == |text| - start
  }

  lemma CutAt(text: string, start: nat, i: nat)
    requires start + i < |text|
    ensures text[start..][i + 1..] == text[start + i + 1..] && text[start..][i] == text[start + i]
    ensures forall k :: start <= k < start + i ==> text[k] in text[start..][..i]
  {
    forall k | start <= k < start + i ensures text[k] in text[start..][..i] {
      assert text[start..][..i][k - start] == text[k];
    }
  }

  /** The seed of an account is the tail of the conversation's last chunk, which
      left by size. */
  predicate SeedFrom(limits: Limits, last: Option<Release>, seed: Option<string>) {
    seed.Some? ==>
      last.Some? && last.value.bySize && seed.value == Tail(limits.overlapChars, Text(last.value.account))
        && seed.value != ""
  }

  predicate Linked(limits: Limits, last: Option<Release>, releases: seq<Release>, c: string)
    decreases |releases|
  {
    releases == []
    || (if releases[0].conversation == c
        then SeedFrom(limits, last, releases[0].account.seed) && Linked(limits, Some(releases[0]), releases[1..], c)
        else Linked(limits, last, releases[1..], c))
  }

  function LastOf(last: Option<Release>, releases: seq<Release>, c: string): Option<Release>
    decreases |releases|
  {
    if releases == [] then last
    else LastOf(if releases[0].conversation == c then Some(releases[0]) else last, releases[1..], c)
  }

  function SeedOf(ledger: Ledger, c: string): Option<string> {
    match Get(ledger, c)
    case None => None
    case Some(a) => a.seed
  }

  lemma {:induction false} LinkedConcat(limits: Limits, last: Option<Release>, a: seq<Release>, b: seq<Release>,
          c: string)
    requires Linked(limits, last, a, c) && Linked(limits, LastOf(last, a, c), b, c)
    ensures Linked(limits, last, a + b, c) && LastOf(last, a + b, c) == LastOf(LastOf(last, a, c), b, c)
    decreases |a|
  {
    if a == [] {
      assert a + b == b;
    } else {
      assert (a + b)[1..] == a[1..] + b;
      LinkedConcat(limits, if a[0].conversation == c then Some(a[0]) else last, a[1..], b, c);
    }
  }

  lemma LinkedOne(limits: Limits, last: Option<Release>, r: Release, c: string)
    ensures Linked(limits, last, [r], c) <==> (r.conversation == c ==> SeedFrom(limits, last, r.account.seed))
    ensures LastOf(last, [r], c) == if r.conversation == c then Some(r) else last
  {
    hide SeedFrom;
    assert [r][1..] == [];
  }

  lemma FlushedLinks(limits: Limits, ledger: Ledger, k: string, c: string, last: Option<Release>)
    requires SeedFrom(limits, last, SeedOf(ledger, c))
    ensures var (after, releases) := Flushed(limits, ledger, k, true);
            Linked(limits, last, releases, c) && SeedFrom(limits, LastOf(last, releases, c), SeedOf(after, c))
  {
    hide Get, Put, Drop, Tail, Text;
    GetDrop(ledger, k, c);
    if Get(ledger, k).Some? {
      var a := Get(ledger, k).value;
      GetPut(ledger, k, Account(Some(Tail(limits.overlapChars, Text(a))), [], a.at, a.hint), c);
      LinkedOne(limits, last, Release(k, a, true), c);
    }
  }

  /** A timed flush sends at most one chunk of a conversation and leaves no seed of it. */
  lemma {:induction false} DueLinks(limits: Limits, ledger: Ledger, cutoff: Option<int>, c: string,
          last: Option<Release>)
    requires Unique(ledger) && SeedFrom(limits, last, SeedOf(ledger, c))
    ensures Linked(limits, last, Releases(ledger, cutoff), c)
    ensures !Has(ledger, c) ==> LastOf(last, Releases(ledger, cutoff), c) == last
    ensures Has(ledger, c) && !Due(Get(ledger, c).value, cutoff) ==> LastOf(last, Releases(ledger, cutoff), c) == last
    decreases |ledger|
  {
    hide SeedFrom, Due;
    if ledger != [] {
      var (k, a) := ledger[0];
      HeadIsAlone(ledger);
      var head := if Due(a, cutoff) && a.said != [] then [Release(k, a, false)] else [];
      var rest := Releases(ledger[1..], cutoff);
      LinkedOne(limits, last, Release(k, a, false), c);
      if k == c {
        GetMember(ledger[1..], c);
        assert Get(ledger[1..], c) == None;
        NoSeed(limits, last);
        NoSeed(limits, LastOf(last, head, c));
        DueLinks(limits, ledger[1..], cutoff, c, LastOf(last, head, c));
        LinkedConcat(limits, last, head, rest, c);
      } else {
        DueLinks(limits, ledger[1..], cutoff, c, last);
        LinkedConcat(limits, last, head, rest, c);
      }
      assert Releases(ledger, cutoff) == head + rest;
    }
  }

  lemma NoSeed(limits: Limits, last: Option<Release>)
    ensures SeedFrom(limits, last, None)
  {
  }

  lemma DueLeavesLinked(limits: Limits, ledger: Ledger, cutoff: Option<int>, c: string, last: Option<Release>)
    requires Unique(ledger) && SeedFrom(limits, last, SeedOf(ledger, c))
    ensures Linked(limits, last, Releases(ledger, cutoff), c)
    ensures SeedFrom(limits, LastOf(last, Releases(ledger, cutoff), c), SeedOf(Kept(ledger, cutoff), c))
  {
    hide SeedFrom, Releases, Kept, Get;
    DueLinks(limits, ledger, cutoff, c, last);
    DueLeavesWhole(ledger, cutoff, c);
    NoSeed(limits, LastOf(last, Releases(ledger, cutoff), c));
  }

  lemma StepLinks(limits: Limits, ledger: Ledger, op: Op, c: string, last: Option<Release>)
    requires Unique(ledger) && SeedFrom(limits, last, SeedOf(ledger, c))
    ensures var (after, releases) := Step(limits, ledger, op);
            Linked(limits, last, releases, c) && SeedFrom(limits, LastOf(last, releases, c), SeedOf(after, c))
  {
    hide Get, Put, Flushed, Unique, Kept, Releases, Size, SeedFrom;
    match op {
      case Append(k, text, ids, hint, now) =>
        if text != "" {
          var a := Extended(Get(ledger, k), Said(text, ids), hint, now);
          GetPut(ledger, k, a, c);
          FlushedLinks(limits, Put(ledger, k, a), k, c, last);
        }
      case FlushIdle(now) => DueLeavesLinked(limits, ledger, Some(now - limits.idleMs), c, last);
      case FlushAll => DueLeavesLinked(limits, ledger, None, c, last);
    }
  }

  lemma {:induction false} RunLinks(limits: Limits, ledger: Ledger, ops: seq<Op>, c: string, last: Option<Release>)
    requires Unique(ledger) && SeedFrom(limits, last, SeedOf(ledger, c))
    ensures var (after, releases) := Run(limits, ledger, ops);
            Linked(limits, last, releases, c) && SeedFrom(limits, LastOf(last, releases, c), SeedOf(after, c))
    decreases |ops|
  {
    hide Unique, Step, SeedFrom, SeedOf;
    if ops != [] {
      var (mid, first) := Step(limits, ledger, ops[0]);
      StepStaysUnique(limits, ledger, ops[0]);
      StepLinks(limits, ledger, ops[0], c, last);
      RunLinks(limits, mid, ops[1..], c, LastOf(last, first, c));
      LinkedConcat(limits, last, first, Run(limits, mid, ops[1..]).1, c);
    }
  }

  // ---- Bounds ------------------------------------------------------------------------------

  /** The constructor's cap on the overlap. */
  predicate LimitsOk(limits: Limits) {
    limits.overlapChars == 0 || limits.overlapChars < limits.maxChars
  }

  lemma OverlapIsCapped(maxChars: int, idleMs: int, asked: Option<int>)
    ensures LimitsOk(Limits(maxChars, idleMs, Overlap(maxChars, asked)))
    ensures asked.Some? && 0 <= asked.value < maxChars ==> Overlap(maxChars, asked) == asked.value
    ensures asked.Some? && 0 < maxChars <= asked.value ==> Overlap(maxChars, asked) == maxChars - 1
    ensures asked.None? || asked.value < 0 || maxChars <= 0 ==> Overlap(maxChars, asked) == 0
  {
  }

  predicate AccountOk(a: Account) {
    && (a.said != [] || a.seed.Some?)
    && (a.seed.Some? ==> a.seed.value != "")
    && forall i :: 0 <= i < |a.said| ==> a.said[i].text != ""
  }

  predicate Resident(limits: Limits, a: Account) {
    AccountOk(a) && Size(a) < limits.maxChars
  }

  ghost predicate AllResident(limits: Limits, ledger: Ledger) {
    forall e :: e in ledger ==> Resident(limits, e.1)
  }

  /** A chunk has fresh text; one that left by size was below the cap before its last text. */
  predicate ReleaseOk(limits: Limits, r: Release) {
    && AccountOk(r.account) && r.account.said != []
    && (if r.bySize
        then limits.maxChars <= Size(r.account)
             && (limits.maxChars > 0 ==> Size(r.account) - |Last(r).text| - 1 < limits.maxChars)
        else Size(r.account) < limits.maxChars)
  }

  function Last(r: Release): Said
    requires r.account.said != []
  {
    r.account.said[|r.account.said| - 1]
  }

  ghost predicate AllOk(limits: Limits, releases: seq<Release>) {
    forall r :: r in releases ==> ReleaseOk(limits, r)
  }

  lemma ExtendedIsOk(limits: Limits, before: Option<Account>, said: Said, hint: Option<string>, now: int)
    requires said.text != "" && (before.Some? ==> Resident(limits, before.value))
    ensures var a := Extended(before, said, hint, now);
            AccountOk(a) && a.said != [] && a.said[|a.said| - 1] == said
            && (limits.maxChars > 0 ==> Size(a) - |said.text| - 1 < limits.maxChars)
  {
    var a := Extended(before, said, hint, now);
    if before.Some? {
      assert a.said[..|a.said| - 1] == before.value.said;
    } else {
      assert a.said[..|a.said| - 1] == [];
      assert FreshChars([]) == 0;
    }
  }

  lemma CarriedIsResident(limits: Limits, text: string, at: int, hint: Option<string>)
    requires LimitsOk(limits) && Tail(limits.overlapChars, text) != ""
    ensures Resident(limits, Account(Some(Tail(limits.overlapChars, text)), [], at, hint))
  {
    TailMeans(limits.overlapChars, text);
  }

  lemma AppendStaysOk(limits: Limits, ledger: Ledger, k: string, said: Said, hint: Option<string>, now: int)
    requires LimitsOk(limits) && AllResident(limits, ledger)
    ensures var (after, releases) := Appended(limits, ledger, k, said, hint, now);
            AllResident(limits, after) && AllOk(limits, releases)
  {
    hide Get, Put, Drop, Tail, Text, Size, Extended, AccountOk;
    if said.text != "" {
      GetMember(ledger, k);
      var a := Extended(Get(ledger, k), said, hint, now);
      var next := Put(ledger, k, a);
      ExtendedIsOk(limits, Get(ledger, k), said, hint, now);
      PutMembers(ledger, k, a);
      GetPut(ledger, k, a, k);
      DropPut(ledger, k, a);
      DropMembers(ledger, k);
      var tail := Tail(limits.overlapChars, Text(a));
      if tail != "" {
        CarriedIsResident(limits, Text(a), a.at, a.hint);
        PutTwice(ledger, k, a, Account(Some(tail), [], a.at, a.hint));
        PutMembers(ledger, k, Account(Some(tail), [], a.at, a.hint));
      }
    }
  }

  lemma {:induction false} DueIsOk(limits: Limits, ledger: Ledger, cutoff: Option<int>)
    requires AllResident(limits, ledger)
    ensures AllOk(limits, Releases(ledger, cutoff))
    decreases |ledger|
  {
    if ledger != [] {
      assert ledger[0] in ledger;
      assert forall e :: e in ledger[1..] ==> e in ledger;
      DueIsOk(limits, ledger[1..], cutoff);
      var (k, a) := ledger[0];
      var head := if Due(a, cutoff) && a.said != [] then [Release(k, a, false)] else [];
      assert Resident(limits, a);
      assert forall r :: r in head ==> ReleaseOk(limits, r);
      assert Releases(ledger, cutoff) == head + Releases(ledger[1..], cutoff);
    }
  }

  lemma {:induction false} RunStaysOk(limits: Limits, ledger: Ledger, ops: seq<Op>)
    requires LimitsOk(limits) && AllResident(limits, ledger)
    ensures var (after, releases) := Run(limits, ledger, ops);
            AllResident(limits, after) && AllOk(limits, releases)
    decreases |ops|
  {
    if ops != [] {
      var (mid, first) := Step(limits, ledger, ops[0]);
      assert AllResident(limits, mid) && AllOk(limits, first) by {
        hide Resident, ReleaseOk, Appended, Kept, Releases;
        match ops[0] {
          case Append(k, text, ids, hint, now) => AppendStaysOk(limits, ledger, k, Said(text, ids), hint, now);
          case FlushIdle(now) =>
            KeptMembers(ledger, Some(now - limits.idleMs));
            DueIsOk(limits, ledger, Some(now - limits.idleMs));
          case FlushAll =>
            KeptMembers(ledger, None);
            DueIsOk(limits, ledger, None);
        }
      }
      hide Step, Resident, ReleaseOk;
      RunStaysOk(limits, mid, ops[1..]);
    }
  }

  // ---- Texts -------------------------------------------------------------------------------

  lemma {:induction false} JoinedLength(said: seq<Said>)
    requires said != []
    ensures |JoinLines(Texts(said))| + 1 == FreshChars(said)
    decreases |said|
  {
    var last := said[|said| - 1];
    var before := said[..|said| - 1];
    assert Texts(said) == Texts(before) + [last.text];
    if before == [] {
      assert Texts(said) == [last.text];
    } else {
      JoinedLength(before);
      JoinConcat(Texts(before), [last.text], [NEWLINE]);
    }
  }

  /** A chunk is its carried prefix, a line break, and what the conversation said since. */
  lemma TextStrips(a: Account)
    requires a.said != []
    ensures Text(a) == (if a.seed.Some? then a.seed.value + [NEWLINE] else "") + JoinLines(Texts(a.said))
  {
    if a.seed.Some? {
      JoinConcat([a.seed.value], Texts(a.said), [NEWLINE]);
    } else {
      assert Parts(a) == Texts(a.said);
    }
  }

  /** The running length is the joined length, plus one for a buffer without a seed. */
  lemma LengthIsJoined(a: Account)
    requires a.said != [] || a.seed.Some?
    ensures Size(a) == |Text(a)| + if a.seed.Some? then 0 else 1
  {
    if a.said == [] {
      assert Parts(a) == [a.seed.value];
    } else {
      TextStrips(a);
      JoinedLength(a.said);
    }
  }

  function Stripped(r: Release): string
    requires r.account.said != []
  {
    TextStrips(r.account);
    Text(r.account)[if r.account.seed.Some? then |r.account.seed.value| + 1 else 0..]
  }

  /** The chunks of a conversation without what they carried over. */
  function StrippedOf(releases: seq<Release>, c: string): seq<string>
    requires forall r :: r in releases ==> r.account.said != []
    decreases |releases|
  {
    if releases == [] then []
    else (if releases[0].conversation == c then [Stripped(releases[0])] else []) + StrippedOf(releases[1..], c)
  }

  lemma TextsConcat(a: seq<Said>, b: seq<Said>)
    ensures Texts(a + b) == Texts(a) + Texts(b)
  {
  }

  lemma StrippedIsSaid(r: Release)
    requires r.account.said != []
    ensures Stripped(r) == JoinLines(Texts(r.account.said))
  {
    TextStrips(r.account);
  }

  lemma {:induction false} StrippedJoin(releases: seq<Release>, c: string)
    requires forall r :: r in releases ==> r.account.said != []
    ensures JoinLines(StrippedOf(releases, c)) == JoinLines(Texts(Spoken(releases, c)))
    ensures StrippedOf(releases, c) == [] <==> Spoken(releases, c) == []
    decreases |releases|
  {
    hide Join, Texts, Stripped;
    if releases != [] {
      var r, rest := releases[0], releases[1..];
      StrippedJoin(rest, c);
      if r.conversation == c {
        StrippedIsSaid(r);
        assert r in releases;
        var said := r.account.said;
        TextsConcat(said, Spoken(rest, c));
        if Spoken(rest, c) == [] {
          JoinOne(Stripped(r));
          assert [Stripped(r)] + [] == [Stripped(r)];
          assert said + [] == said;
        } else {
          JoinOne(Stripped(r));
          JoinConcat([Stripped(r)], StrippedOf(rest, c), [NEWLINE]);
          NonEmptyTexts(said);
          NonEmptyTexts(Spoken(rest, c));
          JoinConcat(Texts(said), Texts(Spoken(rest, c)), [NEWLINE]);
        }
      } else {
        assert Spoken(releases, c) == Spoken(rest, c);
        assert StrippedOf(releases, c) == StrippedOf(rest, c);
      }
    }
  }

  lemma JoinOne(s: string)
    ensures JoinLines([s]) == s
  {
  }

  lemma NonEmptyTexts(said: seq<Said>)
    requires said != []
    ensures Texts(said) != []
  {
  }

  // ---- Main results ----------------------------------------------------------------------

  /** Every conversation's non-empty texts leave exactly once and in order: with
      the carried prefixes taken off, its chunks join to its texts joined. */
  lemma ChunksConserve(limits: Limits, ops: seq<Op>, c: string)
    requires LimitsOk(limits)
    ensures var (after, releases) := Run(limits, [], ops + [FlushAll]);
            && after == []
            && (forall r :: r in releases ==> r.account.said != [])
            && Spoken(releases, c) == SaidIn(ops, c)
            && JoinLines(StrippedOf(releases, c)) == JoinLines(Texts(SaidIn(ops, c)))
  {
    hide JoinLines, Texts, Stripped, Unique, StrippedOf;
    var all := ops + [FlushAll];
    var (after, releases) := Run(limits, [], all);
    NothingIsUnique();
    RunConserves(limits, [], all, c);
    EndsEmpty(limits, ops);
    SaidInSnoc(ops, c);
    RunStaysOk(limits, [], all);
    StrippedJoin(releases, c);
    assert Spoken(releases, c) + [] == Spoken(releases, c);
    assert [] + SaidIn(all, c) == SaidIn(all, c);
  }

  lemma NothingIsUnique()
    ensures Unique<string, Account>([])
  {
  }

  lemma EndsEmpty(limits: Limits, ops: seq<Op>)
    ensures Run(limits, [], ops + [FlushAll]).0 == []
  {
    RunConcat(limits, [], ops, [FlushAll]);
    var mid := Run(limits, [], ops).0;
    KeepsNothing(mid);
    assert [FlushAll][1..] == [];
  }

  lemma {:induction false} SaidInSnoc(ops: seq<Op>, c: string)
    ensures SaidIn(ops + [FlushAll], c) == SaidIn(ops, c)
    decreases |ops|
  {
    if ops == [] {
      assert [FlushAll][1..] == [];
    } else {
      assert (ops + [FlushAll])[1..] == ops[1..] + [FlushAll];
      SaidInSnoc(ops[1..], c);
    }
  }

  /** Each carried prefix is the tail of the conversation's previous chunk, and
      the first chunk carries none. */
  lemma SeedsAreTails(limits: Limits, ops: seq<Op>, c: string)
    ensures var (after, releases) := Run(limits, [], ops);
            Linked(limits, None, releases, c) && SeedFrom(limits, LastOf(None, releases, c), SeedOf(after, c))
  {
    NothingIsUnique();
    RunLinks(limits, [], ops, c, None);
  }

  /** What waits stays below the cap, a chunk that left by size is at most the cap
      plus its last text, any other is below the cap, and none is pure overlap. */
  lemma ChunksAreBounded(limits: Limits, ops: seq<Op>)
    requires LimitsOk(limits)
    ensures var (after, releases) := Run(limits, [], ops);
            && (forall e :: e in after ==> Size(e.1) < limits.maxChars && |Text(e.1)| <= Size(e.1))
            && forall r :: r in releases ==>
                 && r.account.said != []
                 && (r.bySize ==> limits.maxChars - 1 <= |Text(r.account)|)
                 && (r.bySize && limits.maxChars > 0 ==> |Text(r.account)| <= limits.maxChars + |Last(r).text|)
                 && (!r.bySize ==> |Text(r.account)| < limits.maxChars)
  {
    var (after, releases) := Run(limits, [], ops);
    RunStaysOk(limits, [], ops);
    forall e | e in after ensures Size(e.1) < limits.maxChars && |Text(e.1)| <= Size(e.1) {
      LengthIsJoined(e.1);
    }
    forall r | r in releases
      ensures r.account.said != []
      ensures r.bySize ==> limits.maxChars - 1 <= |Text(r.account)|
      ensures r.bySize && limits.maxChars > 0 ==> |Text(r.account)| <= limits.maxChars + |Last(r).text|
      ensures !r.bySize ==> |Text(r.account)| < limits.maxChars
    {
      LengthIsJoined(r.account);
    }
  }

  // ---- Recalled ids --------------------------------------------------------------------------

  lemma {:induction false} AddAllMembers(ids: seq<string>, more: seq<string>)
    ensures forall x :: x in AddAll(ids, more) <==> x in ids || x in more
    decreases |more|
  {
    if more != [] {
      AddAllMembers(if more[0] in ids then ids else ids + [more[0]], more[1..]);
      assert forall x :: x in more <==> x == more[0] || x in more[1..];
    }
  }

  ghost predicate Distinct(ids: seq<string>) {
    forall i, j :: 0 <= i < j < |ids| ==> ids[i] != ids[j]
  }

  lemma {:induction false} AddAllDistinct(ids: seq<string>, more: seq<string>)
    requires Distinct(ids)
    ensures Distinct(AddAll(ids, more))
    decreases |more|
  {
    if more != [] {
      AddAllDistinct(if more[0] in ids then ids else ids + [more[0]], more[1..]);
    }
  }

  lemma {:induction false} IdsMembers(said: seq<Said>, id: string)
    ensures id in Ids(said) <==> exists i :: 0 <= i < |said| && id in said[i].ids
    decreases |said|
  {
    if said != [] {
      var before := said[..|said| - 1];
      IdsMembers(before, id);
      assert forall i :: 0 <= i < |before| ==> before[i] == said[i];
    }
  }

  /** A chunk's recalled ids are those passed with the texts it carries, each once. */
  lemma IdsLeaveWithTheirText(sha256: string -> string, r: Release, id: string)
    ensures var ids := ChunkOf(sha256, r).recalledIds;
            Distinct(ids) && (id in ids <==> exists i :: 0 <= i < |r.account.said| && id in r.account.said[i].ids)
  {
    hide Text, Ids;
    AddAllDistinct([], Ids(r.account.said));
    AddAllMembers([], Ids(r.account.said));
    IdsMembers(r.account.said, id);
  }
}

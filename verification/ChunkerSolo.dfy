/** The chunks the methods of apps/watcher/src/chunker.ts return, against one
    conversation on its own: a text that grows, is sent and leaves a tail. */
module ChunkerSolo {
  import opened Outcomes
  import opened OrderedMaps
  import opened Strings
  import opened Chunker
  import opened ChunkerRuns

  // ---- One conversation ------------------------------------------------------------------

  /** The text that would be sent next, whether it starts with a carried tail and
      holds anything new, and what goes with it. */
  datatype Draft = Draft(carried: bool, text: string, unsent: bool, at: int, hint: Option<string>, ids: seq<string>)

  /** The draft with one more text in it. */
  function Grown(draft: Option<Draft>, text: string, ids: seq<string>, hint: Option<string>, now: int): Draft {
    match draft
    case None => Draft(false, text, true, now, hint, AddAll([], ids))
    case Some(d) =>
      Draft(d.carried, d.text + "\n" + text, true, now, if hint.Some? then hint else d.hint, AddAll(d.ids, ids))
  }

  function Send(sha256: string -> string, c: string, d: Draft): Chunk {
    Chunk(c, d.text, sha256(d.text), d.hint, d.ids)
  }

  /** What a draft sent by size leaves: the tail of its text, if there is one. */
  function Remains(limits: Limits, d: Draft): Option<Draft> {
    var tail := Tail(limits.overlapChars, d.text);
    if tail == "" then None else Some(Draft(true, tail, false, d.at, d.hint, []))
  }

  function Ready(limits: Limits, d: Draft): bool {
    |d.text| + (if d.carried then 0 else 1) >= limits.maxChars
  }

  /** What one operation does to conversation `c` and makes it send; what other
      conversations say has no part in it. */
  function SoloStep(sha256: string -> string, limits: Limits, c: string, draft: Option<Draft>, op: Op)
      : (Option<Draft>, seq<Chunk>)
  {
    match op
    case Append(k, text, ids, hint, now) =>
      if k != c || text == "" then (draft, [])
      else
        var d := Grown(draft, text, ids, hint, now);
        if Ready(limits, d) then (Remains(limits, d), [Send(sha256, c, d)]) else (Some(d), [])
    case FlushIdle(now) =>
      if draft.Some? && now - draft.value.at >= limits.idleMs then (None, LastCall(sha256, c, draft)) else (draft, [])
    case FlushAll => (None, LastCall(sha256, c, draft))
  }

  function LastCall(sha256: string -> string, c: string, draft: Option<Draft>): seq<Chunk> {
    if draft.Some? && draft.value.unsent then [Send(sha256, c, draft.value)] else []
  }

  function SoloRun(sha256: string -> string, limits: Limits, c: string, draft: Option<Draft>, ops: seq<Op>)
      : (Option<Draft>, seq<Chunk>)
    decreases |ops|
  {
    if ops == [] then (draft, [])
    else
      var (mid, first) := SoloStep(sha256, limits, c, draft, ops[0]);
      var (after, rest) := SoloRun(sha256, limits, c, mid, ops[1..]);
      (after, first + rest)
  }

  // ---- What the methods return -------------------------------------------------------------

  /** What the calls of a run return, one after the other. */
  function Returned(sha256: string -> string, limits: Limits, ledger: Ledger, ops: seq<Op>): seq<Chunk>
    decreases |ops|
  {
    if ops == [] then []
    else
      var (mid, releases) := Step(limits, ledger, ops[0]);
      ChunksOf(sha256, releases) + Returned(sha256, limits, mid, ops[1..])
  }

  function ChunksFor(chunks: seq<Chunk>, c: string): seq<Chunk>
    decreases |chunks|
  {
    if chunks == [] then []
    else (if chunks[0].conversationId == c then [chunks[0]] else []) + ChunksFor(chunks[1..], c)
  }

  lemma {:induction false} ChunksForConcat(a: seq<Chunk>, b: seq<Chunk>, c: string)
    ensures ChunksFor(a + b, c) == ChunksFor(a, c) + ChunksFor(b, c)
    decreases |a|
  {
    if a == [] {
      assert a + b == b;
    } else {
      assert (a + b)[1..] == a[1..] + b;
      ChunksForConcat(a[1..], b, c);
    }
  }

  lemma OneChunkFor(chunk: Chunk, c: string)
    ensures ChunksFor([chunk], c) == if chunk.conversationId == c then [chunk] else []
  {
    assert [chunk][1..] == [];
  }

  // ---- The store follows each conversation ---------------------------------------------------

  /** An account as a draft. */
  function DraftOf(a: Account): Draft {
    Draft(a.seed.Some?, Text(a), a.said != [], a.at, a.hint, AddAll([], Ids(a.said)))
  }

  function Drafted(ledger: Ledger, c: string): Option<Draft> {
    match Get(ledger, c)
    case None => None
    case Some(a) => Some(DraftOf(a))
  }

  lemma GrownIs(before: Option<Account>, said: Said, hint: Option<string>, now: int)
    requires before.Some? ==> before.value.said != [] || before.value.seed.Some?
    ensures DraftOf(Extended(before, said, hint, now)) ==
            Grown(if before.Some? then Some(DraftOf(before.value)) else None, said.text, said.ids, hint, now)
  {
    hide AddAll, Ids, Join, Texts;
    match before {
      case None =>
        OneText(said.text);
        OneSaid(said);
        assert Parts(Account(None, [said], now, hint)) == [said.text];
      case Some(a) =>
        var all := a.said + [said];
        MoreTexts(a.said, said);
        assert Parts(Account(a.seed, all, now, OrElse(hint, a.hint))) == Parts(a) + [said.text];
        SomeParts(a);
        JoinConcat(Parts(a), [said.text], [NEWLINE]);
        OneText(said.text);
        AddAllConcat([], Ids(a.said), said.ids);
    }
  }

  lemma OneText(text: string)
    ensures JoinLines([text]) == text && Join([text], [NEWLINE]) == text
  {
  }

  lemma OneSaid(said: Said)
    ensures Texts([said]) == [said.text] && Ids([said]) == said.ids
  {
    assert [said][..0] == [];
    assert Ids([]) == [];
  }

  lemma MoreTexts(said: seq<Said>, one: Said)
    ensures Texts(said + [one]) == Texts(said) + [one.text] && Ids(said + [one]) == Ids(said) + one.ids
  {
    assert (said + [one])[..|said|] == said;
  }

  lemma SomeParts(a: Account)
    requires a.said != [] || a.seed.Some?
    ensures Parts(a) != []
  {
  }

  lemma RemainsIs(limits: Limits, a: Account)
    ensures Remains(limits, DraftOf(a)) ==
            var tail := Tail(limits.overlapChars, Text(a));
            if tail == "" then None else Some(DraftOf(Account(Some(tail), [], a.at, a.hint)))
  {
    hide Tail;
    var tail := Tail(limits.overlapChars, Text(a));
    assert Parts(Account(Some(tail), [], a.at, a.hint)) == [tail];
    OneText(tail);
    assert Ids([]) == [] && AddAll([], []) == [];
  }

  /** What a size flush of `c` returns and leaves. */
  lemma FlushIsSolo(sha256: string -> string, limits: Limits, ledger: Ledger, c: string, a: Account)
    requires Get(ledger, c) == Some(a) && a.said != []
    ensures var (after, releases) := Flushed(limits, ledger, c, true);
            Drafted(after, c) == Remains(limits, DraftOf(a))
            && ChunksOf(sha256, releases) == [Send(sha256, c, DraftOf(a))]
  {
    hide Get, Put, Drop, Tail, Text, AddAll, Ids;
    RemainsIs(limits, a);
    GetDrop(ledger, c, c);
    GetPut(ledger, c, Account(Some(Tail(limits.overlapChars, Text(a))), [], a.at, a.hint), c);
  }

  /** What a flush of another conversation returns and leaves, of `c`. */
  lemma FlushSpares(sha256: string -> string, limits: Limits, ledger: Ledger, k: string, c: string)
    requires k != c
    ensures var (after, releases) := Flushed(limits, ledger, k, true);
            Get(after, c) == Get(ledger, c) && ChunksFor(ChunksOf(sha256, releases), c) == []
  {
    hide Get, Put, Drop, Tail, Text, AddAll, Ids;
    GetDrop(ledger, k, c);
    if Get(ledger, k).Some? {
      var a := Get(ledger, k).value;
      GetPut(ledger, k, Account(Some(Tail(limits.overlapChars, Text(a))), [], a.at, a.hint), c);
      OneChunkFor(ChunkOf(sha256, Release(k, a, true)), c);
      assert ChunksOf(sha256, [Release(k, a, true)]) == [ChunkOf(sha256, Release(k, a, true))];
    }
  }

  lemma AppendIsSolo(sha256: string -> string, limits: Limits, ledger: Ledger, op: Op, c: string)
    requires AllResident(limits, ledger) && op.Append?
    ensures var (after, releases) := Step(limits, ledger, op);
            SoloStep(sha256, limits, c, Drafted(ledger, c), op)
            == (Drafted(after, c), ChunksFor(ChunksOf(sha256, releases), c))
  {
    hide Get, Put, Flushed, DraftOf, Send, Remains, Grown, Size, Text, ChunksOf, Extended, AccountOk;
    NoChunks(sha256, c);
    if op.text != "" {
      var said := Said(op.text, op.ids);
      var a := Extended(Get(ledger, op.conversation), said, op.hint, op.now);
      var next := Put(ledger, op.conversation, a);
      GetPut(ledger, op.conversation, a, c);
      if op.conversation == c {
        FoundIsResident(limits, ledger, c);
        GrownIs(Get(ledger, c), said, op.hint, op.now);
        ExtendedSays(Get(ledger, c), said, op.hint, op.now);
        SizeIsReady(limits, a);
        FlushIsSolo(sha256, limits, next, c, a);
        OneChunkFor(Send(sha256, c, DraftOf(a)), c);
        SendIsFor(sha256, c, DraftOf(a));
      } else {
        FlushSpares(sha256, limits, next, op.conversation, c);
      }
    }
  }

  lemma SendIsFor(sha256: string -> string, c: string, d: Draft)
    ensures Send(sha256, c, d).conversationId == c
  {
  }

  lemma NoChunks(sha256: string -> string, c: string)
    ensures ChunksOf(sha256, []) == [] && ChunksFor([], c) == []
  {
  }

  lemma FoundIsResident(limits: Limits, ledger: Ledger, c: string)
    requires AllResident(limits, ledger)
    ensures var found := Get(ledger, c); found.Some? ==> found.value.said != [] || found.value.seed.Some?
  {
    GetMember(ledger, c);
  }

  lemma ExtendedSays(before: Option<Account>, said: Said, hint: Option<string>, now: int)
    ensures Extended(before, said, hint, now).said != []
  {
  }

  lemma SizeIsReady(limits: Limits, a: Account)
    requires a.said != []
    ensures Ready(limits, DraftOf(a)) <==> Size(a) >= limits.maxChars
  {
    hide Size, Text;
    LengthIsJoined(a);
  }

  lemma {:induction false} DueIsSolo(sha256: string -> string, ledger: Ledger, cutoff: Option<int>, c: string)
    requires Unique(ledger)
    ensures var a := Get(ledger, c);
            ChunksFor(ChunksOf(sha256, Releases(ledger, cutoff)), c) ==
            if a.Some? && Due(a.value, cutoff) && a.value.said != [] then [Send(sha256, c, DraftOf(a.value))] else []
    decreases |ledger|
  {
    hide Due, ChunksOf, DraftOf, Send;
    NoChunks(sha256, c);
    if ledger != [] {
      var (k, a) := ledger[0];
      HeadIsAlone(ledger);
      GetMember(ledger[1..], k);
      DueIsSolo(sha256, ledger[1..], cutoff, c);
      var rest := Releases(ledger[1..], cutoff);
      assert [] + rest == rest;
      ChunksConcat(sha256, [Release(k, a, false)], rest);
      ReleaseIsSent(sha256, k, a);
      ChunksForConcat([Send(sha256, k, DraftOf(a))], ChunksOf(sha256, rest), c);
      OneChunkFor(Send(sha256, k, DraftOf(a)), c);
      SendIsFor(sha256, k, DraftOf(a));
    }
  }

  lemma ReleaseIsSent(sha256: string -> string, k: string, a: Account)
    ensures ChunksOf(sha256, [Release(k, a, false)]) == [Send(sha256, k, DraftOf(a))]
  {
  }

  lemma StepIsSolo(sha256: string -> string, limits: Limits, ledger: Ledger, op: Op, c: string)
    requires Unique(ledger) && AllResident(limits, ledger)
    ensures var (after, releases) := Step(limits, ledger, op);
            SoloStep(sha256, limits, c, Drafted(ledger, c), op)
            == (Drafted(after, c), ChunksFor(ChunksOf(sha256, releases), c))
  {
    hide Unique, AllResident, Get, Kept, Releases, ChunksOf, Send, Text, AddAll, Ids, Appended;
    match op {
      case Append(_, _, _, _, _) => AppendIsSolo(sha256, limits, ledger, op, c);
      case FlushIdle(now) =>
        DueIsSolo(sha256, ledger, Some(now - limits.idleMs), c);
        DueLeavesWhole(ledger, Some(now - limits.idleMs), c);
      case FlushAll =>
        DueIsSolo(sha256, ledger, None, c);
        DueLeavesWhole(ledger, None, c);
    }
  }

  lemma StepStaysOk(limits: Limits, ledger: Ledger, op: Op)
    requires LimitsOk(limits) && AllResident(limits, ledger)
    ensures AllResident(limits, Step(limits, ledger, op).0) && AllOk(limits, Step(limits, ledger, op).1)
  {
    hide AllResident, AllOk;
    RunStaysOk(limits, ledger, [op]);
    OneOp(limits, ledger, op);
  }

  lemma OneOp(limits: Limits, ledger: Ledger, op: Op)
    ensures Run(limits, ledger, [op]) == Step(limits, ledger, op)
  {
    hide Step;
    assert [op][1..] == [];
    var (after, releases) := Step(limits, ledger, op);
    assert releases + [] == releases;
  }

  lemma {:induction false} RunIsSolo(sha256: string -> string, limits: Limits, ledger: Ledger, ops: seq<Op>, c: string)
    requires LimitsOk(limits) && Unique(ledger) && AllResident(limits, ledger)
    ensures SoloRun(sha256, limits, c, Drafted(ledger, c), ops)
         == (Drafted(Run(limits, ledger, ops).0, c), ChunksFor(Returned(sha256, limits, ledger, ops), c))
    decreases |ops|
  {
    hide Unique, AllResident, Step, SoloStep, Drafted, ChunksOf;
    if ops != [] {
      var (mid, releases) := Step(limits, ledger, ops[0]);
      StepIsSolo(sha256, limits, ledger, ops[0], c);
      StepStaysUnique(limits, ledger, ops[0]);
      StepStaysOk(limits, ledger, ops[0]);
      RunIsSolo(sha256, limits, mid, ops[1..], c);
      ChunksForConcat(ChunksOf(sha256, releases), Returned(sha256, limits, mid, ops[1..]), c);
    }
  }

  lemma {:induction false} ReturnedAreReleased(sha256: string -> string, limits: Limits, ledger: Ledger, ops: seq<Op>)
    ensures Returned(sha256, limits, ledger, ops) == ChunksOf(sha256, Run(limits, ledger, ops).1)
    decreases |ops|
  {
    hide Step, ChunkOf;
    if ops != [] {
      var (mid, releases) := Step(limits, ledger, ops[0]);
      ReturnedAreReleased(sha256, limits, mid, ops[1..]);
      ChunksConcat(sha256, releases, Run(limits, mid, ops[1..]).1);
    }
  }

  lemma NothingHeld(limits: Limits)
    ensures Unique<string, Account>([]) && AllResident(limits, []) && forall c :: Drafted([], c) == None
  {
  }

  // ---- Main results ----------------------------------------------------------------------------

  /** Over any run, what the chunker returns for a conversation is what the
      conversation on its own would send: same chunks, text, hash, hint and ids, at the
      same calls. */
  lemma ReturnsAsSolo(sha256: string -> string, limits: Limits, ops: seq<Op>, c: string)
    requires LimitsOk(limits)
    ensures ChunksFor(Returned(sha256, limits, [], ops), c) == SoloRun(sha256, limits, c, None, ops).1
  {
    NothingHeld(limits);
    RunIsSolo(sha256, limits, [], ops, c);
  }

  /** The chunks of one conversation taken apart: each is its new part, or the tail of
      the chunk before, a line break and its new part; no new part is empty. */
  ghost predicate Peels(limits: Limits, before: Option<string>, chunks: seq<Chunk>, parts: seq<string>)
    decreases |chunks|
  {
    if chunks == [] then parts == []
    else
      && parts != [] && parts[0] != ""
      && (chunks[0].text == parts[0] || CarriedOver(limits, before, chunks[0].text, parts[0]))
      && Peels(limits, Some(chunks[0].text), chunks[1..], parts[1..])
  }

  ghost predicate CarriedOver(limits: Limits, before: Option<string>, text: string, part: string) {
    && before.Some? && Tail(limits.overlapChars, before.value) != ""
    && text == Tail(limits.overlapChars, before.value) + "\n" + part
  }

  lemma {:induction false} LinkedPeels(sha256: string -> string, limits: Limits, last: Option<Release>,
          releases: seq<Release>, c: string)
    requires Linked(limits, last, releases, c) && AllOk(limits, releases)
    requires forall r :: r in releases ==> r.account.said != []
    ensures Peels(limits, if last.Some? then Some(Text(last.value.account)) else None,
                  ChunksFor(ChunksOf(sha256, releases), c), StrippedOf(releases, c))
    decreases |releases|
  {
    hide Tail, Text, Stripped, AddAll, Ids;
    if releases != [] {
      var r, rest := releases[0], releases[1..];
      assert ChunksOf(sha256, releases)[1..] == ChunksOf(sha256, rest);
      assert r in releases;
      if r.conversation == c {
        LinkedPeels(sha256, limits, Some(r), rest, c);
        PartOf(limits, last, r);
        var chunks := ChunksFor(ChunksOf(sha256, releases), c);
        assert chunks[1..] == ChunksFor(ChunksOf(sha256, rest), c);
        assert StrippedOf(releases, c)[1..] == StrippedOf(rest, c);
      } else {
        LinkedPeels(sha256, limits, last, rest, c);
        assert ChunksFor(ChunksOf(sha256, releases), c) == ChunksFor(ChunksOf(sha256, rest), c);
        assert StrippedOf(releases, c) == StrippedOf(rest, c);
      }
    }
  }

  lemma PartOf(limits: Limits, last: Option<Release>, r: Release)
    requires SeedFrom(limits, last, r.account.seed) && ReleaseOk(limits, r)
    ensures Stripped(r) != ""
    ensures Text(r.account) == Stripped(r)
            || CarriedOver(limits, if last.Some? then Some(Text(last.value.account)) else None,
                           Text(r.account), Stripped(r))
  {
    hide Tail, JoinLines, Texts;
    TextStrips(r.account);
    StrippedIsSaid(r);
    JoinedLength(r.account.said);
    SaidHasText(r.account.said);
    assert "" + JoinLines(Texts(r.account.said)) == JoinLines(Texts(r.account.said));
  }

  lemma SaidHasText(said: seq<Said>)
    requires said != [] && forall i :: 0 <= i < |said| ==> said[i].text != ""
    ensures FreshChars(said) >= 2
  {
  }

  /** Over any run that ends in a full flush: the texts of the chunks returned for a
      conversation, each without the tail it carries over from the chunk before, join to
      the texts appended to it, in order. */
  lemma ChunkTextsConserve(sha256: string -> string, limits: Limits, ops: seq<Op>, c: string)
    returns (parts: seq<string>)
    requires LimitsOk(limits)
    ensures Peels(limits, None, ChunksFor(Returned(sha256, limits, [], ops + [FlushAll]), c), parts)
    ensures JoinLines(parts) == JoinLines(Texts(SaidIn(ops, c)))
  {
    hide AllOk, AllResident, Peels, Linked, SeedFrom, JoinLines, Texts, StrippedOf, ChunksFor;
    var all := ops + [FlushAll];
    var releases := Run(limits, [], all).1;
    ChunksConserve(limits, ops, c);
    SeedsAreTails(limits, all, c);
    NothingHeld(limits);
    RunStaysOk(limits, [], all);
    LinkedPeels(sha256, limits, None, releases, c);
    ReturnedAreReleased(sha256, limits, [], all);
    parts := StrippedOf(releases, c);
  }

  /** The chunks a call returns: the hash is the text's; a size flush returns a chunk as
      long as the cap less one and no longer than the cap and the text that set it off,
      a timed flush one shorter than the cap. */
  lemma ReturnedAreBounded(sha256: string -> string, limits: Limits, ops: seq<Op>, op: Op, chunk: Chunk)
    requires LimitsOk(limits)
    requires chunk in ChunksOf(sha256, Step(limits, Run(limits, [], ops).0, op).1)
    ensures chunk.hash == sha256(chunk.text)
    ensures op.Append? ==>
              && chunk.conversationId == op.conversation && limits.maxChars - 1 <= |chunk.text|
              && (limits.maxChars > 0 ==> |chunk.text| <= limits.maxChars + |op.text|)
    ensures !op.Append? ==> |chunk.text| < limits.maxChars
  {
    var ledger := Run(limits, [], ops).0;
    var releases := Step(limits, ledger, op).1;
    NothingHeld(limits);
    RunStaysOk(limits, [], ops);
    StepStaysOk(limits, ledger, op);
    var i :| 0 <= i < |releases| && ChunksOf(sha256, releases)[i] == chunk;
    assert releases[i] in releases;
    hide Size, Text, AllResident, AddAll, Ids;
    LengthIsJoined(releases[i].account);
    ReleasedBy(limits, ledger, op, releases[i]);
  }

  lemma ReleasedBy(limits: Limits, ledger: Ledger, op: Op, r: Release)
    requires r in Step(limits, ledger, op).1
    ensures r.bySize <==> op.Append?
    ensures op.Append? ==> r.conversation == op.conversation && r.account.said != [] && Last(r).text == op.text
  {
    hide Size, Put, Drop, Get, Left;
    match op {
      case Append(c, text, ids, hint, now) =>
        var a := Extended(Get(ledger, c), Said(text, ids), hint, now);
        GetPut(ledger, c, a, c);
      case FlushIdle(now) => ReleasedInTime(ledger, Some(now - limits.idleMs), r);
      case FlushAll => ReleasedInTime(ledger, None, r);
    }
  }

  lemma {:induction false} ReleasedInTime(ledger: Ledger, cutoff: Option<int>, r: Release)
    requires r in Releases(ledger, cutoff)
    ensures !r.bySize
    decreases |ledger|
  {
    if r in Releases(ledger[1..], cutoff) {
      ReleasedInTime(ledger[1..], cutoff, r);
    }
  }

  /** When two texts in a row each set off a chunk, the second chunk starts with the
      tail of the first, if that has one, and holds nothing else but its text. */
  lemma NextChunkCarries(sha256: string -> string, limits: Limits, ops: seq<Op>, one: Op, two: Op)
    requires LimitsOk(limits) && one.Append? && two.Append? && one.conversation == two.conversation && two.text != ""
    ensures var (mid, first) := Step(limits, Run(limits, [], ops).0, one);
            var second := Step(limits, mid, two).1;
            first != [] && second != [] ==>
              var tail := Tail(limits.overlapChars, ChunksOf(sha256, first)[0].text);
              ChunksOf(sha256, second)[0].text == if tail == "" then two.text else tail + "\n" + two.text
  {
    hide Step, AllResident, Unique, ChunksOf, AddAll, Ids, Text, Tail, AllOk;
    var c := one.conversation;
    var ledger := Run(limits, [], ops).0;
    NothingHeld(limits);
    RunConserves(limits, [], ops, c);
    RunStaysOk(limits, [], ops);
    StepIsSolo(sha256, limits, ledger, one, c);
    StepStaysUnique(limits, ledger, one);
    StepStaysOk(limits, ledger, one);
    var (mid, first) := Step(limits, ledger, one);
    StepIsSolo(sha256, limits, mid, two, c);
    AppendReturnsItsOwn(sha256, limits, ledger, one);
    AppendReturnsItsOwn(sha256, limits, mid, two);
  }

  lemma AppendReturnsItsOwn(sha256: string -> string, limits: Limits, ledger: Ledger, op: Op)
    requires op.Append?
    ensures var chunks := ChunksOf(sha256, Step(limits, ledger, op).1);
            ChunksFor(chunks, op.conversation) == chunks
  {
    hide Size, Put, Drop, Get, Left, Text, AddAll, Ids;
    var releases := Step(limits, ledger, op).1;
    NoChunks(sha256, op.conversation);
    if releases != [] {
      assert releases == [releases[0]];
      OneChunkFor(ChunkOf(sha256, releases[0]), op.conversation);
      assert ChunksOf(sha256, releases) == [ChunkOf(sha256, releases[0])];
    }
  }

  // ---- When a conversation goes quiet, and its hint ----------------------------------------------

  /** When the conversation last said something. */
  function LastSaid(ops: seq<Op>, c: string): Option<int>
    decreases |ops|
  {
    if ops == [] then None
    else
      var op := ops[|ops| - 1];
      if op.Append? && op.conversation == c && op.text != "" then Some(op.now) else LastSaid(ops[..|ops| - 1], c)
  }

  lemma SoloSnoc(sha256: string -> string, limits: Limits, c: string, draft: Option<Draft>, ops: seq<Op>, op: Op)
    ensures var (mid, first) := SoloRun(sha256, limits, c, draft, ops);
            var (after, last) := SoloStep(sha256, limits, c, mid, op);
            SoloRun(sha256, limits, c, draft, ops + [op]) == (after, first + last)
    decreases |ops|
  {
    hide SoloStep;
    if ops == [] {
      assert [] + [op] == [op] && [op][1..] == [];
      var last := SoloStep(sha256, limits, c, draft, op).1;
      assert last + [] == [] + last;
    } else {
      assert (ops + [op])[1..] == ops[1..] + [op];
      var (mid, first) := SoloStep(sha256, limits, c, draft, ops[0]);
      SoloSnoc(sha256, limits, c, mid, ops[1..], op);
      var (after, rest) := SoloRun(sha256, limits, c, mid, ops[1..]);
      var last := SoloStep(sha256, limits, c, after, op).1;
      assert (first + rest) + last == first + (rest + last);
    }
  }

  lemma {:induction false} DraftIsDated(sha256: string -> string, limits: Limits, c: string, ops: seq<Op>)
    ensures var draft := SoloRun(sha256, limits, c, None, ops).0;
            draft.Some? ==> LastSaid(ops, c) == Some(draft.value.at)
    decreases |ops|
  {
    hide Tail;
    if ops != [] {
      var n := |ops| - 1;
      assert ops == ops[..n] + [ops[n]];
      SoloSnoc(sha256, limits, c, None, ops[..n], ops[n]);
      DraftIsDated(sha256, limits, c, ops[..n]);
    }
  }

  /** An idle flush sends a conversation exactly when it has said something not sent yet
      and said its last at least the idle time ago. */
  lemma IdleSendsExactly(sha256: string -> string, limits: Limits, ops: seq<Op>, c: string, now: int)
    requires LimitsOk(limits)
    ensures var ledger := Run(limits, [], ops).0;
            ChunksFor(ChunksOf(sha256, Step(limits, ledger, FlushIdle(now)).1), c) != [] <==>
            Pending(ledger, c) != [] && LastSaid(ops, c).Some? && now - LastSaid(ops, c).value >= limits.idleMs
  {
    hide Step, AllResident, Unique, ChunksOf, AddAll, Ids, Text;
    var ledger := Run(limits, [], ops).0;
    NothingHeld(limits);
    RunConserves(limits, [], ops, c);
    RunStaysOk(limits, [], ops);
    RunIsSolo(sha256, limits, [], ops, c);
    StepIsSolo(sha256, limits, ledger, FlushIdle(now), c);
    DraftIsDated(sha256, limits, c, ops);
  }

  /** The last hint given, among hints some of which are missing. */
  function Latest(hints: seq<Option<string>>): Option<string>
    decreases |hints|
  {
    if hints == [] then None
    else if hints[|hints| - 1].Some? then hints[|hints| - 1]
    else Latest(hints[..|hints| - 1])
  }

  /** The hints given with a conversation's texts since nothing was held of it. */
  function HintsSince(sha256: string -> string, limits: Limits, c: string, ops: seq<Op>): seq<Option<string>>
    decreases |ops|
  {
    if ops == [] then []
    else
      var before, op := ops[..|ops| - 1], ops[|ops| - 1];
      if SoloRun(sha256, limits, c, None, ops).0.None? then []
      else HintsSince(sha256, limits, c, before) + HintOf(op, c)
  }

  function HintOf(op: Op, c: string): seq<Option<string>> {
    if op.Append? && op.conversation == c && op.text != "" then [op.hint] else []
  }

  lemma LatestSnoc(hints: seq<Option<string>>, hint: Option<string>)
    ensures Latest(hints + [hint]) == if hint.Some? then hint else Latest(hints)
    ensures Latest(hints + []) == Latest(hints)
  {
    assert (hints + [hint])[..|hints|] == hints;
    assert hints + [] == hints;
  }

  lemma {:induction false} DraftIsHinted(sha256: string -> string, limits: Limits, c: string, ops: seq<Op>)
    ensures var draft := SoloRun(sha256, limits, c, None, ops).0;
            && (draft.Some? ==> draft.value.hint == Latest(HintsSince(sha256, limits, c, ops)))
            && (draft.None? ==> HintsSince(sha256, limits, c, ops) == [])
    decreases |ops|
  {
    hide Tail, Latest;
    if ops != [] {
      var n := |ops| - 1;
      assert ops == ops[..n] + [ops[n]];
      SoloSnoc(sha256, limits, c, None, ops[..n], ops[n]);
      DraftIsHinted(sha256, limits, c, ops[..n]);
      if ops[n].Append? {
        LatestSnoc(HintsSince(sha256, limits, c, ops[..n]), ops[n].hint);
      }
      LatestSnoc(HintsSince(sha256, limits, c, ops[..n]), None);
      LatestOfNone();
    }
  }

  lemma LatestOfNone()
    ensures Latest([]) == None
  {
  }

  /** A chunk goes out with the latest hint given with its conversation's texts since
      nothing was held of it; texts without one do not clear it, nor does a size flush
      that keeps a tail. */
  lemma HintIsLatest(sha256: string -> string, limits: Limits, ops: seq<Op>, op: Op, c: string, chunk: Chunk)
    requires LimitsOk(limits)
    requires chunk in ChunksFor(ChunksOf(sha256, Step(limits, Run(limits, [], ops).0, op).1), c)
    ensures chunk.projectHint == Latest(HintsSince(sha256, limits, c, ops) + HintOf(op, c))
  {
    hide Step, AllResident, Unique, ChunksOf, AddAll, Ids, Text, Tail, Latest;
    var ledger := Run(limits, [], ops).0;
    NothingHeld(limits);
    RunConserves(limits, [], ops, c);
    RunStaysOk(limits, [], ops);
    RunIsSolo(sha256, limits, [], ops, c);
    StepIsSolo(sha256, limits, ledger, op, c);
    DraftIsHinted(sha256, limits, c, ops);
    LatestSnoc(HintsSince(sha256, limits, c, ops), if op.Append? then op.hint else None);
    LatestOfNone();
  }
}

/** The transcript chunker of apps/watcher/src/chunker.ts: mutable buffers with
    running counters, kept in step with a ledger of what each conversation said. */
module Chunker {
  import opened Outcomes
  import opened OrderedMaps
  import opened Strings

  const NEWLINE := '\n'

  /** One call of `append` with text in it. */
  datatype Said = Said(text: string, ids: seq<string>)

  /** What a conversation has pending: an overlap carried from its last chunk,
      and what it said since. */
  datatype Account = Account(seed: Option<string>, said: seq<Said>, at: int, hint: Option<string>)

  type Ledger = Entries<string, Account>

  /** What leaves as one chunk. */
  datatype Release = Release(conversation: string, account: Account, bySize: bool)

  datatype Limits = Limits(maxChars: int, idleMs: int, overlapChars: nat)

  // ---- Text --------------------------------------------------------------------------

  function JoinLines(parts: seq<string>): string {
    Join(parts, [NEWLINE])
  }

  function Texts(said: seq<Said>): (texts: seq<string>)
    ensures |texts| == |said|
  {
    seq(|said|, i requires 0 <= i < |said| => said[i].text)
  }

  function Ids(said: seq<Said>): seq<string>
    decreases |said|
  {
    if said == [] then [] else Ids(said[..|said| - 1]) + said[|said| - 1].ids
  }

  /** A Set filled in order: the first of equal ids keeps its place. */
  function AddAll(ids: seq<string>, more: seq<string>): seq<string>
    decreases |more|
  {
    if more == [] then ids else AddAll(if more[0] in ids then ids else ids + [more[0]], more[1..])
  }

  function IndexOf(s: string, c: char): (at: Option<nat>)
    ensures at.Some? ==> at.value < |s| && s[at.value] == c && c !in s[..at.value]
    ensures at.None? ==> c !in s
  {
    if s == [] then None
    else if s[0] == c then Some(0)
    else
      match IndexOf(s[1..], c)
      case None => None
      case Some(i) => Some(i + 1)
  }

  function LastChars(s: string, n: nat): string {
    if |s| <= n then s else s[|s| - n..]
  }

  /** The carried overlap: the last characters, cut at the first line break in them. */
  function Tail(overlapChars: nat, text: string): string {
    if overlapChars == 0 then ""
    else
      var window := LastChars(text, overlapChars);
      if |window| == |text| then ""
      else
        match IndexOf(window, NEWLINE)
        case Some(i) => window[i + 1..]
        case None => window
  }

  // ---- The ledger ----------------------------------------------------------------------

  function Seeds(a: Account): seq<string> {
    match a.seed
    case None => []
    case Some(seed) => [seed]
  }

  function Parts(a: Account): seq<string> {
    Seeds(a) + Texts(a.said)
  }

  function FreshChars(said: seq<Said>): nat
    decreases |said|
  {
    if said == [] then 0 else FreshChars(said[..|said| - 1]) + |said[|said| - 1].text| + 1
  }

  function Size(a: Account): nat {
    (if a.seed.Some? then |a.seed.value| else 0) + FreshChars(a.said)
  }

  function Text(a: Account): string {
    JoinLines(Parts(a))
  }

  function OrElse<T>(first: Option<T>, second: Option<T>): Option<T> {
    if first.Some? then first else second
  }

  /** The account after one more text; a conversation without one starts bare. */
  function Extended(before: Option<Account>, said: Said, hint: Option<string>, now: int): Account {
    match before
    case None => Account(None, [said], now, hint)
    case Some(a) => Account(a.seed, a.said + [said], now, OrElse(hint, a.hint))
  }

  /** What a flush leaves of an account. */
  function Left(limits: Limits, ledger: Ledger, conversation: string, a: Account, reseed: bool): Ledger {
    var tail := if reseed then Tail(limits.overlapChars, Text(a)) else "";
    if tail != "" then Put(ledger, conversation, Account(Some(tail), [], a.at, a.hint))
    else Drop(ledger, conversation)
  }

  function Flushed(limits: Limits, ledger: Ledger, conversation: string, reseed: bool): (Ledger, seq<Release>) {
    match Get(ledger, conversation)
    case None => (Drop(ledger, conversation), [])
    case Some(a) =>
      if a.said == [] then (Drop(ledger, conversation), [])
      else (Left(limits, ledger, conversation, a, reseed), [Release(conversation, a, reseed)])
  }

  function Appended(limits: Limits, ledger: Ledger, conversation: string, said: Said, hint: Option<string>, now: int)
      : (Ledger, seq<Release>)
  {
    if said.text == "" then (ledger, [])
    else
      var a := Extended(Get(ledger, conversation), said, hint, now);
      var next := Put(ledger, conversation, a);
      if Size(a) >= limits.maxChars then Flushed(limits, next, conversation, true) else (next, [])
  }

  /** The conversations whose last text came at or before the cutoff leave. */
  function Releases(ledger: Ledger, cutoff: Option<int>): seq<Release>
    decreases |ledger|
  {
    if ledger == [] then []
    else
      var (conversation, a) := ledger[0];
      (if Due(a, cutoff) && a.said != [] then [Release(conversation, a, false)] else []) + Releases(ledger[1..], cutoff)
  }

  function Kept(ledger: Ledger, cutoff: Option<int>): Ledger
    decreases |ledger|
  {
    if ledger == [] then [] else (if Due(ledger[0].1, cutoff) then [] else [ledger[0]]) + Kept(ledger[1..], cutoff)
  }

  predicate Due(a: Account, cutoff: Option<int>) {
    cutoff.None? || a.at <= cutoff.value
  }

  // ---- The buffers ---------------------------------------------------------------------

  datatype Buffer = Buffer(parts: seq<string>, length: nat, freshChars: nat, lastAppendAt: int,
                           projectHint: Option<string>, recalledIds: seq<string>)

  datatype Chunk = Chunk(conversationId: string, text: string, hash: string, projectHint: Option<string>,
                         recalledIds: seq<string>)

  function BufferOf(a: Account): Buffer {
    Buffer(Parts(a), Size(a), FreshChars(a.said), a.at, a.hint, AddAll([], Ids(a.said)))
  }

  function ChunkOf(sha256: string -> string, r: Release): Chunk {
    var text := Text(r.account);
    Chunk(r.conversation, text, sha256(text), r.account.hint, AddAll([], Ids(r.account.said)))
  }

  function ChunksOf(sha256: string -> string, releases: seq<Release>): (chunks: seq<Chunk>)
    ensures |chunks| == |releases|
  {
    seq(|releases|, i requires 0 <= i < |releases| => ChunkOf(sha256, releases[i]))
  }

  lemma {:induction false} AddAllConcat(ids: seq<string>, a: seq<string>, b: seq<string>)
    ensures AddAll(ids, a + b) == AddAll(AddAll(ids, a), b)
    decreases |a|
  {
    if a == [] {
      assert a + b == b;
    } else {
      assert (a + b)[1..] == a[1..] + b;
      AddAllConcat(if a[0] in ids then ids else ids + [a[0]], a[1..], b);
    }
  }

  lemma FreshCharsCount(said: seq<Said>)
    ensures FreshChars(said) == 0 <==> said == []
  {
  }

  lemma SayMore(a: Account, said: Said, hint: Option<string>, now: int)
    ensures var next := Extended(Some(a), said, hint, now);
            BufferOf(next) == Buffer(Parts(a) + [said.text], Size(a) + |said.text| + 1,
                                     FreshChars(a.said) + |said.text| + 1, now, OrElse(hint, a.hint),
                                     AddAll(AddAll([], Ids(a.said)), said.ids))
  {
    var all := a.said + [said];
    assert all[..|all| - 1] == a.said;
    assert Texts(all) == Texts(a.said) + [said.text];
    assert Parts(Account(a.seed, all, now, OrElse(hint, a.hint))) == Parts(a) + [said.text];
    AddAllConcat([], Ids(a.said), said.ids);
  }

  lemma CarriedBuffer(overlap: string, at: int, hint: Option<string>)
    ensures BufferOf(Account(Some(overlap), [], at, hint)) == Buffer([overlap], |overlap|, 0, at, hint, [])
  {
    assert Parts(Account(Some(overlap), [], at, hint)) == [overlap];
  }

  lemma ChunksConcat(sha256: string -> string, a: seq<Release>, b: seq<Release>)
    ensures ChunksOf(sha256, a + b) == ChunksOf(sha256, a) + ChunksOf(sha256, b)
    ensures ChunksOf(sha256, []) == []
  {
  }

  const NOTHING := Account(None, [], 0, None)

  lemma SayFirst(said: Said, hint: Option<string>, now: int)
    ensures Extended(None, said, hint, now) == Extended(Some(NOTHING), said, hint, now)
    ensures BufferOf(NOTHING).(lastAppendAt := now) == Buffer([], 0, 0, now, None, [])
  {
    assert [] + [said] == [said];
    assert Parts(NOTHING) == [];
  }

  class ConversationChunker {
    const maxChars: int
    const idleMs: int
    const overlapChars: nat
    const sha256: string -> string
    var buffers: Entries<string, Buffer>
    ghost var ledger: Ledger

    ghost predicate Valid()
      reads this
    {
      Unique(ledger) && buffers == MapValues(BufferOf, ledger)
    }

    function TheLimits(): Limits {
      Limits(maxChars, idleMs, overlapChars)
    }

    constructor (maxChars: int, idleMs: int, overlapChars: Option<int>, sha256: string -> string)
      ensures Valid() && ledger == []
      ensures this.maxChars == maxChars && this.idleMs == idleMs && this.sha256 == sha256
      ensures this.overlapChars == Overlap(maxChars, overlapChars)
    {
      this.maxChars := maxChars;
      this.idleMs := idleMs;
      this.overlapChars := Overlap(maxChars, overlapChars);
      this.sha256 := sha256;
      buffers := [];
      ledger := [];
    }

    /** One conversation's chunk, if it has fresh text; what it leaves is dropped
        or becomes the carried overlap. */
    method Flush(conversationId: string, reseedOverlap: bool) returns (flushed: seq<Chunk>)
      requires Valid()
      modifies this
      ensures Valid()
      ensures ledger == Flushed(TheLimits(), old(ledger), conversationId, reseedOverlap).0
      ensures flushed == ChunksOf(sha256, Flushed(TheLimits(), old(ledger), conversationId, reseedOverlap).1)
      ensures forall i :: 0 <= i < |flushed| ==>
                flushed[i].conversationId == conversationId && flushed[i].hash == sha256(flushed[i].text)
    {
      hide AddAll, Ids, FreshChars, JoinLines, Texts, Tail, Get, Put, Drop, MapValues, Unique;
      ghost var before := ledger;
      GetMapped(BufferOf, ledger, conversationId);
      DropMapped(BufferOf, ledger, conversationId);
      DropStaysUnique(ledger, conversationId);
      ledger := Flushed(TheLimits(), ledger, conversationId, reseedOverlap).0;
      var found := Get(buffers, conversationId);
      if found.None? || found.value.freshChars == 0 {
        if found.Some? {
          FreshCharsCount(Get(before, conversationId).value.said);
        }
        buffers := Drop(buffers, conversationId);
        return [];
      }
      ghost var a := Get(before, conversationId).value;
      FreshCharsCount(a.said);
      var buffer := found.value;
      var text := JoinLines(buffer.parts);
      var overlap := if reseedOverlap then Tail(overlapChars, text) else "";
      if |overlap| > 0 {
        ghost var carried := Account(Some(overlap), [], a.at, a.hint);
        PutMapped(BufferOf, before, conversationId, carried);
        PutStaysUnique(before, conversationId, carried);
        CarriedBuffer(overlap, a.at, a.hint);
        buffers := Put(buffers, conversationId,
                       Buffer([overlap], |overlap|, 0, buffer.lastAppendAt, buffer.projectHint, []));
      } else {
        buffers := Drop(buffers, conversationId);
      }
      flushed := [Chunk(conversationId, text, sha256(text), buffer.projectHint, buffer.recalledIds)];
    }

    /** Buffers text; a buffer that reached the cap leaves at once. */
    method Append(conversationId: string, text: string, recalledIds: seq<string>, projectHint: Option<string>, now: int)
      returns (flushed: seq<Chunk>)
      requires Valid()
      modifies this
      ensures Valid()
      ensures var (after, releases) :=
                Appended(TheLimits(), old(ledger), conversationId, Said(text, recalledIds), projectHint, now);
              ledger == after && flushed == ChunksOf(sha256, releases)
    {
      if |text| == 0 {
        return [];
      }
      ghost var said := Said(text, recalledIds);
      ghost var a := Extended(Get(ledger, conversationId), said, projectHint, now);
      var buffer := Extend(conversationId, text, recalledIds, projectHint, now);
      PutMapped(BufferOf, ledger, conversationId, a);
      PutStaysUnique(ledger, conversationId, a);
      buffers := Put(buffers, conversationId, buffer);
      ledger := Put(ledger, conversationId, a);
      if buffer.length >= maxChars {
        flushed := Flush(conversationId, true);
      } else {
        flushed := [];
      }
    }

    /** The buffer with one more text and its recalled ids in it. */
    method Extend(conversationId: string, text: string, recalledIds: seq<string>, projectHint: Option<string>, now: int)
      returns (buffer: Buffer)
      requires Valid()
      ensures buffer == BufferOf(Extended(Get(ledger, conversationId), Said(text, recalledIds), projectHint, now))
    {
      hide Ids, FreshChars, JoinLines, Texts, Get, MapValues, Unique, Parts, Size;
      ghost var said := Said(text, recalledIds);
      ghost var before := Get(ledger, conversationId);
      GetMapped(BufferOf, ledger, conversationId);
      SayFirst(said, projectHint, now);
      SayMore(if before.Some? then before.value else NOTHING, said, projectHint, now);
      var found := Get(buffers, conversationId);
      buffer := if found.Some? then found.value else Buffer([], 0, 0, now, None, []);
      buffer := buffer.(parts := buffer.parts + [text], length := buffer.length + |text| + 1,
                        freshChars := buffer.freshChars + |text| + 1, lastAppendAt := now,
                        projectHint := OrElse(projectHint, buffer.projectHint));
      var ids := AddIds(buffer.recalledIds, recalledIds);
      buffer := buffer.(recalledIds := ids);
    }

    /** Adding each id to the set of those seen. */
    static method AddIds(seen: seq<string>, ids: seq<string>) returns (all: seq<string>)
      ensures all == AddAll(seen, ids)
    {
      all := seen;
      for i := 0 to |ids|
        invariant AddAll(all, ids[i..]) == AddAll(seen, ids)
      {
        assert ids[i..][1..] == ids[i + 1..];
        if ids[i] !in all {
          all := all + [ids[i]];
        }
      }
    }

    /** The chunks of every conversation that has been silent long enough. */
    method FlushIdle(now: int) returns (flushed: seq<Chunk>)
      requires Valid()
      modifies this
      ensures Valid()
      ensures ledger == Kept(old(ledger), Some(now - idleMs))
      ensures flushed == ChunksOf(sha256, Releases(old(ledger), Some(now - idleMs)))
    {
      flushed := FlushDue(Some(now - idleMs));
    }

    /** Everything still buffered. */
    method FlushAll() returns (flushed: seq<Chunk>)
      requires Valid()
      modifies this
      ensures Valid()
      ensures ledger == []
      ensures flushed == ChunksOf(sha256, Releases(old(ledger), None))
    {
      KeepsNothing(ledger);
      flushed := FlushDue(None);
    }

    /** The loop both flushes share: over a snapshot, dropping as it goes. */
    method FlushDue(cutoff: Option<int>) returns (flushed: seq<Chunk>)
      requires Valid()
      modifies this
      ensures Valid()
      ensures ledger == Kept(old(ledger), cutoff)
      ensures flushed == ChunksOf(sha256, Releases(old(ledger), cutoff))
    {
      hide Get, Drop, Kept, Releases, Unique, Texts, Ids, AddAll, Text, Parts, Size, FreshChars, ChunksOf;
      var snapshot := buffers;
      ghost var all := ledger;
      NothingYet(all, cutoff);
      flushed := [];
      for i := 0 to |snapshot|
        invariant Valid() && |snapshot| == |all|
        invariant ledger == Kept(all[..i], cutoff) + all[i..]
        invariant flushed == ChunksOf(sha256, Releases(all[..i], cutoff))
      {
        var (conversationId, buffer) := snapshot[i];
        ghost var a := all[i].1;
        NextIsThere(all, i, cutoff);
        NextKept(all, i, cutoff);
        NextReleased(all, i, cutoff);
        ghost var released := if Due(a, cutoff) && a.said != [] then [Release(conversationId, a, false)] else [];
        ChunksConcat(sha256, Releases(all[..i], cutoff), released);
        if cutoff.Some? && buffer.lastAppendAt > cutoff.value {
          assert flushed + [] == flushed;
          continue;
        }
        var chunks := Flush(conversationId, false);
        flushed := flushed + chunks;
      }
      assert all[..|all|] == all;
    }
  }

  lemma {:induction false} KeepsNothing(ledger: Ledger)
    ensures Kept(ledger, None) == []
    decreases |ledger|
  {
    if ledger != [] {
      KeepsNothing(ledger[1..]);
    }
  }

  /** Overlap can never reach the flush cap. */
  function Overlap(maxChars: int, overlapChars: Option<int>): nat {
    var asked := if overlapChars.Some? && overlapChars.value > 0 then overlapChars.value else 0;
    var cap := if maxChars - 1 > 0 then maxChars - 1 else 0;
    if asked < cap then asked else cap
  }

  lemma NothingYet(all: Ledger, cutoff: Option<int>)
    ensures Kept(all[..0], cutoff) + all[0..] == all
    ensures Releases(all[..0], cutoff) == []
  {
  }

  lemma {:induction false} KeptConcat(a: Ledger, b: Ledger, cutoff: Option<int>)
    ensures Kept(a + b, cutoff) == Kept(a, cutoff) + Kept(b, cutoff)
    decreases |a|
  {
    if a == [] {
      assert a + b == b;
    } else {
      assert (a + b)[1..] == a[1..] + b;
      KeptConcat(a[1..], b, cutoff);
    }
  }

  lemma {:induction false} ReleasesConcat(a: Ledger, b: Ledger, cutoff: Option<int>)
    ensures Releases(a + b, cutoff) == Releases(a, cutoff) + Releases(b, cutoff)
    decreases |a|
  {
    hide Due;
    if a == [] {
      assert a + b == b;
    } else {
      assert (a + b)[1..] == a[1..] + b;
      ReleasesConcat(a[1..], b, cutoff);
      var (conversation, first) := a[0];
      var head := if Due(first, cutoff) && first.said != [] then [Release(conversation, first, false)] else [];
      JoinReleases(head, Releases(a[1..], cutoff), Releases(b, cutoff));
    }
  }

  lemma JoinReleases(a: seq<Release>, b: seq<Release>, c: seq<Release>)
    ensures a + (b + c) == (a + b) + c
  {
  }

  lemma {:induction false} KeptMembers(ledger: Ledger, cutoff: Option<int>)
    ensures forall e :: e in Kept(ledger, cutoff) ==> e in ledger
    decreases |ledger|
  {
    if ledger != [] {
      KeptMembers(ledger[1..], cutoff);
    }
  }

  /** One round of the loop, seen in the ledger: what the flush finds and leaves. */
  lemma NextIsThere(all: Ledger, i: nat, cutoff: Option<int>)
    requires Unique(all) && i < |all|
    ensures var rest := Kept(all[..i], cutoff) + all[i..];
            var (conversation, a) := all[i];
            Get(rest, conversation) == Some(a) && Drop(rest, conversation) == Kept(all[..i], cutoff) + all[i + 1..]
  {
    hide Kept, Get, Drop;
    var k := all[i].0;
    var done := Kept(all[..i], cutoff);
    KeptMembers(all[..i], cutoff);
    assert forall e :: e in done ==> e.0 != k;
    assert forall e :: e in all[i + 1..] ==> e.0 != k;
    DropConcat(done, all[i..], k);
    DropAbsent(done, k);
    GetSkips(done, all[i..], k);
    HeadOut(all[i..], k);
    assert all[i..][1..] == all[i + 1..];
    DropAbsent(all[i + 1..], k);
  }

  lemma HeadOut(m: Ledger, k: string)
    requires m != [] && m[0].0 == k
    ensures Get(m, k) == Some(m[0].1) && Drop(m, k) == Drop(m[1..], k)
  {
  }

  lemma NextKept(all: Ledger, i: nat, cutoff: Option<int>)
    requires i < |all|
    ensures Kept(all[..i + 1], cutoff) + all[i + 1..]
         == Kept(all[..i], cutoff) + (if Due(all[i].1, cutoff) then all[i + 1..] else all[i..])
  {
    hide Kept;
    var done, next, rest := Kept(all[..i], cutoff), [all[i]], all[i + 1..];
    assert all[..i + 1] == all[..i] + next;
    KeptConcat(all[..i], next, cutoff);
    OneKept(all[i], cutoff);
    if Due(all[i].1, cutoff) {
      assert done + [] == done;
    } else {
      assert all[i..] == next + rest;
      assert (done + next) + rest == done + (next + rest);
    }
  }

  lemma OneKept(e: (string, Account), cutoff: Option<int>)
    ensures Kept([e], cutoff) == if Due(e.1, cutoff) then [] else [e]
  {
    assert [e][1..] == [];
  }

  lemma NextReleased(all: Ledger, i: nat, cutoff: Option<int>)
    requires i < |all|
    ensures var (conversation, a) := all[i];
            Releases(all[..i + 1], cutoff) == Releases(all[..i], cutoff)
              + (if Due(a, cutoff) && a.said != [] then [Release(conversation, a, false)] else [])
  {
    assert all[..i + 1] == all[..i] + [all[i]];
    ReleasesConcat(all[..i], [all[i]], cutoff);
    assert [all[i]][1..] == [];
  }

  lemma {:induction false} GetSkips<V>(a: Entries<string, V>, b: Entries<string, V>, k: string)
    requires forall e :: e in a ==> e.0 != k
    ensures Get(a + b, k) == Get(b, k)
    decreases |a|
  {
    if a == [] {
      assert a + b == b;
    } else {
      assert (a + b)[1..] == a[1..] + b;
      GetSkips(a[1..], b, k);
    }
  }
}

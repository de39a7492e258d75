/** The reader of apps/web/lib/unzip.ts inverts the writer of apps/web/lib/zip.ts,
    and every offset, size and checksum the archive records is the true one. */
module ZipRoundTrip {
  import opened Outcomes
  import opened Octets
  import opened Zip
  import Crc = Crc32
  import Lists

  predicate EntryFits(e: Entry) {
    |e.path| < 0x1_0000 && |e.content| < 0x1_0000_0000
  }

  /** The 16- and 32-bit limits of a plain archive, bar the number of entries. */
  ghost predicate Fits(entries: seq<Entry>) {
    (forall i :: 0 <= i < |entries| ==> EntryFits(entries[i])) && |Locals(entries)| < 0x1_0000_0000
  }

  // ---- Where the fields lie ------------------------------------------------------------

  lemma NextStart(fields: seq<Bytes>, i: nat)
    requires i < |fields|
    ensures Start(fields, 0) == 0 && Start(fields, i + 1) == Start(fields, i) + |fields[i]|
  {
  }

  lemma CentralStarts(e: Entry, offset: nat)
    ensures var f := CentralFields(e, offset);
            Start(f, 0) == 0 && Start(f, 1) == 4 && Start(f, 2) == 6 && Start(f, 3) == 8 && Start(f, 4) == 10
            && Start(f, 5) == 12 && Start(f, 6) == 14 && Start(f, 7) == 16 && Start(f, 8) == 20 && Start(f, 9) == 24
            && Start(f, 10) == 28 && Start(f, 11) == 30 && Start(f, 12) == 32 && Start(f, 13) == 34
            && Start(f, 14) == 36 && Start(f, 15) == 38 && Start(f, 16) == 42 && Start(f, 17) == 46
            && Start(f, 18) == 46 + |e.path|
  {
    hide Start, U16, U32, Checksum;
    var f := CentralFields(e, offset);
    NextStart(f, 0);
    NextStart(f, 1);
    NextStart(f, 2);
    NextStart(f, 3);
    NextStart(f, 4);
    NextStart(f, 5);
    NextStart(f, 6);
    NextStart(f, 7);
    NextStart(f, 8);
    NextStart(f, 9);
    NextStart(f, 10);
    NextStart(f, 11);
    NextStart(f, 12);
    NextStart(f, 13);
    NextStart(f, 14);
    NextStart(f, 15);
    NextStart(f, 16);
    NextStart(f, 17);
  }

  lemma LocalStarts(e: Entry)
    ensures var f := LocalFields(e);
            Start(f, 0) == 0 && Start(f, 1) == 4 && Start(f, 2) == 6 && Start(f, 3) == 8 && Start(f, 4) == 10
            && Start(f, 5) == 12 && Start(f, 6) == 14 && Start(f, 7) == 18 && Start(f, 8) == 22 && Start(f, 9) == 26
            && Start(f, 10) == 28 && Start(f, 11) == 30 && Start(f, 12) == 30 + |e.path|
  {
    hide Start, U16, U32, Checksum;
    var f := LocalFields(e);
    NextStart(f, 0);
    NextStart(f, 1);
    NextStart(f, 2);
    NextStart(f, 3);
    NextStart(f, 4);
    NextStart(f, 5);
    NextStart(f, 6);
    NextStart(f, 7);
    NextStart(f, 8);
    NextStart(f, 9);
    NextStart(f, 10);
    NextStart(f, 11);
  }

  lemma EndStarts(count: nat, size: nat, offset: nat)
    ensures var f := EndFields(count, size, offset);
            Start(f, 0) == 0 && Start(f, 1) == 4 && Start(f, 2) == 6 && Start(f, 3) == 8 && Start(f, 4) == 10
            && Start(f, 5) == 12 && Start(f, 6) == 16 && Start(f, 7) == 20 && Start(f, 8) == 22
  {
    hide Start, U16, U32;
    var f := EndFields(count, size, offset);
    NextStart(f, 0);
    NextStart(f, 1);
    NextStart(f, 2);
    NextStart(f, 3);
    NextStart(f, 4);
    NextStart(f, 5);
    NextStart(f, 6);
    NextStart(f, 7);
  }

  lemma FieldWithin(bytes: Bytes, p: nat, fields: seq<Bytes>, i: nat)
    requires At(bytes, p, Flatten(fields)) && i < |fields|
    ensures At(bytes, p + Start(fields, i), fields[i])
  {
    FieldLies(fields, i);
    AtWithin(bytes, p, Flatten(fields), Start(fields, i), fields[i]);
  }

  lemma CentralLength(e: Entry, offset: nat)
    ensures |Central(e, offset)| == 46 + |e.path|
  {
    hide Start, Flatten, U16, U32, Checksum;
    CentralStarts(e, offset);
    FlattenLength(CentralFields(e, offset));
  }

  lemma LocalHeaderLength(e: Entry)
    ensures |Flatten(LocalFields(e))| == 30 + |e.path|
  {
    hide Start, Flatten, U16, U32, Checksum;
    LocalStarts(e);
    FlattenLength(LocalFields(e));
  }

  /** What the reader finds in a directory record the writer wrote. */
  lemma CentralReads(bytes: Bytes, ptr: nat, e: Entry, offset: nat)
    requires At(bytes, ptr, Central(e, offset)) && EntryFits(e) && offset < 0x1_0000_0000
    ensures ReadHeader(bytes, ptr) == Ok(Header(0, |e.content|, |e.path|, 0, 0, offset))
    ensures At(bytes, ptr + 46, e.path)
  {
    hide Start, Flatten, U16, U32, Checksum, Word16, Word32;
    var f := CentralFields(e, offset);
    CentralLength(e, offset);
    CentralStarts(e, offset);
    FieldWithin(bytes, ptr, f, 0);
    FieldWithin(bytes, ptr, f, 4);
    FieldWithin(bytes, ptr, f, 8);
    FieldWithin(bytes, ptr, f, 10);
    FieldWithin(bytes, ptr, f, 11);
    FieldWithin(bytes, ptr, f, 12);
    FieldWithin(bytes, ptr, f, 16);
    FieldWithin(bytes, ptr, f, 17);
    Read32(bytes, ptr, CENTRAL_SIGNATURE);
    Read16(bytes, ptr + 10, 0);
    Read32(bytes, ptr + 20, |e.content|);
    Read16(bytes, ptr + 28, |e.path|);
    Read16(bytes, ptr + 30, 0);
    Read16(bytes, ptr + 32, 0);
    Read32(bytes, ptr + 42, offset);
  }

  /** What the reader finds behind a local header the writer wrote. */
  lemma LocalReads(bytes: Bytes, e: Entry, offset: nat)
    requires At(bytes, offset, Local(e)) && EntryFits(e)
    ensures offset + 30 + |e.path| + |e.content| <= |bytes|
    ensures Word16(bytes, offset + 26) == |e.path| && Word16(bytes, offset + 28) == 0
    ensures At(bytes, offset + 30 + |e.path|, e.content)
  {
    hide Start, Flatten, U16, U32, Checksum, Word16, Word32;
    var f := LocalFields(e);
    AtSplit(bytes, offset, Flatten(f), e.content);
    LocalHeaderLength(e);
    LocalStarts(e);
    FieldWithin(bytes, offset, f, 9);
    FieldWithin(bytes, offset, f, 10);
    Read16(bytes, offset + 26, |e.path|);
    Read16(bytes, offset + 28, 0);
  }

  /** What a local header the writer wrote says to a reader that has only it. */
  lemma LocalTells(bytes: Bytes, e: Entry, offset: nat)
    requires At(bytes, offset, Local(e)) && EntryFits(e)
    ensures offset + 30 + |e.path| <= |bytes|
    ensures Word32(bytes, offset) == LOCAL_SIGNATURE && Word32(bytes, offset + 14) == Checksum(e.content)
    ensures Word32(bytes, offset + 18) == |e.content| && At(bytes, offset + 30, e.path)
  {
    hide Start, Flatten, U16, U32, Checksum, Word16, Word32;
    var f := LocalFields(e);
    AtSplit(bytes, offset, Flatten(f), e.content);
    LocalHeaderLength(e);
    LocalStarts(e);
    FieldWithin(bytes, offset, f, 0);
    FieldWithin(bytes, offset, f, 6);
    FieldWithin(bytes, offset, f, 7);
    FieldWithin(bytes, offset, f, 11);
    Read32(bytes, offset, LOCAL_SIGNATURE);
    Read32(bytes, offset + 14, Checksum(e.content));
    Read32(bytes, offset + 18, |e.content|);
  }

  lemma SubarrayOf(bytes: Bytes, p: nat, part: Bytes)
    requires At(bytes, p, part)
    ensures Subarray(bytes, p, p + |part|) == part
  {
  }

  /** One round of the walk recovers one entry and lands on the next record. */
  lemma EntryReads(bytes: Bytes, ptr: nat, e: Entry, offset: nat, inflate: Inflate)
    requires At(bytes, ptr, Central(e, offset)) && At(bytes, offset, Local(e))
    requires EntryFits(e) && offset < 0x1_0000_0000
    ensures ReadEntry(bytes, ptr, inflate) == Ok((e, ptr + |Central(e, offset)|))
  {
    hide Central, Local, ReadHeader, Word16, Word32, Subarray;
    CentralReads(bytes, ptr, e, offset);
    LocalReads(bytes, e, offset);
    CentralLength(e, offset);
    SubarrayOf(bytes, ptr + 46, e.path);
    SubarrayOf(bytes, offset + 30 + |e.path|, e.content);
  }

  lemma {:induction false} FollowReads(bytes: Bytes, entries: seq<Entry>, offset: nat, ptr: nat, n: nat,
          inflate: Inflate)
    requires n <= |entries|
    requires forall i :: 0 <= i < |entries| ==> EntryFits(entries[i])
    requires At(bytes, offset, Locals(entries)) && At(bytes, ptr, Directory(entries, offset))
    requires offset + |Locals(entries)| < 0x1_0000_0000
    ensures Follow(Reader(bytes, inflate), ptr, n) == Ok(Lists.Filter(IsFile, entries[..n]))
    decreases n
  {
    hide Central, Local, ReadEntry, IsFile, Read;
    if n != 0 {
      var e, rest := entries[0], entries[1..];
      AtSplit(bytes, offset, Local(e), Locals(rest));
      AtSplit(bytes, ptr, Central(e, offset), Directory(rest, offset + |Local(e)|));
      EntryReads(bytes, ptr, e, offset, inflate);
      FollowReads(bytes, rest, offset + |Local(e)|, ptr + |Central(e, offset)|, n - 1, inflate);
      Lists.PrefixCons(entries, n);
      FilterCons(e, rest[..n - 1]);
    }
  }

  lemma FilterCons(e: Entry, rest: seq<Entry>)
    ensures Lists.Filter(IsFile, [e] + rest) == (if IsFile(e) then [e] else []) + Lists.Filter(IsFile, rest)
  {
    assert ([e] + rest)[1..] == rest;
  }

  // ---- The end record --------------------------------------------------------------------

  lemma PartsLie(entries: seq<Entry>)
    ensures var zip := Archive(entries);
            At(zip, 0, Locals(entries)) && At(zip, |Locals(entries)|, Directory(entries, 0))
            && At(zip, |Locals(entries)| + |Directory(entries, 0)|, End(entries))
  {
    hide Locals, Directory, End;
    var zip := Archive(entries);
    assert zip[0..|zip|] == zip;
    AtSplit(zip, 0, Locals(entries) + Directory(entries, 0), End(entries));
    AtSplit(zip, 0, Locals(entries), Directory(entries, 0));
  }

  /** The backward scan stops at the true end record on its first probe, whatever
      the payloads hold. */
  lemma FirstProbeHits(entries: seq<Entry>)
    ensures var zip := Archive(entries);
            |zip| >= 22 && FindEnd(zip, |zip| - 22) == Some(|Locals(entries)| + |Directory(entries, 0)|)
            && |zip| - 22 == |Locals(entries)| + |Directory(entries, 0)|
            && Word16(zip, |zip| - 12) == Low16(|entries|)
            && Word32(zip, |zip| - 10) == Low32(|Directory(entries, 0)|)
            && Word32(zip, |zip| - 6) == Low32(|Locals(entries)|)
  {
    hide Locals, Directory, Flatten, Start, U16, U32, Word16, Word32;
    var zip := Archive(entries);
    var at := |Locals(entries)| + |Directory(entries, 0)|;
    var f := EndFields(|entries|, |Directory(entries, 0)|, |Locals(entries)|);
    PartsLie(entries);
    EndStarts(|entries|, |Directory(entries, 0)|, |Locals(entries)|);
    FlattenLength(f);
    FieldWithin(zip, at, f, 0);
    FieldWithin(zip, at, f, 4);
    FieldWithin(zip, at, f, 5);
    FieldWithin(zip, at, f, 6);
    Read32(zip, at, END_SIGNATURE);
    Read16(zip, at + 10, |entries|);
    Read32(zip, at + 12, |Directory(entries, 0)|);
    Read32(zip, at + 16, |Locals(entries)|);
  }

  // ---- Main results ----------------------------------------------------------------------

  /** Reading back what was written gives the files among the first entries, as
      many as the 16-bit count can tell. */
  lemma ReadsBack(entries: seq<Entry>, inflate: Inflate)
    requires Fits(entries)
    ensures Read(Archive(entries), inflate) == Ok(Lists.Filter(IsFile, entries[..Low16(|entries|)]))
  {
    hide Archive, Locals, Directory, FindEnd, Word16, Word32, At, Follow, Reader;
    var zip := Archive(entries);
    PartsLie(entries);
    FirstProbeHits(entries);
    FollowReads(zip, entries, 0, |Locals(entries)|, Low16(|entries|), inflate);
  }

  /** The round trip keeps every file exactly when the count did not wrap past one. */
  lemma RoundTrip(entries: seq<Entry>, inflate: Inflate)
    requires Fits(entries)
    ensures Read(Archive(entries), inflate) == Ok(Lists.Filter(IsFile, entries))
            <==> forall i :: Low16(|entries|) <= i < |entries| ==> !IsFile(entries[i])
    ensures |entries| < 0x1_0000 ==> Read(Archive(entries), inflate) == Ok(Lists.Filter(IsFile, entries))
  {
    hide Archive, Read, Fits, Low16, IsFile;
    ReadsBack(entries, inflate);
    PrefixKeepsFiles(entries, Low16(|entries|));
    assert entries[..|entries|] == entries;
  }

  function Empties(n: nat): seq<Entry> {
    seq(n, _ => Entry([], []))
  }

  lemma {:induction false} EmptiesAreSmall(n: nat)
    ensures |Locals(Empties(n))| == 30 * n
    decreases n
  {
    hide Local;
    if n != 0 {
      assert Empties(n)[1..] == Empties(n - 1);
      EmptyLocal();
      EmptiesAreSmall(n - 1);
    }
  }

  lemma EmptyLocal()
    ensures |Local(Entry([], []))| == 30
  {
    hide Flatten;
    LocalHeaderLength(Entry([], []));
  }

  /** One entry more than 16 bits count, and all files are lost. */
  lemma WrappedCountIsLost(inflate: Inflate)
    ensures var entries := Empties(0x1_0000);
            Fits(entries) && Read(Archive(entries), inflate) != Ok(Lists.Filter(IsFile, entries))
  {
    hide Read, Archive, Locals;
    var entries := Empties(0x1_0000);
    EmptiesAreSmall(0x1_0000);
    assert Low16(|entries|) == 0;
    assert IsFile(entries[0]);
    RoundTrip(entries, inflate);
  }

  lemma PrefixKeepsFiles(entries: seq<Entry>, k: nat)
    requires k <= |entries|
    ensures Lists.Filter(IsFile, entries[..k]) == Lists.Filter(IsFile, entries)
            <==> forall i :: k <= i < |entries| ==> !IsFile(entries[i])
  {
    hide IsFile, Lists.Filter;
    var kept, lost := entries[..k], entries[k..];
    assert kept + lost == entries;
    Lists.FilterConcat(IsFile, kept, lost);
    NoFilesFrom(entries, k);
    var files := Lists.Filter(IsFile, kept);
    assert files + [] == files;
    assert |files + Lists.Filter(IsFile, lost)| == |files| + |Lists.Filter(IsFile, lost)|;
  }

  lemma NoFilesFrom(entries: seq<Entry>, k: nat)
    requires k <= |entries|
    ensures Lists.Filter(IsFile, entries[k..]) == [] <==> forall i :: k <= i < |entries| ==> !IsFile(entries[i])
  {
    hide IsFile, Lists.Filter;
    var lost := entries[k..];
    Lists.FilterMembers(IsFile, lost);
    assert forall i :: k <= i < |entries| ==> entries[i] == lost[i - k];
    assert forall j :: 0 <= j < |lost| ==> lost[j] == entries[k + j];
  }

  lemma RecordsLie(entries: seq<Entry>, i: nat)
    requires i < |entries|
    ensures var zip := Archive(entries);
            var ptr := |Locals(entries)| + |Directory(entries[..i], 0)|;
            var offset := |Locals(entries[..i])|;
            At(zip, ptr, Central(entries[i], offset)) && At(zip, offset, Local(entries[i]))
            && offset <= |Locals(entries)|
  {
    hide Archive, Central, Local, At;
    var zip := Archive(entries);
    var e := entries[i];
    var offset := |Locals(entries[..i])|;
    PartsLie(entries);
    assert entries == entries[..i] + entries[i..];
    BodiesConcat(Local, entries[..i], entries[i..]);
    IndexConcat(Local, Central, entries[..i], entries[i..], 0);
    AtSplit(zip, 0, Locals(entries[..i]), Locals(entries[i..]));
    AtSplit(zip, offset, Local(e), Locals(entries[i..][1..]));
    var ptr := |Locals(entries)| + |Directory(entries[..i], 0)|;
    AtSplit(zip, |Locals(entries)|, Directory(entries[..i], 0), Directory(entries[i..], offset));
    AtSplit(zip, ptr, Central(e, offset), Directory(entries[i..][1..], offset + |Local(e)|));
  }

  /** What a reader that trusts only the format sees for the `i`-th entry: its
      directory record points at its own local header, and that carries the true
      checksum, size and name, with the content behind. */
  lemma RecordsAreTrue(entries: seq<Entry>, i: nat)
    requires Fits(entries) && i < |entries|
    ensures var zip := Archive(entries);
            var e := entries[i];
            var header := ReadHeader(zip, |Locals(entries)| + |Directory(entries[..i], 0)|);
            && header == Ok(Header(0, |e.content|, |e.path|, 0, 0, |Locals(entries[..i])|))
            && var offset := header.value.localOffset;
            && offset + 30 + |e.path| + |e.content| <= |zip|
            && Word32(zip, offset) == LOCAL_SIGNATURE
            && Word32(zip, offset + 14) == Checksum(e.content)
            && zip[offset + 30..offset + 30 + |e.path|] == e.path
            && zip[offset + 30 + |e.path|..offset + 30 + |e.path| + |e.content|] == e.content
  {
    hide Archive, Central, Local, ReadHeader, Locals, Directory, Word32, Checksum;
    var zip := Archive(entries);
    var e := entries[i];
    var offset := |Locals(entries[..i])|;
    RecordsLie(entries, i);
    CentralReads(zip, |Locals(entries)| + |Directory(entries[..i], 0)|, e, offset);
    LocalReads(zip, e, offset);
    LocalTells(zip, e, offset);
  }

  // ---- Every field, byte by byte where the order of bytes shows ------------------------------

  /** `text` stands in the archive at `p`. */
  ghost predicate Reads(zip: Bytes, p: nat, text: Bytes) {
    p + |text| <= |zip| && zip[p..p + |text|] == text
  }

  ghost predicate Says16(zip: Bytes, p: nat, n: nat) {
    p + 2 <= |zip| && Word16(zip, p) == n
  }

  ghost predicate Says32(zip: Bytes, p: nat, n: nat) {
    p + 4 <= |zip| && Word32(zip, p) == n
  }

  /** The local file header of section 4.3.7: version 2.0, names in UTF-8, stored, no
      date, no extra field. */
  ghost predicate LocalHeaderIs(zip: Bytes, p: nat, e: Entry) {
    && Reads(zip, p, [0x50, 0x4b, 0x03, 0x04]) && Says16(zip, p + 4, 20) && Reads(zip, p + 6, [0x00, 0x08])
    && Says16(zip, p + 8, 0) && Says16(zip, p + 10, 0) && Says16(zip, p + 12, 0)
    && Says32(zip, p + 14, Checksum(e.content)) && Says32(zip, p + 18, |e.content|) && Says32(zip, p + 22, |e.content|)
    && Says16(zip, p + 26, |e.path|) && Says16(zip, p + 28, 0) && Reads(zip, p + 30, e.path)
    && Reads(zip, p + 30 + |e.path|, e.content)
  }

  /** The central directory header of section 4.3.12, for a file whose local header
      stands at `offset`. */
  ghost predicate CentralHeaderIs(zip: Bytes, p: nat, e: Entry, offset: nat) {
    && StoredHere(zip, p)
    && Says32(zip, p + 16, Checksum(e.content)) && Says32(zip, p + 20, |e.content|) && Says32(zip, p + 24, |e.content|)
    && Says16(zip, p + 28, |e.path|) && Says16(zip, p + 30, 0) && Says16(zip, p + 32, 0) && Says16(zip, p + 34, 0)
    && Says16(zip, p + 36, 0) && Says32(zip, p + 38, 0) && Says32(zip, p + 42, offset) && Reads(zip, p + 46, e.path)
  }

  /** How such a header begins: made by and needing version 2.0, names in UTF-8,
      stored, no date. */
  ghost predicate StoredHere(zip: Bytes, p: nat) {
    && Reads(zip, p, [0x50, 0x4b, 0x01, 0x02]) && Says16(zip, p + 4, 20) && Says16(zip, p + 6, 20)
    && Reads(zip, p + 8, [0x00, 0x08]) && Says16(zip, p + 10, 0) && Says16(zip, p + 12, 0) && Says16(zip, p + 14, 0)
  }

  /** The end record of section 4.3.16, of one disk and without a comment. */
  ghost predicate EndRecordIs(zip: Bytes, p: nat, count: nat, size: nat, offset: nat) {
    && Reads(zip, p, [0x50, 0x4b, 0x05, 0x06]) && Says16(zip, p + 4, 0) && Says16(zip, p + 6, 0)
    && Says16(zip, p + 8, Low16(count)) && Says16(zip, p + 10, Low16(count)) && Says32(zip, p + 12, Low32(size))
    && Says32(zip, p + 16, Low32(offset)) && Says16(zip, p + 20, 0) && |zip| == p + 22
  }

  lemma SignatureBytes()
    ensures U32(LOCAL_SIGNATURE) == [0x50, 0x4b, 0x03, 0x04] && U32(CENTRAL_SIGNATURE) == [0x50, 0x4b, 0x01, 0x02]
    ensures U32(END_SIGNATURE) == [0x50, 0x4b, 0x05, 0x06] && U16(FLAG_UTF8) == [0x00, 0x08]
  {
    hide ByteOf;
    BytesOf(LOCAL_SIGNATURE, 0x50, 0x4b, 0x03, 0x04);
    BytesOf(CENTRAL_SIGNATURE, 0x50, 0x4b, 0x01, 0x02);
    BytesOf(END_SIGNATURE, 0x50, 0x4b, 0x05, 0x06);
    BytesOf(FLAG_UTF8, 0x00, 0x08, 0x00, 0x00);
  }

  /** A number's bytes, the lowest first. */
  lemma BytesOf(n: nat, a: Octet, b: Octet, c: Octet, d: Octet)
    requires n == a as int + 0x100 * (b as int + 0x100 * (c as int + 0x100 * d as int))
    ensures ByteOf(n) == a && ByteOf(n / 0x100) == b && ByteOf(n / 0x1_0000) == c && ByteOf(n / 0x100_0000) == d
  {
    var m := b as int + 0x100 * (c as int + 0x100 * d as int);
    var l := c as int + 0x100 * d as int;
    assert n / 0x100 == m && m / 0x100 == l && l / 0x100 == d as int;
    assert n / 0x1_0000 == l && n / 0x100_0000 == d as int;
  }

  lemma Field16(zip: Bytes, p: nat, fields: seq<Bytes>, i: nat, n: nat)
    requires At(zip, p, Flatten(fields)) && i < |fields| && fields[i] == U16(n)
    ensures Says16(zip, p + Start(fields, i), Low16(n)) && Reads(zip, p + Start(fields, i), U16(n))
  {
    hide Start, Flatten, U16;
    FieldWithin(zip, p, fields, i);
    Read16(zip, p + Start(fields, i), n);
  }

  lemma Field32(zip: Bytes, p: nat, fields: seq<Bytes>, i: nat, n: nat)
    requires At(zip, p, Flatten(fields)) && i < |fields| && fields[i] == U32(n)
    ensures Says32(zip, p + Start(fields, i), Low32(n)) && Reads(zip, p + Start(fields, i), U32(n))
  {
    hide Start, Flatten, U32;
    FieldWithin(zip, p, fields, i);
    Read32(zip, p + Start(fields, i), n);
  }

  lemma LocalHeaderTells(zip: Bytes, p: nat, e: Entry)
    requires At(zip, p, Local(e)) && EntryFits(e)
    ensures LocalHeaderIs(zip, p, e)
  {
    hide Start, Flatten, U16, U32, Checksum, Says16, Says32;
    var f := LocalFields(e);
    AtSplit(zip, p, Flatten(f), e.content);
    LocalHeaderLength(e);
    LocalStarts(e);
    SignatureBytes();
    Field32(zip, p, f, 0, LOCAL_SIGNATURE);
    Field16(zip, p, f, 1, 20);
    Field16(zip, p, f, 2, FLAG_UTF8);
    Field16(zip, p, f, 3, 0);
    Field16(zip, p, f, 4, 0);
    Field16(zip, p, f, 5, 0);
    Field32(zip, p, f, 6, Checksum(e.content));
    Field32(zip, p, f, 7, |e.content|);
    Field32(zip, p, f, 8, |e.content|);
    Field16(zip, p, f, 9, |e.path|);
    Field16(zip, p, f, 10, 0);
    FieldWithin(zip, p, f, 11);
  }

  lemma CentralHeaderBegins(zip: Bytes, p: nat, e: Entry, offset: nat)
    requires At(zip, p, Central(e, offset))
    ensures StoredHere(zip, p)
  {
    hide Start, Flatten, U16, U32, Checksum, Says16, Says32;
    var f := CentralFields(e, offset);
    CentralStarts(e, offset);
    SignatureBytes();
    Field32(zip, p, f, 0, CENTRAL_SIGNATURE);
    Field16(zip, p, f, 1, 20);
    Field16(zip, p, f, 2, 20);
    Field16(zip, p, f, 3, FLAG_UTF8);
    Field16(zip, p, f, 4, 0);
    Field16(zip, p, f, 5, 0);
    Field16(zip, p, f, 6, 0);
  }

  lemma CentralHeaderTells(zip: Bytes, p: nat, e: Entry, offset: nat)
    requires At(zip, p, Central(e, offset)) && EntryFits(e) && offset < 0x1_0000_0000
    ensures CentralHeaderIs(zip, p, e, offset)
  {
    hide Start, Flatten, U16, U32, Checksum, Says16, Says32, StoredHere;
    var f := CentralFields(e, offset);
    CentralStarts(e, offset);
    CentralHeaderBegins(zip, p, e, offset);
    Field32(zip, p, f, 7, Checksum(e.content));
    Field32(zip, p, f, 8, |e.content|);
    Field32(zip, p, f, 9, |e.content|);
    Field16(zip, p, f, 10, |e.path|);
    Field16(zip, p, f, 11, 0);
    Field16(zip, p, f, 12, 0);
    Field16(zip, p, f, 13, 0);
    Field16(zip, p, f, 14, 0);
    Field32(zip, p, f, 15, 0);
    Field32(zip, p, f, 16, offset);
    FieldWithin(zip, p, f, 17);
  }

  lemma EndRecordTells(entries: seq<Entry>)
    ensures var zip := Archive(entries);
            && |zip| >= 22
            && EndRecordIs(zip, |zip| - 22, |entries|, |Directory(entries, 0)|, |Locals(entries)|)
  {
    hide Locals, Directory, Flatten, Start, U16, U32, Says16, Says32;
    var zip := Archive(entries);
    var p := |Locals(entries)| + |Directory(entries, 0)|;
    var f := EndFields(|entries|, |Directory(entries, 0)|, |Locals(entries)|);
    PartsLie(entries);
    EndStarts(|entries|, |Directory(entries, 0)|, |Locals(entries)|);
    FlattenLength(f);
    SignatureBytes();
    Field32(zip, p, f, 0, END_SIGNATURE);
    Field16(zip, p, f, 1, 0);
    Field16(zip, p, f, 2, 0);
    Field16(zip, p, f, 3, |entries|);
    Field16(zip, p, f, 4, |entries|);
    Field32(zip, p, f, 5, |Directory(entries, 0)|);
    Field32(zip, p, f, 6, |Locals(entries)|);
    Field16(zip, p, f, 7, 0);
  }

  /** The checksum the headers carry, bit by bit the complemented remainder that long
      division of the content's bytes leaves. */
  lemma ChecksumIsLongDivision(content: Bytes)
    ensures Crc.LowBits(Checksum(content) as bv32, 32)
         == Crc.Complement(Crc.Remainder(Crc.Dividend(
              seq(|content|, i requires 0 <= i < |content| => content[i] as bv8))))
  {
    hide Crc.LowBits, Crc.Remainder, Crc.Dividend, Crc.Crc;
    NumberBack(Crc.Crc(AsBits(content)));
    Crc.CrcIsLongDivision(AsBits(content));
  }

  /** Every field of every header the writer leaves: each file's two headers say the
      same true things of it, and the directory's points at the file's own. */
  lemma HeadersAreTrue(entries: seq<Entry>, i: nat)
    requires Fits(entries) && i < |entries|
    ensures var zip := Archive(entries);
            var offset := |Locals(entries[..i])|;
            && CentralHeaderIs(zip, |Locals(entries)| + |Directory(entries[..i], 0)|, entries[i], offset)
            && LocalHeaderIs(zip, offset, entries[i])
  {
    hide Archive, Central, Local, Locals, Directory, At;
    RecordsLie(entries, i);
    var offset := |Locals(entries[..i])|;
    CentralHeaderTells(Archive(entries), |Locals(entries)| + |Directory(entries[..i], 0)|, entries[i], offset);
    LocalHeaderTells(Archive(entries), offset, entries[i]);
  }

  /** An archive of one entry reads back as that entry, or, when its path ends in a
      slash, as no file at all. */
  lemma OneEntryReadsBack(e: Entry, inflate: Inflate)
    requires EntryFits(e) && 30 + |e.path| + |e.content| < 0x1_0000_0000
    ensures Read(Archive([e]), inflate) == Ok(if e.path != [] && e.path[|e.path| - 1] == 0x2f then [] else [e])
  {
    hide Read, Archive, Flatten, Checksum, LocalFields, Low16;
    LocalHeaderLength(e);
    BodiesSnoc(Local, [e], 0);
    assert [e][..1] == [e] && [e][..0] == [];
    RoundTrip([e], inflate);
    assert [e] + [] == [e];
    FilterCons(e, []);
  }
}

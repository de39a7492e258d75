/** What the reader of apps/web/lib/unzip.ts makes of an archive that any tool may
    have written: extra fields, comments, compressed members, members in any place,
    a comment behind the end record. */
module ZipForeign {
  import opened Outcomes
  import opened Octets
  import opened Zip
  import opened ZipRoundTrip
  import Lists

  /** One member as another tool wrote it. What the reader has no use for is any
      bytes of the right length: `versions` of both headers and the flags, `stamps`
      (date, time, checksum), `size` (uncompressed), `attributes`, and `front`, all of
      the local header before its two lengths. */
  datatype Member = Member(path: Bytes, compression: nat, payload: Bytes, offset: nat, extra: Bytes, comment: Bytes,
                           localName: Bytes, localExtra: Bytes, versions: Bytes, stamps: Bytes, size: Bytes,
                           attributes: Bytes, front: Bytes)

  predicate MemberFits(m: Member) {
    && m.compression < 0x1_0000 && |m.path| < 0x1_0000 && |m.extra| < 0x1_0000 && |m.comment| < 0x1_0000
    && |m.localName| < 0x1_0000 && |m.localExtra| < 0x1_0000
    && |m.payload| < 0x1_0000_0000 && m.offset < 0x1_0000_0000
    && |m.versions| == 6 && |m.stamps| == 8 && |m.size| == 4 && |m.attributes| == 8 && |m.front| == 26
  }

  /** Section 4.3.12. */
  function RecordFields(m: Member): seq<Bytes> {
    [U32(CENTRAL_SIGNATURE), m.versions, U16(m.compression), m.stamps, U32(|m.payload|), m.size, U16(|m.path|),
     U16(|m.extra|), U16(|m.comment|), m.attributes, U32(m.offset), m.path, m.extra, m.comment]
  }

  /** Section 4.3.7; the local name and extra field may differ from the directory's. */
  function MemberFields(m: Member): seq<Bytes> {
    [m.front, U16(|m.localName|), U16(|m.localExtra|), m.localName, m.localExtra, m.payload]
  }

  lemma RecordStarts(m: Member)
    requires MemberFits(m)
    ensures var f := RecordFields(m);
            |f| == 14 && Start(f, 0) == 0 && Start(f, 2) == 10 && Start(f, 4) == 20 && Start(f, 6) == 28
            && Start(f, 7) == 30 && Start(f, 8) == 32 && Start(f, 10) == 42 && Start(f, 11) == 46
            && Start(f, 14) == 46 + |m.path| + |m.extra| + |m.comment|
  {
    hide Start, U16, U32;
    var f := RecordFields(m);
    NextStart(f, 0);
    NextStart(f, 1);
    NextStart(f, 2);
    NextStart(f, 3);
    NextStart(f, 4);
    NextStart(f, 5);
    NextStart(f, 6);
    NextStart(f, 7);
    NextStart(f, 8);
    NextStart(f, 9);
    NextStart(f, 10);
    NextStart(f, 11);
    NextStart(f, 12);
    NextStart(f, 13);
  }

  lemma MemberStarts(m: Member)
    requires MemberFits(m)
    ensures var f := MemberFields(m);
            Start(f, 0) == 0 && Start(f, 1) == 26 && Start(f, 2) == 28
            && Start(f, 5) == 30 + |m.localName| + |m.localExtra|
            && Start(f, 6) == 30 + |m.localName| + |m.localExtra| + |m.payload|
  {
    hide Start, U16, U32;
    var f := MemberFields(m);
    NextStart(f, 0);
    NextStart(f, 1);
    NextStart(f, 2);
    NextStart(f, 3);
    NextStart(f, 4);
    NextStart(f, 5);
  }

  lemma RecordReads(bytes: Bytes, ptr: nat, m: Member)
    requires MemberFits(m) && At(bytes, ptr, Flatten(RecordFields(m)))
    ensures ReadHeader(bytes, ptr)
         == Ok(Header(m.compression, |m.payload|, |m.path|, |m.extra|, |m.comment|, m.offset))
    ensures At(bytes, ptr + 46, m.path)
  {
    hide Start, Flatten, U16, U32, Word16, Word32;
    var f := RecordFields(m);
    RecordStarts(m);
    FlattenLength(f);
    FieldWithin(bytes, ptr, f, 0);
    FieldWithin(bytes, ptr, f, 2);
    FieldWithin(bytes, ptr, f, 4);
    FieldWithin(bytes, ptr, f, 6);
    FieldWithin(bytes, ptr, f, 7);
    FieldWithin(bytes, ptr, f, 8);
    FieldWithin(bytes, ptr, f, 10);
    FieldWithin(bytes, ptr, f, 11);
    Read32(bytes, ptr, CENTRAL_SIGNATURE);
    Read16(bytes, ptr + 10, m.compression);
    Read32(bytes, ptr + 20, |m.payload|);
    Read16(bytes, ptr + 28, |m.path|);
    Read16(bytes, ptr + 30, |m.extra|);
    Read16(bytes, ptr + 32, |m.comment|);
    Read32(bytes, ptr + 42, m.offset);
  }

  lemma MemberReads(bytes: Bytes, m: Member, header: Header)
    requires MemberFits(m) && At(bytes, m.offset, Flatten(MemberFields(m)))
    requires header.localOffset == m.offset && header.compSize == |m.payload|
    ensures ReadPayload(bytes, header) == Ok(m.payload)
  {
    hide Start, Flatten, U16, U32, Word16, Word32, Subarray;
    var f := MemberFields(m);
    MemberStarts(m);
    FlattenLength(f);
    FieldWithin(bytes, m.offset, f, 1);
    FieldWithin(bytes, m.offset, f, 2);
    FieldWithin(bytes, m.offset, f, 5);
    Read16(bytes, m.offset + 26, |m.localName|);
    Read16(bytes, m.offset + 28, |m.localExtra|);
    SubarrayOf(bytes, m.offset + 30 + |m.localName| + |m.localExtra|, m.payload);
  }

  /** The directory's records stand one behind the other from `ptr` on, and each
      member where its record says. */
  ghost predicate Laid(bytes: Bytes, ptr: nat, members: seq<Member>)
    decreases |members|
  {
    members == [] ||
    var m := members[0];
    && MemberFits(m) && At(bytes, ptr, Flatten(RecordFields(m))) && At(bytes, m.offset, Flatten(MemberFields(m)))
    && Laid(bytes, ptr + |Flatten(RecordFields(m))|, members[1..])
  }

  /** What a member holds: its payload as it stands when stored, else inflated. */
  function Contents(m: Member, inflate: Inflate): Option<Bytes> {
    if m.compression == 0 then Some(m.payload) else inflate(m.payload)
  }

  predicate EndsInSlash(path: Bytes) {
    path != [] && path[|path| - 1] == 0x2f
  }

  /** The files among the members, in order; the first that does not inflate spoils all. */
  function FilesOf(members: seq<Member>, inflate: Inflate): Result<seq<Entry>, Failure>
    decreases |members|
  {
    if members == [] then Ok([])
    else
      match Contents(members[0], inflate)
      case None => Err(BadDeflate)
      case Some(raw) =>
        match FilesOf(members[1..], inflate)
        case Err(failure) => Err(failure)
        case Ok(rest) => Ok(if EndsInSlash(members[0].path) then rest else [Entry(members[0].path, raw)] + rest)
  }

  lemma RoundReads(bytes: Bytes, ptr: nat, m: Member, inflate: Inflate)
    requires MemberFits(m)
    requires At(bytes, ptr, Flatten(RecordFields(m))) && At(bytes, m.offset, Flatten(MemberFields(m)))
    ensures ReadEntry(bytes, ptr, inflate) ==
            match Contents(m, inflate)
            case None => Err(BadDeflate)
            case Some(raw) => Ok((Entry(m.path, raw), ptr + |Flatten(RecordFields(m))|))
  {
    hide Start, Flatten, ReadHeader, ReadPayload, RecordFields, MemberFields, Subarray;
    RecordReads(bytes, ptr, m);
    MemberReads(bytes, m, Header(m.compression, |m.payload|, |m.path|, |m.extra|, |m.comment|, m.offset));
    SubarrayOf(bytes, ptr + 46, m.path);
    RecordStarts(m);
    FlattenLength(RecordFields(m));
  }

  lemma {:induction false} DirectoryReads(bytes: Bytes, ptr: nat, members: seq<Member>, inflate: Inflate)
    requires Laid(bytes, ptr, members)
    ensures Follow(Reader(bytes, inflate), ptr, |members|) == FilesOf(members, inflate)
    decreases |members|
  {
    hide ReadEntry, RecordFields, MemberFields, Flatten, Contents;
    if members != [] {
      RoundReads(bytes, ptr, members[0], inflate);
      if Contents(members[0], inflate).Some? {
        DirectoryReads(bytes, ptr + |Flatten(RecordFields(members[0]))|, members[1..], inflate);
        FilesUnfold(members, inflate);
      }
    }
  }

  lemma FilesUnfold(members: seq<Member>, inflate: Inflate)
    requires members != [] && Contents(members[0], inflate).Some?
    ensures var e := Entry(members[0].path, Contents(members[0], inflate).value);
            FilesOf(members, inflate) == Prepend(if IsFile(e) then [e] else [], FilesOf(members[1..], inflate))
  {
    PrependNothing(FilesOf(members[1..], inflate));
  }

  // ---- The end record ------------------------------------------------------------------

  /** The end record's signature stands at `p`. */
  ghost predicate EndsAt(bytes: Bytes, p: nat) {
    Reads(bytes, p, [0x50, 0x4b, 0x05, 0x06])
  }

  lemma WordIsSignature(bytes: Bytes, p: nat)
    requires p + 4 <= |bytes|
    ensures Word32(bytes, p) == END_SIGNATURE <==> EndsAt(bytes, p)
  {
    var word := bytes[p..p + 4];
    assert word[0] == bytes[p] && word[1] == bytes[p + 1] && word[2] == bytes[p + 2] && word[3] == bytes[p + 3];
    DigitsOf(bytes[p], bytes[p + 1], bytes[p + 2], bytes[p + 3]);
  }

  lemma DigitsOf(a: Octet, b: Octet, c: Octet, d: Octet)
    ensures a as int + 0x100 * b as int + 0x1_0000 * c as int + 0x100_0000 * d as int == END_SIGNATURE
            <==> a == 0x50 && b == 0x4b && c == 0x05 && d == 0x06
  {
  }

  lemma FoundIs(bytes: Bytes, end: nat)
    requires end + 22 <= |bytes| && EndsAt(bytes, end)
    requires forall p :: end < p <= |bytes| - 22 ==> !EndsAt(bytes, p)
    ensures FindEnd(bytes, |bytes| - 22) == Some(end)
  {
    hide EndsAt, FindEnd, Word32;
    EndIsLast(bytes, |bytes| - 22);
    WordIsSignature(bytes, end);
    var found := FindEnd(bytes, |bytes| - 22);
    assert found.Some?;
    WordIsSignature(bytes, found.value);
  }

  // ---- Main results ----------------------------------------------------------------------

  /** Whoever wrote the archive, reading it gives its files, stored ones as they stand
      and the others inflated, as the directory of the last end record lists them. */
  lemma ForeignReads(bytes: Bytes, end: nat, start: nat, members: seq<Member>, inflate: Inflate)
    requires end + 22 <= |bytes| && EndsAt(bytes, end)
    requires forall p :: end < p <= |bytes| - 22 ==> !EndsAt(bytes, p)
    requires At(bytes, end + 10, U16(|members|)) && At(bytes, end + 16, U32(start))
    requires |members| < 0x1_0000 && start < 0x1_0000_0000 && Laid(bytes, start, members)
    ensures Read(bytes, inflate) == FilesOf(members, inflate)
  {
    hide FindEnd, EndsAt, Word16, Word32, Follow, FilesOf, Laid;
    FoundIs(bytes, end);
    Read16(bytes, end + 10, |members|);
    Read32(bytes, end + 16, start);
    DirectoryReads(bytes, start, members, inflate);
  }

  lemma {:induction false} WalkFailsOtherwise(bytes: Bytes, ptr: nat, n: nat, inflate: Inflate)
    ensures Follow(Reader(bytes, inflate), ptr, n) != Err(NotZip)
    decreases n
  {
    hide Word16, Word32;
    if n != 0 {
      match ReadEntry(bytes, ptr, inflate) {
        case Err(_) =>
        case Ok((_, next)) => WalkFailsOtherwise(bytes, next, n - 1, inflate);
      }
    }
  }

  /** Bytes are no archive exactly when no end record's signature stands 22 bytes or
      more before their end. */
  lemma NotZipExactly(bytes: Bytes, inflate: Inflate)
    ensures Read(bytes, inflate) == Err(NotZip) <==> forall p :: 0 <= p <= |bytes| - 22 ==> !EndsAt(bytes, p)
  {
    hide FindEnd, Word16, Word32, Follow, Reader, EndsAt;
    if |bytes| >= 4 {
      EndIsLast(bytes, |bytes| - 22);
    }
    forall p | 0 <= p <= |bytes| - 22 ensures Word32(bytes, p) == END_SIGNATURE <==> EndsAt(bytes, p) {
      WordIsSignature(bytes, p);
    }
    var found := FindEnd(bytes, |bytes| - 22);
    if found.Some? {
      WalkFailsOtherwise(bytes, Word32(bytes, found.value + 16), Word16(bytes, found.value + 10), inflate);
    }
  }

  /** A directory record without its signature is an error, not a file. */
  lemma BadHeaderIsTold(bytes: Bytes, ptr: nat, inflate: Inflate)
    ensures ReadEntry(bytes, ptr, inflate) == Err(BadHeader)
            <==> ptr + 4 <= |bytes| && bytes[ptr..ptr + 4] != [0x50, 0x4b, 0x01, 0x02]
  {
    hide Word16;
    if ptr + 4 <= |bytes| {
      var word := bytes[ptr..ptr + 4];
      assert word[0] == bytes[ptr] && word[1] == bytes[ptr + 1] && word[2] == bytes[ptr + 2]
          && word[3] == bytes[ptr + 3];
    }
  }
}

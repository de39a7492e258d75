/** The ZIP writer and reader of apps/web/lib/zip.ts and apps/web/lib/unzip.ts,
    on bytes (sections 4.3.7, 4.3.12 and 4.3.16 of the ZIP APPNOTE). */
module Zip {
  import opened Outcomes
  import opened Crc32
  import opened Octets
  import Lists

  datatype Entry = Entry(path: Bytes, content: Bytes)

  datatype Failure = NotZip | BadHeader | OutOfRange | BadDeflate

  const LOCAL_SIGNATURE := 0x0403_4b50
  const CENTRAL_SIGNATURE := 0x0201_4b50
  const END_SIGNATURE := 0x0605_4b50
  const FLAG_UTF8 := 0x0800
  const SLASH: Octet := 0x2f

  // ---- Little-endian fields ----------------------------------------------------------

  /** What 16 and 32 bits keep of a number. */
  function Low16(n: nat): (low: nat)
    ensures low < 0x1_0000 && low <= n
    ensures n < 0x1_0000 ==> low == n
  {
    n % 0x1_0000
  }

  function Low32(n: nat): (low: nat)
    ensures low < 0x1_0000_0000 && low <= n
    ensures n < 0x1_0000_0000 ==> low == n
  {
    n % 0x1_0000_0000
  }

  function ByteOf(n: nat): Octet {
    n % 0x100
  }

  function U16(n: nat): (field: Bytes)
    ensures |field| == 2
  {
    [ByteOf(n), ByteOf(n / 0x100)]
  }

  function U32(n: nat): (field: Bytes)
    ensures |field| == 4
  {
    [ByteOf(n), ByteOf(n / 0x100), ByteOf(n / 0x1_0000), ByteOf(n / 0x100_0000)]
  }

  function Word16(bytes: Bytes, p: nat): nat
    requires p + 2 <= |bytes|
  {
    bytes[p] as int + 0x100 * bytes[p + 1] as int
  }

  function Word32(bytes: Bytes, p: nat): nat
    requires p + 4 <= |bytes|
  {
    bytes[p] as int + 0x100 * bytes[p + 1] as int + 0x1_0000 * bytes[p + 2] as int + 0x100_0000 * bytes[p + 3] as int
  }

  /** `part` lies in `whole` from `p` on. */
  ghost predicate At(whole: Bytes, p: nat, part: Bytes) {
    p + |part| <= |whole| && whole[p..p + |part|] == part
  }

  lemma AtSplit(whole: Bytes, p: nat, a: Bytes, b: Bytes)
    requires At(whole, p, a + b)
    ensures At(whole, p, a) && At(whole, p + |a|, b)
  {
    assert whole[p..p + |a|] == (a + b)[..|a|];
    assert whole[p + |a|..p + |a| + |b|] == (a + b)[|a|..];
  }

  lemma AtWithin(whole: Bytes, p: nat, part: Bytes, q: nat, inner: Bytes)
    requires At(whole, p, part) && At(part, q, inner)
    ensures At(whole, p + q, inner)
  {
    var window := whole[p..p + |part|];
    forall k | 0 <= k < |inner| ensures whole[p + q..p + q + |inner|][k] == inner[k] {
      assert whole[p + q + k] == window[q + k] == part[q..q + |inner|][k];
    }
  }

  lemma Read16(bytes: Bytes, p: nat, n: nat)
    requires At(bytes, p, U16(n))
    ensures Word16(bytes, p) == Low16(n)
  {
    var field := bytes[p..p + 2];
    assert bytes[p] == field[0] && bytes[p + 1] == field[1];
    TwoBytes(n);
  }

  lemma Read32(bytes: Bytes, p: nat, n: nat)
    requires At(bytes, p, U32(n))
    ensures Word32(bytes, p) == Low32(n)
  {
    var field := bytes[p..p + 4];
    assert bytes[p] == field[0] && bytes[p + 1] == field[1] && bytes[p + 2] == field[2] && bytes[p + 3] == field[3];
    FourBytes(n);
  }

  lemma FourBytes(n: nat)
    ensures n % 0x100 + 0x100 * (n / 0x100 % 0x100) + 0x1_0000 * (n / 0x1_0000 % 0x100)
            + 0x100_0000 * (n / 0x100_0000 % 0x100) == n % 0x1_0000_0000
  {
    TwoBytes(n);
    TwoBytes(n / 0x1_0000);
    TwoWords(n);
  }

  lemma TwoWords(n: nat)
    ensures n % 0x1_0000 + 0x1_0000 * (n / 0x1_0000 % 0x1_0000) == n % 0x1_0000_0000
    ensures n / 0x1_0000 / 0x100 == n / 0x100_0000
  {
  }

  lemma TwoBytes(n: nat)
    ensures n % 0x100 + 0x100 * (n / 0x100 % 0x100) == n % 0x1_0000
  {
    var a, r := n / 0x1_0000, n % 0x1_0000;
    ByteUp(a, r);
    LowByteStays(a, r);
    HighByteStays(a, r / 0x100);
  }

  lemma ByteUp(a: nat, r: nat)
    requires r < 0x1_0000
    ensures (0x1_0000 * a + r) / 0x100 == 0x100 * a + r / 0x100
  {
  }

  lemma LowByteStays(a: nat, r: nat)
    requires r < 0x1_0000
    ensures (0x1_0000 * a + r) % 0x100 == r % 0x100
  {
  }

  lemma HighByteStays(a: nat, b: nat)
    requires b < 0x100
    ensures (0x100 * a + b) % 0x100 == b
  {
  }

  // ---- Concatenation -----------------------------------------------------------------

  function Flatten(chunks: seq<Bytes>): Bytes
    decreases |chunks|
  {
    if chunks == [] then [] else chunks[0] + Flatten(chunks[1..])
  }

  lemma {:induction false} FlattenConcat(a: seq<Bytes>, b: seq<Bytes>)
    ensures Flatten(a + b) == Flatten(a) + Flatten(b)
    decreases |a|
  {
    if a == [] {
      assert a + b == b;
    } else {
      assert (a + b)[1..] == a[1..] + b;
      FlattenConcat(a[1..], b);
    }
  }

  /** Where the `i`-th field starts. */
  function Start(fields: seq<Bytes>, i: nat): nat
    requires i <= |fields|
    decreases i
  {
    if i == 0 then 0 else Start(fields, i - 1) + |fields[i - 1]|
  }

  lemma {:induction false} StartOfTail(fields: seq<Bytes>, i: nat)
    requires 0 < i <= |fields|
    ensures Start(fields, i) == |fields[0]| + Start(fields[1..], i - 1)
    decreases i
  {
    if i != 1 {
      StartOfTail(fields, i - 1);
    }
  }

  lemma {:induction false} FieldLies(fields: seq<Bytes>, i: nat)
    requires i < |fields|
    ensures At(Flatten(fields), Start(fields, i), fields[i])
    decreases i
  {
    if i != 0 {
      FieldLies(fields[1..], i - 1);
      StartOfTail(fields, i);
      assert At(Flatten(fields), |fields[0]|, Flatten(fields[1..]));
      AtWithin(Flatten(fields), |fields[0]|, Flatten(fields[1..]), Start(fields[1..], i - 1), fields[i]);
    }
  }

  lemma {:induction false} FlattenLength(fields: seq<Bytes>)
    ensures |Flatten(fields)| == Start(fields, |fields|)
    decreases |fields|
  {
    if fields != [] {
      FlattenLength(fields[1..]);
      StartOfTail(fields, |fields|);
    }
  }

  lemma {:induction false} FlattenSnoc(chunks: seq<Bytes>, i: nat)
    requires i < |chunks|
    ensures Flatten(chunks[..i + 1]) == Flatten(chunks[..i]) + chunks[i]
  {
    assert chunks[..i + 1] == chunks[..i] + [chunks[i]];
    FlattenConcat(chunks[..i], [chunks[i]]);
    OneChunk(chunks[i]);
  }

  lemma PrefixFits(chunks: seq<Bytes>, i: nat)
    requires i <= |chunks|
    ensures |Flatten(chunks[..i])| <= |Flatten(chunks)|
  {
    assert chunks == chunks[..i] + chunks[i..];
    FlattenConcat(chunks[..i], chunks[i..]);
  }

  /** Copies a chunk into the array from `offset` on, and nothing else. */
  method Set(out: array<Octet>, chunk: Bytes, offset: nat)
    requires offset + |chunk| <= out.Length
    modifies out
    ensures out[..offset] == old(out[..offset])
    ensures out[offset..offset + |chunk|] == chunk
    ensures out[offset + |chunk|..] == old(out[offset + |chunk|..])
  {
    forall k | 0 <= k < |chunk| {
      out[offset + k] := chunk[k];
    }
  }

  /** One allocation of the total length, then each chunk copied in place. */
  method Concat(chunks: seq<Bytes>) returns (bytes: Bytes)
    ensures bytes == Flatten(chunks)
  {
    var total := 0;
    for i := 0 to |chunks|
      invariant total == |Flatten(chunks[..i])|
    {
      FlattenSnoc(chunks, i);
      total := total + |chunks[i]|;
    }
    assert chunks[..|chunks|] == chunks;
    var out := new Octet[total](_ => 0);
    var offset := 0;
    for i := 0 to |chunks|
      invariant 0 <= offset <= total
      invariant out[..offset] == Flatten(chunks[..i])
    {
      FlattenSnoc(chunks, i);
      PrefixFits(chunks, i + 1);
      Set(out, chunks[i], offset);
      assert out[..offset + |chunks[i]|] == out[..offset] + out[offset..offset + |chunks[i]|];
      offset := offset + |chunks[i]|;
    }
    assert out[..offset] == out[..];
    bytes := out[..];
  }

  lemma Associate(a: Bytes, b: Bytes, c: Bytes)
    ensures a + (b + c) == (a + b) + c
  {
  }

  /** One body after the other. */
  function Bodies<E>(body: E -> Bytes, entries: seq<E>): Bytes
    decreases |entries|
  {
    if entries == [] then [] else body(entries[0]) + Bodies(body, entries[1..])
  }

  /** One record after the other, each told where its body starts. */
  function Index<E>(body: E -> Bytes, record: (E, nat) -> Bytes, entries: seq<E>, offset: nat): Bytes
    decreases |entries|
  {
    if entries == [] then []
    else record(entries[0], offset) + Index(body, record, entries[1..], offset + |body(entries[0])|)
  }

  lemma {:induction false} BodiesConcat<E>(body: E -> Bytes, a: seq<E>, b: seq<E>)
    ensures Bodies(body, a + b) == Bodies(body, a) + Bodies(body, b)
    decreases |a|
  {
    if a == [] {
      assert a + b == b;
    } else {
      assert (a + b)[1..] == a[1..] + b;
      BodiesConcat(body, a[1..], b);
    }
  }

  lemma {:induction false} IndexConcat<E>(body: E -> Bytes, record: (E, nat) -> Bytes, a: seq<E>, b: seq<E>,
          offset: nat)
    ensures Index(body, record, a + b, offset)
         == Index(body, record, a, offset) + Index(body, record, b, offset + |Bodies(body, a)|)
    decreases |a|
  {
    if a == [] {
      assert a + b == b;
    } else {
      assert (a + b)[1..] == a[1..] + b;
      var next := offset + |body(a[0])|;
      IndexConcat(body, record, a[1..], b, next);
      Associate(record(a[0], offset), Index(body, record, a[1..], next),
                Index(body, record, b, next + |Bodies(body, a[1..])|));
    }
  }

  lemma BodiesSnoc<E>(body: E -> Bytes, entries: seq<E>, i: nat)
    requires i < |entries|
    ensures Bodies(body, entries[..i + 1]) == Bodies(body, entries[..i]) + body(entries[i])
  {
    var e := entries[i];
    assert entries[..i + 1] == entries[..i] + [e];
    BodiesConcat(body, entries[..i], [e]);
    assert [e][1..] == [];
    assert body(e) + [] == body(e);
  }

  lemma IndexSnoc<E>(body: E -> Bytes, record: (E, nat) -> Bytes, entries: seq<E>, i: nat)
    requires i < |entries|
    ensures Index(body, record, entries[..i + 1], 0)
         == Index(body, record, entries[..i], 0) + record(entries[i], |Bodies(body, entries[..i])|)
  {
    var e := entries[i];
    assert entries[..i + 1] == entries[..i] + [e];
    IndexConcat(body, record, entries[..i], [e], 0);
    assert [e][1..] == [];
    var tail := record(e, |Bodies(body, entries[..i])|);
    assert tail + [] == tail;
  }

  // ---- The archive -------------------------------------------------------------------

  function Checksum(content: Bytes): (sum: nat)
    ensures sum < 0x1_0000_0000
  {
    Number(Crc(AsBits(content)))
  }

  function LocalFields(e: Entry): seq<Bytes> {
    [U32(LOCAL_SIGNATURE), U16(20), U16(FLAG_UTF8), U16(0), U16(0), U16(0), U32(Checksum(e.content)),
     U32(|e.content|), U32(|e.content|), U16(|e.path|), U16(0), e.path]
  }

  function CentralFields(e: Entry, offset: nat): seq<Bytes> {
    [U32(CENTRAL_SIGNATURE), U16(20), U16(20), U16(FLAG_UTF8), U16(0), U16(0), U16(0), U32(Checksum(e.content)),
     U32(|e.content|), U32(|e.content|), U16(|e.path|), U16(0), U16(0), U16(0), U16(0), U32(0), U32(offset), e.path]
  }

  function EndFields(count: nat, size: nat, offset: nat): seq<Bytes> {
    [U32(END_SIGNATURE), U16(0), U16(0), U16(count), U16(count), U32(size), U32(offset), U16(0)]
  }

  function Local(e: Entry): Bytes {
    Flatten(LocalFields(e)) + e.content
  }

  function Central(e: Entry, offset: nat): Bytes {
    Flatten(CentralFields(e, offset))
  }

  function Locals(entries: seq<Entry>): Bytes {
    Bodies(Local, entries)
  }

  /** The central directory when the first local header stands at `offset`. */
  function Directory(entries: seq<Entry>, offset: nat): Bytes {
    Index(Local, Central, entries, offset)
  }

  function End(entries: seq<Entry>): Bytes {
    Flatten(EndFields(|entries|, |Directory(entries, 0)|, |Locals(entries)|))
  }

  function Archive(entries: seq<Entry>): Bytes {
    Locals(entries) + Directory(entries, 0) + End(entries)
  }

  lemma TwoChunks(a: Bytes, b: Bytes)
    ensures Flatten([a, b]) == a + b
  {
    assert [a, b][1..] == [b];
    OneChunk(b);
  }

  lemma OneChunk(a: Bytes)
    ensures Flatten([a]) == a
  {
    assert [a][1..] == [];
    assert a + [] == a;
  }

  lemma FlattenPush(chunks: seq<Bytes>, a: Bytes, b: Bytes)
    ensures Flatten(chunks + [a]) == Flatten(chunks) + a
    ensures Flatten(chunks + [a, b]) == Flatten(chunks) + (a + b)
  {
    FlattenConcat(chunks, [a]);
    OneChunk(a);
    FlattenConcat(chunks, [a, b]);
    TwoChunks(a, b);
  }

  /** The writer: one pass over the entries with a running offset. */
  method CreateZip(table: seq<bv32>, entries: seq<Entry>) returns (zip: Bytes)
    requires IsTable(table)
    ensures zip == Archive(entries)
  {
    var local: seq<Bytes> := [];
    var central: seq<Bytes> := [];
    var offset := 0;
    for i := 0 to |entries|
      invariant Flatten(local) == Locals(entries[..i])
      invariant Flatten(central) == Directory(entries[..i], 0)
      invariant offset == |Locals(entries[..i])|
    {
      var e := entries[i];
      BodiesSnoc(Local, entries, i);
      IndexSnoc(Local, Central, entries, i);
      var crc := ComputeCrc(table, AsBits(e.content));
      var localHeader := LocalHeader(e, crc);
      FlattenPush(local, localHeader, e.content);
      local := local + [localHeader, e.content];
      var header := CentralHeader(e, crc, offset);
      FlattenPush(central, header, []);
      central := central + [header];
      offset := offset + |localHeader| + |e.content|;
    }
    assert entries[..|entries|] == entries;
    var centralDir := Concat(central);
    var eocd := Concat([U32(END_SIGNATURE), U16(0), U16(0), U16(|entries|), U16(|entries|),
                        U32(|centralDir|), U32(offset), U16(0)]);
    FlattenPush(local, centralDir, eocd);
    zip := Concat(local + [centralDir, eocd]);
    Associate(Locals(entries), centralDir, eocd);
  }

  method LocalHeader(e: Entry, crc: bv32) returns (header: Bytes)
    requires Number(crc) == Checksum(e.content)
    ensures header == Flatten(LocalFields(e))
  {
    header := Concat(
      [U32(LOCAL_SIGNATURE), U16(20), U16(FLAG_UTF8), U16(0), U16(0), U16(0), U32(Number(crc)),
       U32(|e.content|), U32(|e.content|), U16(|e.path|), U16(0), e.path]);
  }

  method CentralHeader(e: Entry, crc: bv32, offset: nat) returns (header: Bytes)
    requires Number(crc) == Checksum(e.content)
    ensures header == Central(e, offset)
  {
    header := Concat(
      [U32(CENTRAL_SIGNATURE), U16(20), U16(20), U16(FLAG_UTF8), U16(0), U16(0), U16(0), U32(Number(crc)),
       U32(|e.content|), U32(|e.content|), U16(|e.path|), U16(0), U16(0), U16(0), U16(0), U32(0), U32(offset), e.path]);
  }

  // ---- The reader --------------------------------------------------------------------

  function Min(a: nat, b: nat): nat {
    if a < b then a else b
  }

  /** `subarray`: both ends are clamped to the buffer. */
  function Subarray(bytes: Bytes, from: nat, to: nat): Bytes
    requires from <= to
  {
    bytes[Min(from, |bytes|)..Min(to, |bytes|)]
  }

  /** The last end-of-directory signature at or below `i`. */
  function FindEnd(bytes: Bytes, i: int): (found: Option<nat>)
    requires i + 4 <= |bytes|
    ensures found.Some? ==> found.value <= i
    decreases if i < 0 then 0 else i + 1
  {
    if i < 0 then None
    else if Word32(bytes, i) == END_SIGNATURE then Some(i)
    else FindEnd(bytes, i - 1)
  }

  /** No signature stands between the one found and where the scan began, or
      none stands anywhere below it. */
  lemma {:induction false} EndIsLast(bytes: Bytes, i: int)
    requires i + 4 <= |bytes|
    ensures var found := FindEnd(bytes, i);
            && (found.Some? ==> Word32(bytes, found.value) == END_SIGNATURE)
            && forall k :: (if found.Some? then found.value + 1 else 0) <= k <= i ==> Word32(bytes, k) != END_SIGNATURE
    decreases if i < 0 then 0 else i + 1
  {
    hide Word32;
    if 0 <= i && Word32(bytes, i) != END_SIGNATURE {
      EndIsLast(bytes, i - 1);
    }
  }

  datatype Header = Header(compression: nat, compSize: nat, nameLen: nat, extraLen: nat, commentLen: nat,
    localOffset: nat)

  function ReadHeader(bytes: Bytes, ptr: nat): (r: Result<Header, Failure>)
    ensures r.Ok? ==> ptr + 46 <= |bytes|
  {
    if |bytes| < ptr + 4 then Err(OutOfRange)
    else if Word32(bytes, ptr) != CENTRAL_SIGNATURE then Err(BadHeader)
    else if |bytes| < ptr + 46 then Err(OutOfRange)
    else Ok(Header(Word16(bytes, ptr + 10), Word32(bytes, ptr + 20), Word16(bytes, ptr + 28),
                   Word16(bytes, ptr + 30), Word16(bytes, ptr + 32), Word32(bytes, ptr + 42)))
  }

  /** The stored bytes behind a local header, whose own lengths place them. */
  function ReadPayload(bytes: Bytes, header: Header): Result<Bytes, Failure> {
    if |bytes| < header.localOffset + 30 then Err(OutOfRange)
    else
      var at := header.localOffset + 30 + Word16(bytes, header.localOffset + 26)
          + Word16(bytes, header.localOffset + 28);
      Ok(Subarray(bytes, at, at + header.compSize))
  }

  type Inflate = Bytes -> Option<Bytes>

  function Unpack(header: Header, payload: Bytes, inflate: Inflate): Result<Bytes, Failure> {
    if header.compression == 0 then Ok(payload)
    else
      match inflate(payload)
      case Some(raw) => Ok(raw)
      case None => Err(BadDeflate)
  }

  predicate IsFile(e: Entry) {
    e.path == [] || e.path[|e.path| - 1] != SLASH
  }

  function ReadEntry(bytes: Bytes, ptr: nat, inflate: Inflate): Result<(Entry, nat), Failure> {
    match ReadHeader(bytes, ptr)
    case Err(failure) => Err(failure)
    case Ok(h) =>
      match ReadPayload(bytes, h)
      case Err(failure) => Err(failure)
      case Ok(payload) =>
        match Unpack(h, payload, inflate)
        case Err(failure) => Err(failure)
        case Ok(raw) =>
          Ok((Entry(Subarray(bytes, ptr + 46, ptr + 46 + h.nameLen), raw),
            ptr + 46 + h.nameLen + h.extraLen + h.commentLen))
  }

  type Step = nat -> Result<(Entry, nat), Failure>

  function Reader(bytes: Bytes, inflate: Inflate): Step {
    (ptr: nat) => ReadEntry(bytes, ptr, inflate)
  }

  /** The files among `n` directory records from `ptr` on. */
  function Follow(step: Step, ptr: nat, n: nat): Result<seq<Entry>, Failure>
    decreases n
  {
    if n == 0 then Ok([])
    else
      match step(ptr)
      case Err(failure) => Err(failure)
      case Ok((e, next)) => Prepend(if IsFile(e) then [e] else [], Follow(step, next, n - 1))
  }

  function Prepend(entries: seq<Entry>, rest: Result<seq<Entry>, Failure>): Result<seq<Entry>, Failure> {
    match rest
    case Ok(more) => Ok(entries + more)
    case Err(failure) => Err(failure)
  }

  function Read(bytes: Bytes, inflate: Inflate): Result<seq<Entry>, Failure> {
    match FindEnd(bytes, |bytes| - 22)
    case None => Err(NotZip)
    case Some(end) =>
      Follow(Reader(bytes, inflate), Word32(bytes, end + 16), Word16(bytes, end + 10))
  }

  lemma PrependTwice(a: seq<Entry>, b: seq<Entry>, rest: Result<seq<Entry>, Failure>)
    ensures Prepend(a, Prepend(b, rest)) == Prepend(a + b, rest)
  {
    if rest.Ok? {
      assert a + (b + rest.value) == (a + b) + rest.value;
    }
  }

  lemma PrependNothing(rest: Result<seq<Entry>, Failure>)
    ensures Prepend([], rest) == rest
  {
    if rest.Ok? {
      assert [] + rest.value == rest.value;
    }
  }

  /** What one round does to the answer so far. */
  lemma StepUnfolds(step: Step, ptr: nat, n: nat, entries: seq<Entry>)
    requires 0 < n
    ensures match step(ptr)
            case Err(failure) => Prepend(entries, Follow(step, ptr, n)) == Err(failure)
            case Ok((e, next)) =>
              Prepend(entries, Follow(step, ptr, n))
              == Prepend(if IsFile(e) then entries + [e] else entries, Follow(step, next, n - 1))
  {
    match step(ptr) {
      case Err(_) =>
      case Ok((e, next)) =>
        var rest := Follow(step, next, n - 1);
        PrependTwice(entries, [e], rest);
        PrependNothing(rest);
    }
  }

  /** The reader: a scan backwards for the end record, then a walk of the directory. */
  method ReadZip(bytes: Bytes, inflate: Inflate) returns (r: Result<seq<Entry>, Failure>)
    ensures r == Read(bytes, inflate)
  {
    hide FindEnd, Follow, Word16, Word32;
    var end := ScanForEnd(bytes);
    if end.None? {
      return Err(NotZip);
    }
    var at := end.value;
    r := WalkDirectory(Reader(bytes, inflate), Word32(bytes, at + 16), Word16(bytes, at + 10));
  }

  method ScanForEnd(bytes: Bytes) returns (end: Option<nat>)
    ensures end == FindEnd(bytes, |bytes| - 22)
  {
    hide Word32;
    var i := |bytes| - 22;
    while 0 <= i
      invariant -22 <= i <= |bytes| - 22
      invariant FindEnd(bytes, |bytes| - 22) == FindEnd(bytes, i)
      decreases i + 22
    {
      if Word32(bytes, i) == END_SIGNATURE {
        return Some(i);
      }
      i := i - 1;
    }
    end := None;
  }

  method WalkDirectory(step: Step, start: nat, count: nat) returns (r: Result<seq<Entry>, Failure>)
    ensures r == Follow(step, start, count)
  {
    var ptr := start;
    var entries: seq<Entry> := [];
    PrependNothing(Follow(step, ptr, count));
    for n := 0 to count
      invariant Follow(step, start, count) == Prepend(entries, Follow(step, ptr, count - n))
    {
      StepUnfolds(step, ptr, count - n, entries);
      var round := step(ptr);
      if round.Err? {
        return Err(round.error);
      }
      var (e, next) := round.value;
      if IsFile(e) {
        entries := entries + [e];
      }
      ptr := next;
    }
    r := Ok(entries);
    assert entries + [] == entries;
  }
}

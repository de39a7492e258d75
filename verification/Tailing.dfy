/** The transcript tailer of apps/watcher/src/watcher.ts: scans that measure, read
    and commit across awaits while the files grow under them. */
module Tailing {
  import opened Outcomes

  type Octet = bv8
  type Bytes = seq<Octet>
  type Path = string

  const LF: Octet := 0x0a

  // ---- One read --------------------------------------------------------------------------

  function LastIndexOf(bytes: Bytes, b: Octet): (at: Option<nat>)
    ensures at.Some? ==> at.value < |bytes| && bytes[at.value] == b && b !in bytes[at.value + 1..]
    ensures at.None? ==> b !in bytes
    decreases |bytes|
  {
    if bytes == [] then None
    else if bytes[|bytes| - 1] == b then Some(|bytes| - 1)
    else LastIndexOf(bytes[..|bytes| - 1], b)
  }

  /** The complete lines of what was read: a torn last line is left. */
  function Cut(buffer: Bytes): (slice: Option<Bytes>)
    ensures slice.Some? ==> 0 < |slice.value| <= |buffer| && slice.value == buffer[..|slice.value|]
                            && slice.value[|slice.value| - 1] == LF && LF !in buffer[|slice.value|..]
    ensures slice.None? ==> LF !in buffer
  {
    match LastIndexOf(buffer, LF)
    case None => None
    case Some(last) => Some(buffer[..last + 1])
  }

  function Lookup<V>(m: map<Path, V>, path: Path, missing: V): V {
    if path in m then m[path] else missing
  }

  /** The buffer of a read that got `n` bytes: allocated for all, zeros behind. */
  function ReadInto(file: Bytes, offset: nat, size: nat, n: nat): (buffer: Bytes)
    requires offset + n <= size <= |file|
    ensures |buffer| == size - offset
  {
    file[offset..offset + n] + Zeros(size - offset - n)
  }

  function Zeros(k: nat): (zeros: Bytes)
    ensures |zeros| == k
  {
    seq(k, _ => 0)
  }

  /** Bytes a short read did not fill are no line break, so they are never taken. */
  lemma {:induction false} ZerosAreNotTaken(bytes: Bytes, k: nat)
    ensures Cut(bytes + Zeros(k)) == Cut(bytes)
    decreases k
  {
    var buffer := bytes + Zeros(k);
    if k == 0 {
      assert buffer == bytes;
    } else {
      assert buffer[..|buffer| - 1] == bytes + Zeros(k - 1);
      assert buffer[|buffer| - 1] == 0;
      CutDrops(buffer);
      ZerosAreNotTaken(bytes, k - 1);
    }
  }

  lemma CutDrops(buffer: Bytes)
    requires buffer != [] && buffer[|buffer| - 1] != LF
    ensures Cut(buffer) == Cut(buffer[..|buffer| - 1])
  {
    var at := LastIndexOf(buffer[..|buffer| - 1], LF);
    if at.Some? {
      assert buffer[..|buffer| - 1][..at.value + 1] == buffer[..at.value + 1];
    }
  }

  // ---- Scans against growing files -----------------------------------------------------------

  /** Where a scan stands: between its awaits. */
  datatype Scan =
    | Listing
    | Listed(todo: seq<Path>)
    | Asked(path: Path, offset: nat, todo: seq<Path>)
    | Measured(path: Path, offset: nat, size: nat, todo: seq<Path>)

  /** The watcher, the files, and for each file the slices taken from it so far and
      how far into it the last read came. */
  datatype World = World(files: map<Path, Bytes>, offsets: map<Path, nat>, scanning: bool, stopped: bool,
                         scans: seq<Scan>, slices: map<Path, seq<Bytes>>, seen: map<Path, nat>)

  datatype Event =
    | Grow(path: Path, more: Bytes)
    | Invoke
    | Found(scan: nat, paths: seq<Path>)
    | Ask(scan: nat)
    | Stat(scan: nat, ok: bool)
    | Read(scan: nat, bytes: nat)
    | Throw(scan: nat)
    | Finish(scan: nat)
    | Stop

  function FileOf(w: World, path: Path): Bytes {
    Lookup(w.files, path, [])
  }

  function OffsetOf(w: World, path: Path): nat {
    Lookup(w.offsets, path, 0)
  }

  function SlicesOf(w: World, path: Path): seq<Bytes> {
    Lookup(w.slices, path, [])
  }

  function SeenOf(w: World, path: Path): nat {
    Lookup(w.seen, path, 0)
  }

  function Without(scans: seq<Scan>, i: nat): seq<Scan>
    requires i < |scans|
  {
    scans[..i] + scans[i + 1..]
  }

  /** One atomic stretch; an event that does not apply changes nothing. */
  function Step(w: World, e: Event): World {
    match e
    case Grow(path, more) => w.(files := w.files[path := FileOf(w, path) + more])
    case Invoke => if w.scanning || w.stopped then w else w.(scanning := true, scans := w.scans + [Listing])
    case Found(i, paths) =>
      if i < |w.scans| && w.scans[i].Listing? then w.(scans := w.scans[i := Listed(paths)]) else w
    case Ask(i) =>
      if i < |w.scans| && w.scans[i].Listed? && w.scans[i].todo != [] then
        var path := w.scans[i].todo[0];
        w.(scans := w.scans[i := Asked(path, OffsetOf(w, path), w.scans[i].todo[1..])])
      else w
    case Stat(i, ok) =>
      if i < |w.scans| && w.scans[i].Asked? then AfterStat(w, i, w.scans[i], ok) else w
    case Read(i, n) =>
      if i < |w.scans| && w.scans[i].Measured? && w.scans[i].size <= |FileOf(w, w.scans[i].path)|
         && w.scans[i].offset + n <= w.scans[i].size
      then AfterRead(w, i, w.scans[i], n)
      else w
    case Throw(i) => if i < |w.scans| then w.(scans := Without(w.scans, i), scanning := false) else w
    case Finish(i) =>
      if i < |w.scans| && w.scans[i] == Listed([]) then w.(scans := Without(w.scans, i), scanning := false) else w
    case Stop => w.(stopped := true)
  }

  function AfterStat(w: World, i: nat, s: Scan, ok: bool): World
    requires i < |w.scans| && s.Asked?
  {
    var size := |FileOf(w, s.path)|;
    if !ok || s.path !in w.files then w.(scans := w.scans[i := Listed(s.todo)])
    else if size <= s.offset then w.(scans := w.scans[i := Listed(s.todo)], seen := w.seen[s.path := size])
    else w.(scans := w.scans[i := Measured(s.path, s.offset, size, s.todo)])
  }

  /** The read got `n` bytes; the source takes whatever complete lines are in them. */
  function AfterRead(w: World, i: nat, s: Scan, n: nat): World
    requires i < |w.scans| && s.Measured? && s.offset + n <= s.size <= |FileOf(w, s.path)|
  {
    var w' := w.(scans := w.scans[i := Listed(s.todo)], seen := w.seen[s.path := s.offset + n]);
    match Cut(ReadInto(FileOf(w, s.path), s.offset, s.size, n))
    case None => w'
    case Some(slice) =>
      w'.(offsets := w.offsets[s.path := s.offset + |slice|],
          slices := w.slices[s.path := SlicesOf(w, s.path) + [slice]])
  }

  function Run(w: World, events: seq<Event>): World
    decreases |events|
  {
    if events == [] then w else Run(Step(w, events[0]), events[1..])
  }

  /** A watcher that starts on files it has, or has not, stored offsets of. */
  function Begun(files: map<Path, Bytes>, offsets: map<Path, nat>): World {
    World(files, offsets, false, false, [], map[], offsets)
  }

  // ---- Lines ---------------------------------------------------------------------------------

  /** Where the complete lines end: behind the last line break. */
  function LineEnd(bytes: Bytes): (n: nat)
    ensures n <= |bytes| && EndsLine(bytes, n) && NoBreakFrom(bytes, n)
  {
    match LastIndexOf(bytes, LF)
    case None => 0
    case Some(last) =>
      assert forall i :: last < i < |bytes| ==> bytes[i] == bytes[last + 1..][i - last - 1];
      last + 1
  }

  predicate EndsLine(bytes: Bytes, n: nat)
    requires n <= |bytes|
  {
    n == 0 || bytes[n - 1] == LF
  }

  predicate NoBreakFrom(bytes: Bytes, n: nat) {
    forall i :: n <= i < |bytes| ==> bytes[i] != LF
  }

  /** The longest prefix that is empty or ends a line. */
  function Complete(bytes: Bytes): Bytes {
    bytes[..LineEnd(bytes)]
  }

  lemma CompleteIsLongest(bytes: Bytes, n: nat)
    requires n <= |bytes| && EndsLine(bytes, n)
    ensures n <= |Complete(bytes)| && bytes[..n] <= Complete(bytes)
  {
    hide LineEnd;
  }

  lemma LineEndIs(bytes: Bytes, n: nat)
    requires n <= |bytes| && EndsLine(bytes, n) && NoBreakFrom(bytes, n)
    ensures LineEnd(bytes) == n
  {
    hide LineEnd;
  }

  /** Reading on from where a line ended. */
  lemma LineEndGrows(bytes: Bytes, n: nat)
    requires n <= |bytes| && EndsLine(bytes, n)
    ensures LineEnd(bytes) == match Cut(bytes[n..]) { case None => n case Some(slice) => n + |slice| }
  {
    hide LineEnd, Cut;
    var rest := bytes[n..];
    assert forall i :: n <= i < |bytes| ==> bytes[i] == rest[i - n];
    match Cut(rest) {
      case None => LineEndIs(bytes, n);
      case Some(slice) =>
        var m := |slice|;
        assert forall i :: m <= i < |rest| ==> rest[i] == rest[m..][i - m];
        LineEndIs(bytes, n + m);
    }
  }

  function Concat(slices: seq<Bytes>): Bytes
    decreases |slices|
  {
    if slices == [] then [] else Concat(slices[..|slices| - 1]) + slices[|slices| - 1]
  }

  predicate Whole(bytes: Bytes) {
    EndsLine(bytes, |bytes|)
  }

  // ---- The invariant ---------------------------------------------------------------------------

  predicate ScanOk(w: World, s: Scan) {
    match s
    case Listing => true
    case Listed(_) => true
    case Asked(path, offset, _) => offset == OffsetOf(w, path)
    case Measured(path, offset, size, _) => offset == OffsetOf(w, path) && offset < size <= |FileOf(w, path)|
  }

  /** One scan at most, and it works from the stored offset. */
  predicate OneScan(w: World) {
    |w.scans| == (if w.scanning then 1 else 0) && forall i :: 0 <= i < |w.scans| ==> ScanOk(w, w.scans[i])
  }

  /** A file's slices are its bytes from where the watcher took it up to the stored
      offset, which is where its complete lines end among the bytes last read. */
  predicate FileOk(w: World, path: Path, base: nat) {
    TailOk(FileOf(w, path), base, OffsetOf(w, path), SeenOf(w, path), SlicesOf(w, path))
  }

  predicate TailOk(file: Bytes, base: nat, offset: nat, seen: nat, slices: seq<Bytes>) {
    && base <= offset <= seen <= |file|
    && offset == LineEnd(file[..seen])
    && Concat(slices) == file[base..offset]
    && forall i :: 0 <= i < |slices| ==> slices[i] != [] && Whole(slices[i])
  }

  lemma TailEndsLine(file: Bytes, base: nat, offset: nat, seen: nat, slices: seq<Bytes>)
    requires TailOk(file, base, offset, seen, slices)
    ensures EndsLine(file, offset) && NoBreakFrom(file[..seen], offset)
  {
    hide LineEnd, Concat;
  }

  /** A stored offset the watcher can take up: within the file, at a line end. */
  predicate Resumes(file: Bytes, offset: nat) {
    offset <= |file| && EndsLine(file, offset)
  }

  lemma ScansStayOk(w: World, e: Event)
    requires OneScan(w)
    ensures OneScan(Step(w, e))
  {
    hide Cut, Lookup;
    match e {
      case Grow(grown, more) =>
        forall i | 0 <= i < |w.scans| ensures ScanOk(Step(w, e), w.scans[i]) {
          if w.scans[i].Measured? {
            LookupUpdate<Bytes>(w.files, grown, FileOf(w, grown) + more, w.scans[i].path, []);
          }
        }
      case _ =>
    }
  }

  lemma ConcatSnoc(slices: seq<Bytes>, slice: Bytes)
    ensures Concat(slices + [slice]) == Concat(slices) + slice
  {
    assert (slices + [slice])[..|slices|] == slices;
  }

  lemma FirstTail(file: Bytes, base: nat)
    requires Resumes(file, base)
    ensures TailOk(file, base, base, base, [])
  {
    hide LineEnd;
    LineEndIs(file[..base], base);
  }

  lemma GrownTail(file: Bytes, more: Bytes, base: nat, offset: nat, seen: nat, slices: seq<Bytes>)
    requires TailOk(file, base, offset, seen, slices)
    ensures TailOk(file + more, base, offset, seen, slices)
  {
    hide LineEnd, Concat, Whole;
    assert (file + more)[..seen] == file[..seen] && (file + more)[base..offset] == file[base..offset];
  }

  /** A measure that finds nothing new. */
  lemma MeasuredTail(file: Bytes, base: nat, offset: nat, seen: nat, slices: seq<Bytes>)
    requires TailOk(file, base, offset, seen, slices) && |file| <= offset
    ensures TailOk(file, base, offset, |file|, slices)
  {
    assert seen == |file|;
  }

  /** A read from the offset that came as far as `end`. */
  lemma ReadTail(file: Bytes, base: nat, offset: nat, end: nat, seen: nat, slices: seq<Bytes>)
    requires TailOk(file, base, offset, seen, slices) && offset <= end <= |file|
    ensures match Cut(file[offset..end])
            case None => TailOk(file, base, offset, end, slices)
            case Some(slice) => TailOk(file, base, offset + |slice|, end, slices + [slice])
  {
    hide LineEnd, Concat, Cut;
    var read := file[..end];
    TailEndsLine(file, base, offset, seen, slices);
    LineEndGrows(read, offset);
    assert read[offset..] == file[offset..end];
    match Cut(file[offset..end]) {
      case None =>
      case Some(slice) =>
        ConcatSnoc(slices, slice);
        assert file[base..offset + |slice|] == file[base..offset] + slice;
    }
  }

  lemma LookupUpdate<V>(m: map<Path, V>, changed: Path, v: V, path: Path, missing: V)
    ensures Lookup(m[changed := v], path, missing) == if path == changed then v else Lookup(m, path, missing)
  {
  }

  lemma StatKeeps(w: World, i: nat, s: Scan, ok: bool, path: Path, base: nat)
    requires i < |w.scans| && s.Asked? && ScanOk(w, s) && FileOk(w, path, base)
    ensures FileOk(AfterStat(w, i, s, ok), path, base)
  {
    hide TailOk, Lookup;
    LookupUpdate<nat>(w.seen, s.path, |FileOf(w, s.path)|, path, 0);
    if s.path == path && |FileOf(w, path)| <= s.offset {
      MeasuredTail(FileOf(w, path), base, OffsetOf(w, path), SeenOf(w, path), SlicesOf(w, path));
    }
  }

  lemma ReadKeeps(w: World, i: nat, s: Scan, n: nat, path: Path, base: nat)
    requires i < |w.scans| && s.Measured? && ScanOk(w, s) && FileOk(w, path, base) && s.offset + n <= s.size
    ensures FileOk(AfterRead(w, i, s, n), path, base)
  {
    hide TailOk, Cut, Lookup;
    var file := FileOf(w, s.path);
    ZerosAreNotTaken(file[s.offset..s.offset + n], s.size - s.offset - n);
    LookupUpdate<nat>(w.seen, s.path, s.offset + n, path, 0);
    match Cut(file[s.offset..s.offset + n]) {
      case None =>
      case Some(slice) =>
        LookupUpdate<nat>(w.offsets, s.path, s.offset + |slice|, path, 0);
        LookupUpdate<seq<Bytes>>(w.slices, s.path, SlicesOf(w, s.path) + [slice], path, []);
    }
    if s.path == path {
      ReadTail(file, base, s.offset, s.offset + n, SeenOf(w, path), SlicesOf(w, path));
    }
  }

  lemma FileStaysOk(w: World, e: Event, path: Path, base: nat)
    requires OneScan(w) && FileOk(w, path, base)
    ensures FileOk(Step(w, e), path, base)
  {
    hide TailOk, AfterStat, AfterRead, ScanOk;
    match e {
      case Grow(_, more) =>
        GrownTail(FileOf(w, path), more, base, OffsetOf(w, path), SeenOf(w, path), SlicesOf(w, path));
      case Stat(i, ok) =>
        if i < |w.scans| && w.scans[i].Asked? {
          StatKeeps(w, i, w.scans[i], ok, path, base);
        }
      case Read(i, n) =>
        if Step(w, e) != w {
          ReadKeeps(w, i, w.scans[i], n, path, base);
        }
      case _ =>
    }
  }

  lemma StepKeeps(w: World, e: Event, path: Path, base: nat)
    requires OneScan(w) && FileOk(w, path, base)
    ensures OneScan(Step(w, e)) && FileOk(Step(w, e), path, base)
  {
    hide Step, OneScan, FileOk;
    ScansStayOk(w, e);
    FileStaysOk(w, e, path, base);
  }

  lemma {:induction false} RunStaysOk(w: World, events: seq<Event>, path: Path, base: nat)
    requires OneScan(w) && FileOk(w, path, base)
    ensures OneScan(Run(w, events)) && FileOk(Run(w, events), path, base)
    decreases |events|
  {
    hide Step, OneScan, FileOk;
    if events != [] {
      StepKeeps(w, events[0], path, base);
      RunStaysOk(Step(w, events[0]), events[1..], path, base);
    }
  }

  lemma BegunStaysOk(files: map<Path, Bytes>, offsets: map<Path, nat>, events: seq<Event>, path: Path)
    requires Resumes(Lookup(files, path, []), Lookup(offsets, path, 0))
    ensures var w := Run(Begun(files, offsets), events);
            OneScan(w) && FileOk(w, path, Lookup(offsets, path, 0))
  {
    hide TailOk;
    FirstTail(Lookup(files, path, []), Lookup(offsets, path, 0));
    RunStaysOk(Begun(files, offsets), events, path, Lookup(offsets, path, 0));
  }

  // ---- The watcher's methods ---------------------------------------------------------------------

  /** The part of the watcher that tails, one atomic stretch between awaits a
      method; `world` follows along, and holds the files. */
  class TranscriptTail {
    var offsets: map<Path, nat>
    var scanning: bool
    var stopped: bool
    ghost var world: World

    ghost predicate Valid()
      reads this
    {
      world.offsets == offsets && world.scanning == scanning && world.stopped == stopped && OneScan(world)
    }

    constructor (offsets: map<Path, nat>, ghost files: map<Path, Bytes>)
      ensures Valid() && world == Begun(files, offsets)
    {
      this.offsets := offsets;
      scanning := false;
      stopped := false;
      world := Begun(files, offsets);
    }

    /** A file grew, or came to be. */
    ghost method FileGrew(path: Path, more: Bytes)
      requires Valid()
      modifies this`world
      ensures Valid() && world == Step(old(world), Grow(path, more))
    {
      ScansStayOk(world, Grow(path, more));
      world := Step(world, Grow(path, more));
    }

    /** The listing came back. */
    ghost method TranscriptsFound(paths: seq<Path>)
      requires Valid()
      modifies this`world
      ensures Valid() && world == Step(old(world), Found(0, paths))
    {
      ScansStayOk(world, Found(0, paths));
      world := Step(world, Found(0, paths));
    }

    /** The guard of a scan. */
    method BeginScan() returns (entered: bool)
      requires Valid()
      modifies this
      ensures Valid() && world == Step(old(world), Invoke)
      ensures entered == !(old(scanning) || old(stopped))
    {
      ScansStayOk(world, Invoke);
      world := Step(world, Invoke);
      if scanning || stopped {
        return false;
      }
      scanning := true;
      return true;
    }

    /** Where to read the next file of the scan on from. */
    method NextOffset(path: Path) returns (offset: nat)
      requires Valid() && world.scans != []
      requires world.scans[0].Listed? && world.scans[0].todo != [] && world.scans[0].todo[0] == path
      modifies this`world
      ensures Valid() && world == Step(old(world), Ask(0))
      ensures offset == OffsetOf(world, path)
    {
      ScansStayOk(world, Ask(0));
      world := Step(world, Ask(0));
      offset := Lookup(offsets, path, 0);
    }

    /** The file was measured, or is gone: how many bytes to read, if any are new. */
    method OnMeasured(path: Path, offset: nat, size: Option<nat>) returns (length: Option<nat>)
      requires Valid() && world.scans != [] && world.scans[0].Asked?
      requires world.scans[0].path == path && world.scans[0].offset == offset
      requires size.Some? ==> path in world.files && size.value == |FileOf(world, path)|
      modifies this`world
      ensures Valid() && world == Step(old(world), Stat(0, size.Some?))
      ensures length == if size.None? || size.value <= offset then None else Some(size.value - offset)
    {
      ScansStayOk(world, Stat(0, size.Some?));
      world := Step(world, Stat(0, size.Some?));
      if size.None? || size.value <= offset {
        return None;
      }
      return Some(size.value - offset);
    }

    /** After the read, which got `n` bytes: keep the complete lines and move the
        stored offset past them. */
    method Commit(path: Path, offset: nat, buffer: Bytes, ghost n: nat) returns (slice: Option<Bytes>)
      requires Valid() && world.scans != [] && world.scans[0].Measured?
      requires world.scans[0].path == path && world.scans[0].offset == offset && offset + n <= world.scans[0].size
      requires buffer == ReadInto(FileOf(world, path), offset, world.scans[0].size, n)
      modifies this
      ensures Valid() && world == Step(old(world), Read(0, n))
      ensures slice == Cut(buffer)
      ensures offsets == if slice.Some? then old(offsets)[path := offset + |slice.value|] else old(offsets)
    {
      ScansStayOk(world, Read(0, n));
      world := Step(world, Read(0, n));
      var last := LastIndexOf(buffer, LF);
      if last.None? {
        return None;
      }
      var cut := buffer[..last.value + 1];
      offsets := offsets[path := offset + |cut|];
      slice := Some(cut);
    }

    /** `finally`: the scan ended, at its last file or by an error. */
    method EndScan(ghost threw: bool)
      requires Valid() && world.scans != [] && (threw || world.scans[0] == Listed([]))
      modifies this
      ensures Valid() && world == Step(old(world), if threw then Throw(0) else Finish(0))
      ensures !scanning
    {
      ScansStayOk(world, if threw then Throw(0) else Finish(0));
      world := Step(world, if threw then Throw(0) else Finish(0));
      scanning := false;
    }

    method Halt()
      requires Valid()
      modifies this
      ensures Valid() && world == Step(old(world), Stop) && stopped
    {
      ScansStayOk(world, Stop);
      world := Step(world, Stop);
      stopped := true;
    }
  }

  // ---- Main results ------------------------------------------------------------------------------

  /** Over any schedule, from any stored offsets and whatever reads come back short,
      the slices taken from a file concatenate to what its complete lines, among the
      bytes last read, hold behind the offset the watcher took it up at. */
  lemma SlicesAreCompleteLines(files: map<Path, Bytes>, offsets: map<Path, nat>, events: seq<Event>, path: Path)
    requires Resumes(Lookup(files, path, []), Lookup(offsets, path, 0))
    ensures var w := Run(Begun(files, offsets), events);
            var base := Lookup(offsets, path, 0);
            && SeenOf(w, path) <= |FileOf(w, path)|
            && base <= |Complete(FileOf(w, path)[..SeenOf(w, path)])|
            && Concat(SlicesOf(w, path)) == Complete(FileOf(w, path)[..SeenOf(w, path)])[base..]
            && OffsetOf(w, path) == base + |Concat(SlicesOf(w, path))|
            && |w.scans| <= 1
  {
    hide LineEnd, Concat, Run, Begun, Lookup;
    var base := Lookup(offsets, path, 0);
    var w := Run(Begun(files, offsets), events);
    BegunStaysOk(files, offsets, events, path);
    CompleteSince(FileOf(w, path), base, OffsetOf(w, path), SeenOf(w, path));
  }

  lemma CompleteSince(file: Bytes, base: nat, offset: nat, seen: nat)
    requires base <= offset <= seen <= |file| && offset == LineEnd(file[..seen])
    ensures base <= |Complete(file[..seen])| == offset && Complete(file[..seen])[base..] == file[base..offset]
  {
    hide LineEnd;
    assert file[..seen][..offset] == file[..offset];
  }

  /** The lines of a text, each with its line break; a torn last line is not one. */
  function Lines(bytes: Bytes): seq<Bytes>
    decreases |bytes|
  {
    match FirstBreak(bytes)
    case None => []
    case Some(i) => [bytes[..i + 1]] + Lines(bytes[i + 1..])
  }

  function FirstBreak(bytes: Bytes): (at: Option<nat>)
    ensures at.Some? ==> at.value < |bytes| && bytes[at.value] == LF && LF !in bytes[..at.value]
    ensures at.None? ==> LF !in bytes
    decreases |bytes|
  {
    if bytes == [] then None
    else if bytes[0] == LF then Some(0)
    else
      match FirstBreak(bytes[1..])
      case None => None
      case Some(i) => Some(i + 1)
  }

  lemma FirstBreakConcat(a: Bytes, b: Bytes)
    requires FirstBreak(a).Some?
    ensures FirstBreak(a + b) == FirstBreak(a)
    decreases |a|
  {
    if a[0] != LF {
      assert (a + b)[1..] == a[1..] + b;
      FirstBreakConcat(a[1..], b);
    }
  }

  lemma BreakIn(a: Bytes)
    requires a != [] && Whole(a)
    ensures FirstBreak(a).Some?
  {
    assert a[|a| - 1] == LF;
  }

  lemma CutBehind(a: Bytes, b: Bytes, i: nat)
    requires i < |a| && Whole(a)
    ensures (a + b)[..i + 1] == a[..i + 1] && (a + b)[i + 1..] == a[i + 1..] + b && Whole(a[i + 1..])
  {
  }

  lemma UnfoldLines(bytes: Bytes, i: nat)
    requires FirstBreak(bytes) == Some(i)
    ensures Lines(bytes) == [bytes[..i + 1]] + Lines(bytes[i + 1..])
  {
  }

  lemma {:induction false} LinesConcat(a: Bytes, b: Bytes)
    requires Whole(a)
    ensures Lines(a + b) == Lines(a) + Lines(b)
    decreases |a|
  {
    hide Lines, FirstBreak, Whole;
    if a == [] {
      assert a + b == b;
      NoLinesInNothing();
      assert [] + Lines(b) == Lines(b);
    } else {
      BreakIn(a);
      FirstBreakConcat(a, b);
      var i := FirstBreak(a).value;
      CutBehind(a, b, i);
      LinesConcat(a[i + 1..], b);
      UnfoldLines(a, i);
      UnfoldLines(a + b, i);
      assert ([a[..i + 1]] + Lines(a[i + 1..])) + Lines(b) == [a[..i + 1]] + (Lines(a[i + 1..]) + Lines(b));
    }
  }

  lemma NoLinesInNothing()
    ensures Lines([]) == []
  {
  }

  function LinesOf(slices: seq<Bytes>): seq<Bytes>
    decreases |slices|
  {
    if slices == [] then [] else LinesOf(slices[..|slices| - 1]) + Lines(slices[|slices| - 1])
  }

  lemma {:induction false} LinesOfSlices(slices: seq<Bytes>)
    requires forall i :: 0 <= i < |slices| ==> Whole(slices[i])
    ensures LinesOf(slices) == Lines(Concat(slices)) && Whole(Concat(slices))
    decreases |slices|
  {
    if slices != [] {
      var before, last := slices[..|slices| - 1], slices[|slices| - 1];
      LinesOfSlices(before);
      LinesConcat(Concat(before), last);
    }
  }

  lemma {:induction false} NoLines(bytes: Bytes)
    requires LF !in bytes
    ensures Lines(bytes) == []
  {
  }

  /** Read slice by slice, the lines a file gained come out each exactly once and
      in order. */
  lemma EveryLineOnce(files: map<Path, Bytes>, offsets: map<Path, nat>, events: seq<Event>, path: Path)
    requires Resumes(Lookup(files, path, []), Lookup(offsets, path, 0))
    ensures var w := Run(Begun(files, offsets), events);
            var base := Lookup(offsets, path, 0);
            base <= SeenOf(w, path) <= |FileOf(w, path)|
            && LinesOf(SlicesOf(w, path)) == Lines(FileOf(w, path)[base..SeenOf(w, path)])
  {
    hide Lines, Concat, LinesOf, LineEnd, Run, Begun, Lookup;
    var base := Lookup(offsets, path, 0);
    var w := Run(Begun(files, offsets), events);
    BegunStaysOk(files, offsets, events, path);
    var file, offset, seen := FileOf(w, path), OffsetOf(w, path), SeenOf(w, path);
    TailEndsLine(file, base, offset, seen, SlicesOf(w, path));
    LinesOfSlices(SlicesOf(w, path));
    var torn := file[offset..seen];
    assert file[base..seen] == file[base..offset] + torn;
    LinesConcat(file[base..offset], torn);
    assert LF !in torn by {
      assert forall i :: offset <= i < seen ==> file[..seen][i] == file[i];
    }
    NoLines(torn);
    assert Lines(file[base..offset]) + [] == Lines(file[base..offset]);
  }

  /** A scan of one file with nothing in between its steps. */
  function ScanOnce(w: World, path: Path): World {
    Step(Step(Step(Looked(w, path), Stat(0, true)), Read(0, NewBytes(w, path))), Finish(0))
  }

  /** A full read of what is there. */
  function NewBytes(w: World, path: Path): nat {
    if OffsetOf(w, path) <= |FileOf(w, path)| then |FileOf(w, path)| - OffsetOf(w, path) else 0
  }

  function Looked(w: World, path: Path): World {
    Step(Step(Step(w, Invoke), Found(0, [path])), Ask(0))
  }

  lemma ScanLooks(w: World, path: Path)
    requires !w.scanning && !w.stopped && w.scans == []
    ensures Looked(w, path) == w.(scanning := true, scans := [Asked(path, OffsetOf(w, path), [])])
  {
    var w1 := Step(w, Invoke);
    assert w1.scans == [Listing];
    var w2 := Step(w1, Found(0, [path]));
    assert w2.scans == [Listed([path])];
    assert [path][1..] == [];
    assert Step(w2, Ask(0)).scans == [Asked(path, OffsetOf(w, path), [])];
  }

  /** The scan measures all there is. */
  lemma ScanSees(w: World, path: Path)
    requires w.scanning && w.scans == [Asked(path, OffsetOf(w, path), [])] && path in w.files
    ensures var w' := Step(Step(Step(w, Stat(0, true)), Read(0, NewBytes(w, path))), Finish(0));
            !w'.scanning && w'.files == w.files && SeenOf(w', path) == |FileOf(w, path)|
  {
    hide Cut, Lookup, AfterRead;
    var size := |FileOf(w, path)|;
    LookupUpdate<nat>(w.seen, path, size, path, 0);
    var w1 := Step(w, Stat(0, true));
    if size <= OffsetOf(w, path) {
      assert w1 == w.(scans := [Listed([])], seen := w.seen[path := size]);
      assert Step(w1, Read(0, NewBytes(w, path))) == w1;
    } else {
      assert w1 == w.(scans := [Measured(path, OffsetOf(w, path), size, [])]);
      ReadSees(w1, w1.scans[0], NewBytes(w, path));
    }
  }

  lemma ReadSees(w: World, s: Scan, n: nat)
    requires w.scans == [s] && s.Measured? && s.todo == [] && s.offset + n == s.size == |FileOf(w, s.path)|
    ensures var w' := AfterRead(w, 0, s, n);
            w'.files == w.files && w'.scans == [Listed([])] && SeenOf(w', s.path) == |FileOf(w, s.path)|
  {
    hide Cut, Lookup, ReadInto;
    LookupUpdate<nat>(w.seen, s.path, s.size, s.path, 0);
    assert w.scans[0 := Listed([])] == [Listed([])];
  }

  /** From any state a watcher can be in, a scan that runs undisturbed catches up
      with the file. */
  lemma ScanCatchesUp(files: map<Path, Bytes>, offsets: map<Path, nat>, events: seq<Event>, path: Path)
    requires Resumes(Lookup(files, path, []), Lookup(offsets, path, 0))
    requires var w := Run(Begun(files, offsets), events); !w.scanning && !w.stopped && path in w.files
    ensures var w := Run(Begun(files, offsets), events);
            var w' := ScanOnce(w, path);
            var base := Lookup(offsets, path, 0);
            && !w'.scanning && base <= |Complete(FileOf(w, path))|
            && Concat(SlicesOf(w', path)) == Complete(FileOf(w, path))[base..]
  {
    hide TailOk, Step, Concat, Looked, Run, Begun, Lookup, NewBytes, LineEnd;
    var base := Lookup(offsets, path, 0);
    var w := Run(Begun(files, offsets), events);
    BegunStaysOk(files, offsets, events, path);
    ScanLooks(w, path);
    SameNewBytes(w, Looked(w, path), path);
    ScanSees(Looked(w, path), path);
    ScanKeeps(w, path, base);
    SeenAll(ScanOnce(w, path), path, base);
  }

  lemma SameNewBytes(w: World, w': World, path: Path)
    requires w.files == w'.files && w.offsets == w'.offsets
    ensures NewBytes(w, path) == NewBytes(w', path)
  {
  }

  lemma ScanKeeps(w: World, path: Path, base: nat)
    requires OneScan(w) && FileOk(w, path, base)
    ensures FileOk(ScanOnce(w, path), path, base)
  {
    hide Step, OneScan, FileOk, NewBytes;
    var read := Read(0, NewBytes(w, path));
    StepKeeps(w, Invoke, path, base);
    StepKeeps(Step(w, Invoke), Found(0, [path]), path, base);
    StepKeeps(Step(Step(w, Invoke), Found(0, [path])), Ask(0), path, base);
    var looked := Looked(w, path);
    StepKeeps(looked, Stat(0, true), path, base);
    StepKeeps(Step(looked, Stat(0, true)), read, path, base);
    StepKeeps(Step(Step(looked, Stat(0, true)), read), Finish(0), path, base);
  }

  lemma SeenAll(w: World, path: Path, base: nat)
    requires FileOk(w, path, base) && SeenOf(w, path) == |FileOf(w, path)|
    ensures base <= |Complete(FileOf(w, path))| && Concat(SlicesOf(w, path)) == Complete(FileOf(w, path))[base..]
  {
    hide LineEnd, Concat;
    assert FileOf(w, path)[..SeenOf(w, path)] == FileOf(w, path);
    CompleteSince(FileOf(w, path), base, OffsetOf(w, path), SeenOf(w, path));
  }
}

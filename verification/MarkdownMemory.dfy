/** The memory file of apps/web/lib/markdown-memory.ts: rendered with a
    frontmatter block and an original-language section, and parsed back. */
module MarkdownMemory {
  import opened Outcomes
  import opened Strings
  import J = StableJson
  import I = StableJsonInverse

  const MARKER := "<!-- zm:original"
  const LF := '\n'

  /** A memory, with its `source` already printed when it has one. */
  datatype Memory = Memory(id: string, content: string, contentOriginal: Option<string>, contentLang: Option<string>,
                           kind: string, scope: string, visibility: string, authorKind: string,
                           agentName: Option<string>, source: Option<string>, supersededBy: Option<string>,
                           invalidatedAt: Option<string>, createdAt: string)

  datatype Original = Original(text: string, lang: Option<string>)

  datatype Parsed = Parsed(frontmatter: map<string, string>, content: string, original: Option<Original>)

  // ---- Rendering ---------------------------------------------------------------------------

  function OrElse(value: Option<string>, fallback: string): string {
    match value
    case Some(s) => s
    case None => fallback
  }

  /** The fields in their fixed order; a missing one is the empty string. */
  function Fields(m: Memory): seq<(string, string)> {
    [("id", m.id), ("kind", m.kind), ("scope", m.scope), ("visibility", m.visibility),
     ("lang", OrElse(m.contentLang, "en")), ("created_at", m.createdAt), ("author_kind", m.authorKind),
     ("agent_name", OrElse(m.agentName, "")), ("superseded_by", OrElse(m.supersededBy, "")),
     ("invalidated_at", OrElse(m.invalidatedAt, "")), ("source", OrElse(m.source, ""))]
  }

  function LineOf(field: (string, string)): string {
    field.0 + ": " + field.1
  }

  /** One line a field, empty ones skipped. */
  function LinesOf(fields: seq<(string, string)>): seq<string>
    decreases |fields|
  {
    if fields == [] then [] else (if fields[0].1 != "" then [LineOf(fields[0])] else []) + LinesOf(fields[1..])
  }

  function MarkerLang(m: Memory): string {
    OrElse(m.contentLang, "unknown")
  }

  predicate HasOriginal(m: Memory) {
    m.contentOriginal.Some? && m.contentOriginal.value != ""
  }

  function MarkerLine(lang: string): string {
    "\n" + MARKER + " lang=" + lang + " -->\n"
  }

  function Body(m: Memory): string {
    if HasOriginal(m) then m.content + "\n" + MarkerLine(MarkerLang(m)) + m.contentOriginal.value else m.content
  }

  /** Two line breaks, the body, and a last one. */
  function Ending(body: string): string {
    "\n\n" + body + "\n"
  }

  function Render(m: Memory): string {
    "---\n" + Join(LinesOf(Fields(m)), [LF]) + "\n---" + Ending(Body(m))
  }

  /** The `source` line's text: a source with no keys has none. */
  function SourceText(quote: J.Quote, source: J.Json): Option<string> {
    match source
    case Text(s) => if s != "" then Some(J.Stable(quote, source)) else None
    case Array(items) => if items != [] then Some(J.Stable(quote, source)) else None
    case Object(members) => if members != [] then Some(J.Stable(quote, source)) else None
    case _ => None
  }

  // ---- The frontmatter block ---------------------------------------------------------------

  /** `/^---\n([\s\S]*?)\n---\n?([\s\S]*)$/`: the block up to the first closing
      line, and what follows. */
  function SplitFrontmatter(raw: string): Option<(string, string)> {
    if !HasAt(raw, 0, "---\n") then None
    else
      match Find(raw, "\n---", 4)
      case None => None
      case Some(close) =>
        var after := raw[close + 4..];
        Some((raw[4..close], if after != "" && after[0] == LF then after[1..] else after))
  }

  predicate KeyChar(c: char) {
    'a' <= c <= 'z' || c == '_'
  }

  function KeyEnd(line: string): (k: nat)
    ensures k <= |line| && forall i :: 0 <= i < k ==> KeyChar(line[i])
    ensures k < |line| ==> !KeyChar(line[k])
    decreases |line|
  {
    if line != "" && KeyChar(line[0]) then 1 + KeyEnd(line[1..]) else 0
  }

  /** What `.` does not match. */
  predicate EndsLine(c: char) {
    c == '\n' || c == '\r' || c == '\U{2028}' || c == '\U{2029}'
  }

  predicate OneLine(s: string) {
    forall i :: 0 <= i < |s| ==> !EndsLine(s[i])
  }

  /** `\s*(.+?)\s*$`: the trimmed value; of an all-blank one the last character `.` matches. */
  function ValueOf(rest: string): Option<string> {
    if Blank(rest) then LastInLine(rest)
    else if OneLine(Trim(rest)) then Some(Trim(rest))
    else None
  }

  function LastInLine(s: string): (last: Option<string>)
    ensures last.Some? ==> |last.value| == 1 && !EndsLine(last.value[0])
    decreases |s|
  {
    if s == "" then None
    else if !EndsLine(s[|s| - 1]) then Some([s[|s| - 1]])
    else LastInLine(s[..|s| - 1])
  }

  /** `/^([a-z_]+):\s*(.+?)\s*$/` on one line. */
  function ReadLine(line: string): Option<(string, string)> {
    var k := KeyEnd(line);
    if k == 0 || k == |line| || line[k] != ':' then None
    else
      match ValueOf(line[k + 1..])
      case None => None
      case Some(value) => Some((line[..k], value))
  }

  function Entry(out: map<string, string>, line: string): map<string, string> {
    match ReadLine(line)
    case None => out
    case Some((key, value)) => out[key := value]
  }

  function Collected(lines: seq<string>): map<string, string>
    decreases |lines|
  {
    if lines == [] then map[] else Entry(Collected(lines[..|lines| - 1]), lines[|lines| - 1])
  }

  /** The loop over the lines of the block. */
  method ReadFrontmatter(frontmatter: string) returns (out: map<string, string>)
    ensures out == Collected(Split(frontmatter, LF))
  {
    out := map[];
    var lines := Split(frontmatter, LF);
    for i := 0 to |lines|
      invariant out == Collected(lines[..i])
    {
      assert lines[..i + 1][..i] == lines[..i];
      var found := ReadLine(lines[i]);
      if found.Some? {
        out := out[found.value.0 := found.value.1];
      }
    }
    assert lines[..|lines|] == lines;
  }

  // ---- The original-language marker ----------------------------------------------------------

  datatype Match = Match(at: nat, length: nat, lang: Option<string>)

  /** Where the run of non-space characters from `p` ends. */
  function RunEnd(text: string, p: nat): (e: nat)
    requires p <= |text|
    ensures p <= e <= |text| && forall i :: p <= i < e ==> !IsSpace(text[i])
    ensures e < |text| ==> IsSpace(text[e])
    decreases |text| - p
  {
    if p < |text| && !IsSpace(text[p]) then RunEnd(text, p + 1) else p
  }

  /** `/\n<!-- zm:original(?: lang=([^\s]+))? -->\n/` at one position. */
  function MatchAt(text: string, p: nat): Option<Match> {
    if !HasAt(text, p, "\n" + MARKER) then None
    else
      var q := p + 17;
      if HasAt(text, q, " lang=") then
        var e := RunEnd(text, q + 6);
        if q + 6 < e && HasAt(text, e, " -->\n") then Some(Match(p, e + 5 - p, Some(text[q + 6..e]))) else None
      else if HasAt(text, q, " -->\n") then Some(Match(p, 22, None))
      else None
  }

  function FindMarker(text: string, from: nat): (found: Option<Match>)
    ensures found.Some? ==> from <= found.value.at && MatchAt(text, found.value.at) == found
    ensures forall p :: from <= p < (if found.Some? then found.value.at else |text| + 1) ==> MatchAt(text, p) == None
    decreases |text| + 1 - from
  {
    if |text| < from then None
    else if MatchAt(text, from).Some? then MatchAt(text, from)
    else FindMarker(text, from + 1)
  }

  function SplitBody(frontmatter: map<string, string>, body: string): Parsed {
    if Find(body, MARKER, 0).None? then Parsed(frontmatter, body, None)
    else
      match FindMarker(body, 0)
      case None => Parsed(frontmatter, body, None)
      case Some(split) =>
        MatchFits(body, split.at);
        Parsed(frontmatter, Trim(body[..split.at]), Some(Original(Trim(body[split.at + split.length..]), split.lang)))
  }

  function Parse(raw: string): Parsed {
    match SplitFrontmatter(raw)
    case None => SplitBody(map[], Trim(raw))
    case Some((block, rest)) => SplitBody(Collected(Split(block, LF)), Trim(rest))
  }

  /** The parser. */
  method ParseMemoryFile(raw: string) returns (parsed: Parsed)
    ensures parsed == Parse(raw)
  {
    var split := SplitFrontmatter(raw);
    var frontmatter: map<string, string> := map[];
    var body := raw;
    if split.Some? {
      frontmatter := ReadFrontmatter(split.value.0);
      body := split.value.1;
    }
    parsed := SplitBody(frontmatter, Trim(body));
  }

  lemma MatchFits(text: string, p: nat)
    ensures MatchAt(text, p).Some? ==>
              var m := MatchAt(text, p).value;
              m.at == p && m.length > 0 && p + m.length <= |text|
              && (m.lang.Some? ==>
                    m.lang.value != "" && forall i :: 0 <= i < |m.lang.value| ==> !IsSpace(m.lang.value[i]))
  {
  }

  // ---- What is recovered ---------------------------------------------------------------------

  predicate Scalar(value: string) {
    OneLine(value) && Trimmed(value)
  }

  /** What the renderer is given: single-line trimmed scalars, trimmed texts, some content. */
  predicate Renderable(m: Memory) {
    && (forall i :: 0 <= i < |Fields(m)| ==> Scalar(Fields(m)[i].1))
    && Trimmed(m.content) && m.content != ""
    && (HasOriginal(m) ==> Trimmed(m.contentOriginal.value))
  }

  /** Every emitted scalar under its key. */
  function Emitted(fields: seq<(string, string)>): map<string, string>
    decreases |fields|
  {
    if fields == [] then map[]
    else
      var last := fields[|fields| - 1];
      var before := Emitted(fields[..|fields| - 1]);
      if last.1 != "" then before[last.0 := last.1] else before
  }

  function Expected(m: Memory): Parsed {
    Parsed(Emitted(Fields(m)), m.content,
           if HasOriginal(m) then Some(Original(m.contentOriginal.value, Some(MarkerLang(m)))) else None)
  }

  // ---- Frontmatter lemmas --------------------------------------------------------------------

  predicate Key(key: string) {
    key != "" && forall i :: 0 <= i < |key| ==> KeyChar(key[i])
  }

  lemma {:induction false} KeyEndIs(line: string, k: nat)
    requires k < |line| && !KeyChar(line[k]) && forall i :: 0 <= i < k ==> KeyChar(line[i])
    ensures KeyEnd(line) == k
  {
    var e := KeyEnd(line);
    assert e < |line| ==> !KeyChar(line[e]);
  }

  lemma ValueReadsBack(before: string, value: string, after: string)
    requires Scalar(value) && value != "" && Blank(before) && Blank(after)
    ensures ValueOf(before + value + after) == Some(value)
  {
    hide Trim, OneLine;
    TrimPadded(before, value, after);
    assert !IsSpace((before + value + after)[|before|]);
  }

  /** A line reads back as its key and value, whatever blanks stand around the value;
      the rendered line has one in front. */
  lemma LineReadsBack(key: string, before: string, value: string, after: string)
    requires Key(key) && Scalar(value) && value != "" && Blank(before) && Blank(after)
    ensures ReadLine(key + ":" + before + value + after) == Some((key, value))
    ensures LineOf((key, value)) == key + ":" + " " + value + ""
  {
    hide ValueOf;
    var line := key + ":" + before + value + after;
    var k := |key|;
    assert line[..k] == key && line[k] == ':' && line[k + 1..] == before + value + after;
    assert forall i :: 0 <= i < k ==> line[i] == key[i];
    KeyEndIs(line, k);
    ValueReadsBack(before, value, after);
  }

  predicate FieldsOk(fields: seq<(string, string)>) {
    forall i :: 0 <= i < |fields| ==> Key(fields[i].0) && Scalar(fields[i].1)
  }

  lemma LinesSnoc(fields: seq<(string, string)>, last: (string, string))
    ensures LinesOf(fields + [last]) == LinesOf(fields) + (if last.1 != "" then [LineOf(last)] else [])
    decreases |fields|
  {
    hide LineOf;
    if fields == [] {
      assert [last][1..] == [];
    } else {
      assert (fields + [last])[1..] == fields[1..] + [last];
      LinesSnoc(fields[1..], last);
      var head := if fields[0].1 != "" then [LineOf(fields[0])] else [];
      var tail := if last.1 != "" then [LineOf(last)] else [];
      assert head + (LinesOf(fields[1..]) + tail) == (head + LinesOf(fields[1..])) + tail;
    }
  }

  lemma {:induction false} LinesReadBack(fields: seq<(string, string)>)
    requires FieldsOk(fields)
    ensures Collected(LinesOf(fields)) == Emitted(fields)
    decreases |fields|
  {
    hide LineOf, ReadLine, Scalar, Key;
    if fields != [] {
      var before, last := fields[..|fields| - 1], fields[|fields| - 1];
      assert fields == before + [last];
      LinesReadBack(before);
      LinesSnoc(before, last);
      if last.1 != "" {
        LineReadsBack(last.0, " ", last.1, "");
        var lines := LinesOf(before) + [LineOf(last)];
        assert lines[..|lines| - 1] == LinesOf(before);
      } else {
        assert LinesOf(before) + [] == LinesOf(before);
      }
    }
  }

  /** A frontmatter line starts with a key character and holds no line break. */
  predicate Plain(line: string) {
    line != "" && KeyChar(line[0]) && forall i :: 0 <= i < |line| ==> line[i] != LF
  }

  lemma {:induction false} LinesArePlain(fields: seq<(string, string)>)
    requires FieldsOk(fields)
    ensures forall i :: 0 <= i < |LinesOf(fields)| ==> Plain(LinesOf(fields)[i])
    decreases |fields|
  {
    if fields != [] {
      LinesArePlain(fields[1..]);
      assert Key(fields[0].0) && Scalar(fields[0].1);
    }
  }

  lemma {:induction false} BlockReadsBack(fields: seq<(string, string)>)
    requires FieldsOk(fields)
    ensures Collected(Split(Join(LinesOf(fields), [LF]), LF)) == Emitted(fields)
  {
    hide Collected, Emitted, Split;
    LinesReadBack(fields);
    LinesArePlain(fields);
    if LinesOf(fields) == [] {
      EmptyBlock();
    } else {
      SplitJoin(LinesOf(fields), LF);
    }
  }

  lemma EmptyBlock()
    ensures Collected(Split("", LF)) == Collected([])
  {
    assert [""][..0] == [];
  }

  /** No line break in a block of plain lines is followed by a dash. */
  lemma {:induction false} BlockHasNoClose(lines: seq<string>, p: nat)
    requires forall i :: 0 <= i < |lines| ==> Plain(lines[i])
    requires var block := Join(lines, [LF]); p < |block| && block[p] == LF
    ensures var block := Join(lines, [LF]); p + 1 < |block| && block[p + 1] != '-'
    decreases |lines|
  {
    assert Plain(lines[0]);
    if |lines| > 1 {
      var rest := Join(lines[1..], [LF]);
      var k := |lines[0]|;
      assert Join(lines, [LF]) == lines[0] + [LF] + rest;
      if p == k {
        assert Plain(lines[1]);
        assert rest != "" && rest[0] == lines[1][0];
      } else if k < p {
        BlockHasNoClose(lines[1..], p - k - 1);
      }
    }
  }

  lemma CloseIsFirst(lines: seq<string>, rest: string)
    requires forall i :: 0 <= i < |lines| ==> Plain(lines[i])
    ensures var block := Join(lines, [LF]);
            Find("---\n" + block + "\n---" + rest, "\n---", 4) == Some(4 + |block|)
  {
    hide Join;
    var block := Join(lines, [LF]);
    var raw := "---\n" + block + "\n---" + rest;
    assert HasAt(raw, 4 + |block|, "\n---");
    forall p | 4 <= p < 4 + |block| ensures !HasAt(raw, p, "\n---") {
      assert raw[p] == block[p - 4];
      HasAtIndex(raw, p, "\n---", 0);
      HasAtIndex(raw, p, "\n---", 1);
      if block[p - 4] == LF {
        BlockHasNoClose(lines, p - 4);
        assert raw[p + 1] == block[p - 3];
      }
    }
    var found := Find(raw, "\n---", 4);
    assert found.Some?;
  }

  lemma FrontmatterSplits(lines: seq<string>, body: string)
    requires forall i :: 0 <= i < |lines| ==> Plain(lines[i])
    ensures var block := Join(lines, [LF]);
            SplitFrontmatter("---\n" + block + "\n---" + Ending(body)) == Some((block, "\n" + body + "\n"))
  {
    hide Join, Find, HasAt, Ending, SplitFrontmatter;
    var block := Join(lines, [LF]);
    CloseIsFirst(lines, Ending(body));
    Pieces("---\n", block, "\n---", Ending(body));
    EndingDrops(body);
    CutFrontmatter("---\n" + block + "\n---" + Ending(body), 4 + |block|);
  }

  /** The block and what follows, where the closing line is the first one. */
  lemma CutFrontmatter(raw: string, close: nat)
    ensures HasAt(raw, 0, "---\n") && 4 <= close && close + 4 < |raw| && raw[close + 4] == LF
            && Find(raw, "\n---", 4) == Some(close)
            ==> SplitFrontmatter(raw) == Some((raw[4..close], raw[close + 4..][1..]))
  {
    hide Find, HasAt;
  }

  lemma EndingDrops(body: string)
    ensures var after := Ending(body);
            after != "" && after[0] == LF && after[1..] == "\n" + body + "\n"
  {
  }

  lemma FieldKeysOk(m: Memory)
    requires Renderable(m)
    ensures FieldsOk(Fields(m))
  {
    hide Scalar;
    var f := Fields(m);
    assert Key("id") && Key("kind") && Key("scope") && Key("visibility") && Key("lang") && Key("created_at");
    assert Key("author_kind") && Key("agent_name") && Key("superseded_by") && Key("invalidated_at") && Key("source");
  }

  // ---- Marker lemmas -------------------------------------------------------------------------

  /** A pattern whose only line breaks are at its ends does not see past the next line break. */
  lemma HasAtIsLocal(text: string, rest: string, p: nat, pattern: string)
    requires text != "" && text[|text| - 1] == LF && p < |text| && pattern != ""
    requires forall k :: 0 < k < |pattern| - 1 ==> pattern[k] != LF
    requires p < |text| - 1 || pattern[0] != LF
    ensures HasAt(text + rest, p, pattern) == HasAt(text, p, pattern)
  {
    var n := |text| - 1;
    if p + |pattern| <= |text| {
      assert (text + rest)[p..p + |pattern|] == text[p..p + |pattern|];
    } else {
      HasAtIndex(text + rest, p, pattern, n - p);
    }
  }

  lemma {:induction false} RunIsLocal(text: string, rest: string, p: nat)
    requires text != "" && text[|text| - 1] == LF && p < |text|
    ensures RunEnd(text + rest, p) == RunEnd(text, p) && RunEnd(text, p) < |text|
    decreases |text| - p
  {
    if !IsSpace(text[p]) {
      RunIsLocal(text, rest, p + 1);
    }
  }

  /** A marker that starts before a line break is seen without what follows it. */
  lemma MatchIsLocal(text: string, rest: string, p: nat)
    requires text != "" && text[|text| - 1] == LF && p < |text| - 1
    ensures MatchAt(text + rest, p) == MatchAt(text, p)
  {
    hide HasAt, RunEnd;
    HasAtIsLocal(text, rest, p, "\n" + MARKER);
    if HasAt(text, p, "\n" + MARKER) {
      var q := p + 17;
      InsideLine(text, p, "\n" + MARKER);
      HasAtIsLocal(text, rest, q, " lang=");
      HasAtIsLocal(text, rest, q, " -->\n");
      if HasAt(text, q, " lang=") {
        InsideLine(text, q, " lang=");
        RunIsLocal(text, rest, q + 6);
        var e := RunEnd(text, q + 6);
        HasAtIsLocal(text, rest, e, " -->\n");
        assert (text + rest)[q + 6..e] == text[q + 6..e];
      }
    }
  }

  /** A pattern that does not end in a line break ends before the final one. */
  lemma InsideLine(text: string, p: nat, pattern: string)
    requires text != "" && text[|text| - 1] == LF && pattern != "" && pattern[|pattern| - 1] != LF
    requires HasAt(text, p, pattern)
    ensures p + |pattern| < |text|
  {
    assert text[p..p + |pattern|][|pattern| - 1] == text[p + |pattern| - 1];
  }

  predicate LangOk(lang: string) {
    lang != "" && forall i :: 0 <= i < |lang| ==> !IsSpace(lang[i])
  }

  lemma {:induction false} RunEndIs(text: string, p: nat, e: nat)
    requires p <= e < |text| && IsSpace(text[e]) && forall i :: p <= i < e ==> !IsSpace(text[i])
    ensures RunEnd(text, p) == e
  {
    var r := RunEnd(text, p);
    assert r < |text| ==> IsSpace(text[r]);
  }

  lemma LinePieces(lang: string)
    ensures var line := MarkerLine(lang);
            && |line| == 28 + |lang|
            && HasAt(line, 0, "\n" + MARKER) && HasAt(line, 17, " lang=")
            && HasAt(line, 23, lang) && HasAt(line, 23 + |lang|, " -->\n")
  {
    hide HasAt;
    Pieces("\n" + MARKER, " lang=", lang, " -->\n");
  }

  lemma LineHas(text: string, p: nat, lang: string)
    requires HasAt(text, p, MarkerLine(lang))
    ensures HasAt(text, p, "\n" + MARKER) && HasAt(text, p + 17, " lang=")
    ensures HasAt(text, p + 23, lang) && HasAt(text, p + 23 + |lang|, " -->\n")
  {
    hide HasAt, MarkerLine;
    var line := MarkerLine(lang);
    LinePieces(lang);
    HasWithin(text, p, line, 0, "\n" + MARKER);
    HasWithin(text, p, line, 17, " lang=");
    HasWithin(text, p, line, 23, lang);
    HasWithin(text, p, line, 23 + |lang|, " -->\n");
  }

  lemma MatchOf(text: string, p: nat, lang: string)
    requires LangOk(lang)
    requires HasAt(text, p, "\n" + MARKER) && HasAt(text, p + 17, " lang=")
    requires HasAt(text, p + 23, lang) && HasAt(text, p + 23 + |lang|, " -->\n")
    ensures MatchAt(text, p) == Some(Match(p, 28 + |lang|, Some(lang)))
  {
    hide RunEnd, HasAt;
    LangRun(text, p + 23, lang);
  }

  /** The marker line the renderer writes is one the parser matches. */
  lemma MarkerMatches(before: string, lang: string, rest: string)
    requires LangOk(lang)
    ensures MatchAt(before + MarkerLine(lang) + rest, |before|) == Some(Match(|before|, |MarkerLine(lang)|, Some(lang)))
  {
    hide HasAt, MarkerLine, LangOk, MatchAt;
    var text := before + MarkerLine(lang) + rest;
    LineLies(before, MarkerLine(lang), rest);
    LinePieces(lang);
    LineHas(text, |before|, lang);
    MatchOf(text, |before|, lang);
  }

  lemma LineLies(before: string, line: string, rest: string)
    ensures HasAt(before + line + rest, |before|, line)
  {
  }

  lemma LangRun(text: string, p: nat, lang: string)
    requires LangOk(lang) && HasAt(text, p, lang) && HasAt(text, p + |lang|, " -->\n")
    ensures RunEnd(text, p) == p + |lang| && text[p..p + |lang|] == lang && p + |lang| + 5 <= |text|
  {
    var e := p + |lang|;
    assert forall i :: p <= i < e ==> text[i] == text[p..e][i - p];
    HasAtIndex(text, e, " -->\n", 0);
    RunEndIs(text, p, e);
  }

  /** No marker in the content, read with the line break the renderer puts behind it. */
  predicate MarkerFree(m: Memory) {
    FindMarker(if HasOriginal(m) then m.content + "\n" else m.content, 0).None?
  }

  lemma FindMarkerIs(text: string, m: Match)
    requires MatchAt(text, m.at) == Some(m) && forall p :: 0 <= p < m.at ==> MatchAt(text, p) == None
    ensures FindMarker(text, 0) == Some(m)
  {
    hide MatchAt;
    MatchFits(text, m.at);
    var found := FindMarker(text, 0);
    assert found.Some?;
  }

  lemma MarkerIsContained(text: string, p: nat)
    requires MatchAt(text, p).Some?
    ensures Find(text, MARKER, 0).Some?
  {
    assert HasAt(text, p, "\n" + MARKER);
    assert text[p + 1..p + 17] == text[p..p + 17][1..];
    assert HasAt(text, p + 1, MARKER);
  }

  /** A body with a marker is split at the first one. */
  lemma BodySplits(frontmatter: map<string, string>, body: string, m: Match)
    requires FindMarker(body, 0) == Some(m)
    ensures m.at + m.length <= |body|
    ensures SplitBody(frontmatter, body)
         == Parsed(frontmatter, Trim(body[..m.at]), Some(Original(Trim(body[m.at + m.length..]), m.lang)))
  {
    hide MatchAt, Find, FindMarker, Trim;
    MatchFits(body, m.at);
    MarkerIsContained(body, m.at);
  }

  lemma BodyStays(frontmatter: map<string, string>, body: string)
    requires FindMarker(body, 0).None?
    ensures SplitBody(frontmatter, body) == Parsed(frontmatter, body, None)
  {
    hide FindMarker, Find;
  }

  /** With an original: the content's own markers are those of the content and its line break. */
  lemma FirstMarker(m: Memory)
    requires HasOriginal(m) && MarkerFree(m) && LangOk(MarkerLang(m))
    ensures FindMarker(Body(m), 0) == Some(Match(|m.content| + 1, |MarkerLine(MarkerLang(m))|, Some(MarkerLang(m))))
  {
    hide MatchAt;
    var text := m.content + "\n";
    var rest := MarkerLine(MarkerLang(m)) + m.contentOriginal.value;
    assert Body(m) == text + rest;
    assert Body(m) == text + MarkerLine(MarkerLang(m)) + m.contentOriginal.value;
    MarkerMatches(text, MarkerLang(m), m.contentOriginal.value);
    forall p | 0 <= p < |text| ensures MatchAt(Body(m), p) == None {
      if p < |m.content| {
        MatchIsLocal(text, rest, p);
      } else {
        NoMatchBeforeBreak(Body(m), p);
      }
    }
    FindMarkerIs(Body(m), Match(|text|, |MarkerLine(MarkerLang(m))|, Some(MarkerLang(m))));
  }

  lemma NoMatchBeforeBreak(text: string, p: nat)
    requires p + 1 < |text| && text[p + 1] == LF
    ensures MatchAt(text, p) == None
  {
    HasAtIndex(text, p, "\n" + MARKER, 1);
  }

  /** Content, original and language come back when no marker is in the way. */
  lemma BodyReadsBack(m: Memory, frontmatter: map<string, string>)
    requires Renderable(m) && MarkerFree(m) && (HasOriginal(m) ==> LangOk(MarkerLang(m)))
    ensures SplitBody(frontmatter, Body(m)) == Expected(m).(frontmatter := frontmatter)
  {
    hide FindMarker, SplitBody, Trim, MarkerLine, LangOk, Emitted, Fields;
    if HasOriginal(m) {
      var text := m.content + "\n";
      var lang := MarkerLang(m);
      FirstMarker(m);
      BodySplits(frontmatter, Body(m), Match(|text|, |MarkerLine(lang)|, Some(lang)));
      assert Body(m) == text + MarkerLine(lang) + m.contentOriginal.value;
      EndsOf(text, MarkerLine(lang), m.contentOriginal.value);
      TrimAlready(m.content);
      TrimAlready(m.contentOriginal.value);
    } else {
      BodyStays(frontmatter, Body(m));
    }
  }

  lemma EndsOf(a: string, b: string, c: string)
    ensures (a + b + c)[..|a|] == a && (a + b + c)[|a| + |b|..] == c
  {
  }

  lemma TrimAlready(s: string)
    requires Trimmed(s) && s != ""
    ensures Trim(s) == s && Trim(s + "\n") == s
  {
    TrimPadded("", s, "");
    TrimPadded("", s, "\n");
    assert "" + s + "" == s && "" + s + "\n" == s + "\n";
  }

  /** A marker in the content cuts the content short. */
  lemma MarkerCuts(m: Memory, frontmatter: map<string, string>)
    requires Renderable(m) && !MarkerFree(m)
    ensures SplitBody(frontmatter, Body(m)).content != m.content
  {
    hide SplitBody, Trim, MatchAt;
    var text := if HasOriginal(m) then m.content + "\n" else m.content;
    var own := FindMarker(text, 0).value;
    MatchIsLong(text, own.at);
    var rest := if HasOriginal(m) then MarkerLine(MarkerLang(m)) + m.contentOriginal.value else "";
    assert Body(m) == text + rest;
    if HasOriginal(m) {
      MatchIsLocal(text, rest, own.at);
    } else {
      assert text + rest == text;
    }
    var first := FindMarker(Body(m), 0);
    MatchFits(Body(m), own.at);
    assert first.Some? && first.value.at <= own.at;
    BodySplits(frontmatter, Body(m), first.value);
    TrimShortens(Body(m)[..first.value.at]);
  }

  lemma MatchIsLong(text: string, p: nat)
    requires MatchAt(text, p).Some?
    ensures p + 22 <= |text|
  {
  }

  /** A language the marker cannot carry does not come back. */
  lemma LangIsLost(m: Memory, frontmatter: map<string, string>)
    requires HasOriginal(m) && !LangOk(MarkerLang(m))
    ensures SplitBody(frontmatter, Body(m)).original != Some(Original(m.contentOriginal.value, Some(MarkerLang(m))))
  {
    hide Trim, MatchAt, Find;
    var found := FindMarker(Body(m), 0);
    if found.Some? {
      MatchFits(Body(m), found.value.at);
    }
  }

  // ---- Main results --------------------------------------------------------------------------

  lemma RenderSplits(m: Memory)
    requires Renderable(m)
    ensures Parse(Render(m)) == SplitBody(Emitted(Fields(m)), Body(m))
  {
    hide Join, LinesOf, Split, Ending, SplitFrontmatter, SplitBody, Collected, Emitted, Body, Trim, Fields;
    var lines := LinesOf(Fields(m));
    FieldKeysOk(m);
    LinesArePlain(Fields(m));
    FrontmatterSplits(lines, Body(m));
    BlockReadsBack(Fields(m));
    BodyIsTrimmed(m);
    TrimPadded("\n", Body(m), "\n");
  }

  lemma BodyIsTrimmed(m: Memory)
    requires Renderable(m)
    ensures Trimmed(Body(m)) && Body(m) != ""
  {
  }

  /** Parsing a rendered memory recovers every emitted scalar, the content and the
      original with its language, whatever `---` lines the body holds, exactly when
      the content holds no marker and the language is one word. */
  lemma RoundTrip(m: Memory)
    requires Renderable(m)
    ensures Parse(Render(m)) == Expected(m) <==> MarkerFree(m) && (HasOriginal(m) ==> LangOk(MarkerLang(m)))
  {
    hide Parse, Render, SplitBody, Body, Emitted, Fields, MarkerFree, LangOk, Renderable;
    RenderSplits(m);
    if !MarkerFree(m) {
      MarkerCuts(m, Emitted(Fields(m)));
    } else if HasOriginal(m) && !LangOk(MarkerLang(m)) {
      LangIsLost(m, Emitted(Fields(m)));
    } else {
      BodyReadsBack(m, Emitted(Fields(m)));
    }
  }

  lemma {:induction false} EmittedAt(fields: seq<(string, string)>, i: nat)
    requires i < |fields| && forall j :: i < j < |fields| ==> fields[j].0 != fields[i].0
    ensures fields[i].1 != "" ==> fields[i].0 in Emitted(fields) && Emitted(fields)[fields[i].0] == fields[i].1
    decreases |fields|
  {
    if i != |fields| - 1 {
      var before := fields[..|fields| - 1];
      assert before[i] == fields[i];
      EmittedAt(before, i);
    }
  }

  lemma {:induction false} EmittedOnly(fields: seq<(string, string)>, key: string)
    requires key in Emitted(fields)
    ensures exists i :: 0 <= i < |fields| && fields[i].0 == key && fields[i].1 != ""
    decreases |fields|
  {
    var before, last := fields[..|fields| - 1], fields[|fields| - 1];
    if last.1 != "" && last.0 == key {
      assert fields[|fields| - 1].0 == key;
    } else {
      EmittedOnly(before, key);
      var i :| 0 <= i < |before| && before[i].0 == key && before[i].1 != "";
      assert fields[i] == before[i];
    }
  }

  /** The frontmatter holds each non-empty field under its key, and no other key. */
  lemma FieldsRecovered(m: Memory, i: nat)
    requires Renderable(m) && i < |Fields(m)|
    ensures var (key, value) := Fields(m)[i];
            var frontmatter := Parse(Render(m)).frontmatter;
            if value != "" then key in frontmatter && frontmatter[key] == value else key !in frontmatter
    ensures forall key :: key in Parse(Render(m)).frontmatter ==>
              exists j :: 0 <= j < |Fields(m)| && Fields(m)[j].0 == key
  {
    hide Parse, Render, Body, Emitted, Renderable, MatchAt, Find, Trim;
    RenderSplits(m);
    var f := Fields(m);
    DistinctKeys(m);
    EmittedAt(f, i);
    forall key | key in Emitted(f) ensures exists j :: 0 <= j < |f| && f[j].0 == key && f[j].1 != "" {
      EmittedOnly(f, key);
    }
  }

  lemma DistinctKeys(m: Memory)
    ensures forall i, j :: 0 <= i < j < |Fields(m)| ==> Fields(m)[i].0 != Fields(m)[j].0
  {
  }

  /** A scalar that is in the frontmatter under its key, or empty and not there. */
  ghost predicate Carries(frontmatter: map<string, string>, key: string, value: string) {
    if value != "" then key in frontmatter && frontmatter[key] == value else key !in frontmatter
  }

  /** Which scalar comes back under which key. */
  lemma FrontmatterIs(m: Memory)
    requires Renderable(m)
    ensures var f := Parse(Render(m)).frontmatter;
            && Carries(f, "id", m.id) && Carries(f, "kind", m.kind) && Carries(f, "scope", m.scope)
            && Carries(f, "visibility", m.visibility)
            && Carries(f, "lang", if m.contentLang.Some? then m.contentLang.value else "en")
            && Carries(f, "created_at", m.createdAt) && Carries(f, "author_kind", m.authorKind)
            && Carries(f, "agent_name", if m.agentName.Some? then m.agentName.value else "")
            && Carries(f, "superseded_by", if m.supersededBy.Some? then m.supersededBy.value else "")
            && Carries(f, "invalidated_at", if m.invalidatedAt.Some? then m.invalidatedAt.value else "")
            && Carries(f, "source", if m.source.Some? then m.source.value else "")
  {
    hide Parse, Render, Renderable;
    forall i | 0 <= i < |Fields(m)| ensures Carries(Parse(Render(m)).frontmatter, Fields(m)[i].0, Fields(m)[i].1) {
      FieldsRecovered(m, i);
    }
    assert Fields(m)[0] == ("id", m.id) && Fields(m)[1] == ("kind", m.kind) && Fields(m)[2] == ("scope", m.scope);
    assert Fields(m)[3].0 == "visibility" && Fields(m)[4].0 == "lang" && Fields(m)[5].0 == "created_at";
    assert Fields(m)[6].0 == "author_kind" && Fields(m)[7].0 == "agent_name" && Fields(m)[8].0 == "superseded_by";
    assert Fields(m)[9].0 == "invalidated_at" && Fields(m)[10].0 == "source";
  }

  /** A line of the file, or none for an empty value. */
  function Shown(key: string, value: string): seq<string> {
    if value == "" then [] else [key + ": " + value]
  }

  /** The whole file: its lines in their order, and the original behind its marker. */
  lemma RenderIs(m: Memory)
    ensures Render(m) ==
            "---\n" + Join(Shown("id", m.id) + Shown("kind", m.kind) + Shown("scope", m.scope)
                           + Shown("visibility", m.visibility)
                           + Shown("lang", if m.contentLang.Some? then m.contentLang.value else "en")
                           + Shown("created_at", m.createdAt) + Shown("author_kind", m.authorKind)
                           + Shown("agent_name", if m.agentName.Some? then m.agentName.value else "")
                           + Shown("superseded_by", if m.supersededBy.Some? then m.supersededBy.value else "")
                           + Shown("invalidated_at", if m.invalidatedAt.Some? then m.invalidatedAt.value else "")
                           + Shown("source", if m.source.Some? then m.source.value else ""), "\n")
            + "\n---" + ("\n\n"
            + (if m.contentOriginal.Some? && m.contentOriginal.value != ""
               then m.content + "\n\n<!-- zm:original lang="
                    + (if m.contentLang.Some? then m.contentLang.value else "unknown") + " -->\n"
                    + m.contentOriginal.value
               else m.content) + "\n")
  {
    LinesShown(m);
    if HasOriginal(m) {
      OriginalShown(m.content, MarkerLang(m), m.contentOriginal.value);
    }
  }

  lemma OriginalShown(content: string, lang: string, original: string)
    ensures content + "\n" + MarkerLine(lang) + original
         == content + "\n\n<!-- zm:original lang=" + lang + " -->\n" + original
  {
    assert "\n" + ("\n" + MARKER + " lang=") == "\n\n<!-- zm:original lang=";
    assert content + "\n" + MarkerLine(lang) == content + ("\n" + ("\n" + MARKER + " lang=")) + lang + " -->\n";
  }

  lemma LinesUpTo(fields: seq<(string, string)>, k: nat, key: string, value: string)
    requires k < |fields| && fields[k] == (key, value)
    ensures LinesOf(fields[..k + 1]) == LinesOf(fields[..k]) + Shown(key, value)
  {
    assert fields[..k + 1] == fields[..k] + [fields[k]];
    LinesSnoc(fields[..k], fields[k]);
  }

  lemma LinesShown(m: Memory)
    ensures LinesOf(Fields(m))
         == Shown("id", m.id) + Shown("kind", m.kind) + Shown("scope", m.scope) + Shown("visibility", m.visibility)
            + Shown("lang", OrElse(m.contentLang, "en")) + Shown("created_at", m.createdAt)
            + Shown("author_kind", m.authorKind) + Shown("agent_name", OrElse(m.agentName, ""))
            + Shown("superseded_by", OrElse(m.supersededBy, "")) + Shown("invalidated_at", OrElse(m.invalidatedAt, ""))
            + Shown("source", OrElse(m.source, ""))
  {
    hide LinesOf, Shown, OrElse;
    var f := Fields(m);
    NoLinesOf(f[..0]);
    LinesUpTo(f, 0, "id", m.id);
    LinesUpTo(f, 1, "kind", m.kind);
    LinesUpTo(f, 2, "scope", m.scope);
    LinesUpTo(f, 3, "visibility", m.visibility);
    LinesUpTo(f, 4, "lang", OrElse(m.contentLang, "en"));
    LinesUpTo(f, 5, "created_at", m.createdAt);
    LinesUpTo(f, 6, "author_kind", m.authorKind);
    LinesUpTo(f, 7, "agent_name", OrElse(m.agentName, ""));
    LinesUpTo(f, 8, "superseded_by", OrElse(m.supersededBy, ""));
    LinesUpTo(f, 9, "invalidated_at", OrElse(m.invalidatedAt, ""));
    LinesUpTo(f, 10, "source", OrElse(m.source, ""));
    assert f[..11] == f;
    assert [] + Shown("id", m.id) == Shown("id", m.id);
  }

  lemma NoLinesOf(fields: seq<(string, string)>)
    requires fields == []
    ensures LinesOf(fields) == []
  {
  }

  /** A file without a frontmatter block, because it does not open one or never
      closes it, is all body. */
  lemma NoFrontmatter(raw: string)
    requires !HasAt(raw, 0, "---\n") || forall close :: 4 <= close ==> !HasAt(raw, close, "\n---")
    ensures Parse(raw) == SplitBody(map[], Trim(raw))
    ensures FindMarker(Trim(raw), 0).None? ==> Parse(raw) == Parsed(map[], Trim(raw), None)
  {
    hide FindMarker, Trim, MatchAt, HasAt;
    BodyStaysWhole(map[], Trim(raw));
  }

  lemma BodyStaysWhole(frontmatter: map<string, string>, body: string)
    ensures FindMarker(body, 0).None? ==> SplitBody(frontmatter, body) == Parsed(frontmatter, body, None)
  {
    hide FindMarker, Find;
  }

  lemma BareMarkerMatches(text: string, p: nat)
    requires HasAt(text, p, "\n" + MARKER) && HasAt(text, p + 17, " -->\n")
    ensures MatchAt(text, p) == Some(Match(p, 22, None))
  {
    hide RunEnd;
    HasAtIndex(text, p + 17, " -->\n", 1);
    HasAtIndex(text, p + 17, " lang=", 1);
  }

  /** A file written by hand whose marker names no language: content and original come
      apart at it all the same. */
  lemma BareMarkerReads(frontmatter: map<string, string>, content: string, original: string)
    requires Trimmed(content) && content != "" && Trimmed(original) && original != ""
    requires FindMarker(content + "\n", 0).None?
    ensures SplitBody(frontmatter, content + "\n" + ("\n" + MARKER + " -->\n") + original)
         == Parsed(frontmatter, content, Some(Original(original, None)))
  {
    hide HasAt, RunEnd, MatchAt, FindMarker, SplitBody, Trim;
    var text, line := content + "\n", "\n" + MARKER + " -->\n";
    var body := text + line + original;
    Pieces(text, "\n" + MARKER, " -->\n", original);
    assert text + ("\n" + MARKER) + " -->\n" + original == body;
    BareMarkerMatches(body, |text|);
    assert body == text + (line + original);
    forall p | 0 <= p < |text| ensures MatchAt(body, p) == None {
      if p < |content| {
        MatchIsLocal(text, line + original, p);
        NotFound(text, p);
      } else {
        NoMatchBeforeBreak(body, p);
      }
    }
    FindMarkerIs(body, Match(|text|, 22, None));
    BodySplits(frontmatter, body, Match(|text|, 22, None));
    EndsOf(text, line, original);
    TrimAlready(content);
    TrimAlready(original);
  }

  lemma NotFound(text: string, p: nat)
    requires FindMarker(text, 0).None? && p <= |text|
    ensures MatchAt(text, p) == None
  {
    hide MatchAt;
  }

  /** A line that is read starts with its key, of small letters and underscores, and a
      colon; any other line says nothing. */
  lemma ReadLineNeedsKey(line: string)
    ensures ReadLine(line).Some? ==>
              var (key, value) := ReadLine(line).value;
              && key != "" && |key| < |line| && line[..|key|] == key && line[|key|] == ':' && value != ""
              && forall i :: 0 <= i < |key| ==> 'a' <= key[i] <= 'z' || key[i] == '_'
  {
    hide Trim;
    var k := KeyEnd(line);
    if ReadLine(line).Some? && !Blank(line[k + 1..]) {
      TrimHolds(line[k + 1..]);
    }
  }

  /** Of two lines with one key the later counts. */
  lemma LaterLineCounts(lines: seq<string>, key: string, value: string)
    requires Key(key) && Scalar(value) && value != ""
    ensures var out := Collected(lines + [key + ": " + value]);
            && key in out && out[key] == value
            && forall other :: other != key ==>
                 (other in out <==> other in Collected(lines))
                 && (other in out ==> out[other] == Collected(lines)[other])
  {
    hide ReadLine;
    var line := key + ": " + value;
    LineReadsBack(key, " ", value, "");
    assert (lines + [line])[..|lines|] == lines;
  }

  // ---- Memories that do not come back ----------------------------------------------------------

  const PLAIN := Memory("mem_1", "a", None, None, "fact", "p", "private", "agent", None, None, None, None, "2026")

  const MARKED := "a" + ("\n" + MARKER) + " -->\n" + "b"

  lemma MarkedHasMarker()
    ensures FindMarker(MARKED, 0).Some? && Trimmed(MARKED) && MARKED != ""
  {
    hide FindMarker, RunEnd, HasAt;
    Pieces("a", "\n" + MARKER, " -->\n", "b");
    HasAtIndex(MARKED, 18, " -->\n", 1);
    HasAtIndex(MARKED, 18, " lang=", 1);
    assert MatchAt(MARKED, 1).Some?;
  }

  /** A content with a marker line in it is cut short. */
  lemma MarkerInContentIsLost()
    ensures var m := PLAIN.(content := MARKED); Renderable(m) && Parse(Render(m)) != Expected(m)
  {
    hide FindMarker, Parse, Render, Expected, Trimmed, Renderable;
    var m := PLAIN.(content := MARKED);
    MarkedHasMarker();
    PlainIsRenderable(m);
    RoundTrip(m);
  }

  /** An original whose language is two words does not come back with it. */
  lemma TwoWordLanguageIsLost()
    ensures var m := PLAIN.(contentOriginal := Some("b"), contentLang := Some("pt br"));
            Renderable(m) && Parse(Render(m)) != Expected(m)
  {
    var m := PLAIN.(contentOriginal := Some("b"), contentLang := Some("pt br"));
    PlainIsRenderable(m);
    assert IsSpace("pt br"[2]);
    hide FindMarker, Parse, Render, Expected, Renderable;
    RoundTrip(m);
  }

  lemma PlainIsRenderable(m: Memory)
    requires m == PLAIN.(content := m.content, contentOriginal := m.contentOriginal, contentLang := m.contentLang)
    requires m.content != "" && Trimmed(m.content) && (m.contentLang.Some? ==> Scalar(m.contentLang.value))
    requires m.contentOriginal.Some? ==> Trimmed(m.contentOriginal.value)
    ensures Renderable(m)
  {
    assert Scalar("") && Scalar("mem_1") && Scalar("fact") && Scalar("p") && Scalar("private") && Scalar("agent");
    assert Scalar("2026") && Scalar("en");
    hide Scalar, Trimmed;
  }

  // ---- What a re-export shows --------------------------------------------------------------------

  /** A memory whose source came back from the database with its keys in another
      order, at any depth, renders to the same file. */
  lemma ReexportIsIdentical(m: Memory, quote: J.Quote, before: J.Json, after: J.Json)
    requires J.WellKeyed(before) && J.WellKeyed(after) && J.Same(before, after)
    ensures Render(m.(source := SourceText(quote, before))) == Render(m.(source := SourceText(quote, after)))
  {
    J.KeyOrderIsInvisible(quote, before, after);
    if before.Object? {
      MembersAlike(before.members, after.members);
    }
  }

  lemma MembersAlike(a: seq<J.Member>, b: seq<J.Member>)
    requires forall k :: k in J.Keys(a) <==> k in J.Keys(b)
    ensures a == [] <==> b == []
  {
    if a != [] {
      assert J.Keys(a)[0] in J.Keys(b);
    }
    if b != [] {
      assert J.Keys(b)[0] in J.Keys(a);
    }
  }

  /** The fields before the source. */
  function BeforeSource(m: Memory): seq<(string, string)> {
    Fields(m)[..10]
  }

  /** The file up to the source's text, and from its end on. */
  function UpToSource(m: Memory): string {
    var lines := LinesOf(BeforeSource(m));
    "---\n" + (if lines == [] then "" else Join(lines, [LF]) + [LF]) + "source: "
  }

  lemma RenderAroundSource(m: Memory, text: string)
    requires text != ""
    ensures Render(m.(source := Some(text))) == UpToSource(m) + text + ("\n---" + Ending(Body(m)))
  {
    var n := m.(source := Some(text));
    var lines, line := LinesOf(BeforeSource(m)), LineOf(("source", text));
    assert Fields(n) == BeforeSource(m) + [("source", text)];
    LinesSnoc(BeforeSource(m), ("source", text));
    var head := if lines == [] then "" else Join(lines, [LF]) + [LF];
    assert Join(LinesOf(Fields(n)), [LF]) == head + line by {
      if lines == [] {
        assert lines + [line] == [line];
        assert "" + line == line;
      } else {
        JoinConcat(lines, [line], [LF]);
      }
    }
    assert Body(n) == Body(m);
    SourceTextLast(head, text, "\n---" + Ending(Body(m)));
    Regroup("---\n" + (head + line), "\n---", Ending(Body(m)));
  }

  lemma SourceTextLast(head: string, text: string, tail: string)
    ensures "---\n" + (head + LineOf(("source", text))) + tail == "---\n" + head + "source: " + text + tail
  {
    assert LineOf(("source", text)) == "source: " + text;
    Regroup("---\n", head, "source: " + text);
    Regroup("---\n" + head, "source: ", text);
  }

  lemma Regroup(a: string, b: string, c: string)
    ensures a + b + c == a + (b + c)
  {
  }

  lemma MiddleIs(before: string, x: string, y: string, after: string)
    requires before + x + after == before + y + after
    ensures x == y
  {
    assert (before + x + after)[|before|..|before| + |x|] == x;
    assert (before + y + after)[|before|..|before| + |y|] == y;
  }

  /** Of two exports of a memory with a source, as a database column holds it, the
      files are equal if and only if the sources are the same JSON: key order makes
      no diff, and nothing else escapes it. */
  lemma DiffShowsSource(m: Memory, quote: J.Quote, before: J.Json, after: J.Json)
    requires I.Quoting(quote) && I.Proper(before) && I.Proper(after) && I.Solid(before) && I.Solid(after)
    requires SourceText(quote, before).Some? && SourceText(quote, after).Some?
    ensures Render(m.(source := SourceText(quote, before))) == Render(m.(source := SourceText(quote, after)))
            <==> J.Same(before, after)
  {
    hide Render, UpToSource, Ending, Body, J.Stable, J.Same, I.Quoting, I.Proper, I.Solid;
    var x, y := SourceText(quote, before).value, SourceText(quote, after).value;
    I.EqualTextsOfSolid(quote, before, after);
    SourceIsNotEmpty(quote, before);
    SourceIsNotEmpty(quote, after);
    RenderAroundSource(m, x);
    RenderAroundSource(m, y);
    if Render(m.(source := Some(x))) == Render(m.(source := Some(y))) {
      MiddleIs(UpToSource(m), x, y, "\n---" + Ending(Body(m)));
    }
  }

  lemma SourceIsNotEmpty(quote: J.Quote, source: J.Json)
    requires I.Quoting(quote) && I.Proper(source) && SourceText(quote, source).Some?
    ensures SourceText(quote, source) == Some(J.Stable(quote, source)) && J.Stable(quote, source) != ""
  {
    I.FirstTells(quote, source);
  }
}

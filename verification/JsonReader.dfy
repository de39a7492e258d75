/** A reader of the JSON grammar (RFC 8259, without white space between tokens), and
    that the sorted-key text of apps/web/lib/markdown-memory.ts reads back as its value. */
module JsonReader {
  import opened Outcomes
  import opened OrderedMaps
  import opened Strings
  import opened StableJson
  import opened StableJsonInverse

  /** Reads a string literal off the front of a text. */
  type Unquote = string -> Option<(string, string)>

  type Reading<T> = Option<(T, string)>

  // ---- The grammar ---------------------------------------------------------------------

  function ReadValue(unquote: Unquote, text: string): (r: Reading<Json>)
    ensures r.Some? ==> |r.value.1| < |text|
    decreases |text|, 1
  {
    if HasAt(text, 0, "null") then Some((Null, text[4..]))
    else if HasAt(text, 0, "true") then Some((Bool(true), text[4..]))
    else if HasAt(text, 0, "false") then Some((Bool(false), text[5..]))
    else if text == "" then None
    else if text[0] == '\"' then
      match ReadString(unquote, text)
      case None => None
      case Some((s, rest)) => Some((Text(s), rest))
    else if NumberChar(text[0]) then
      var end := NumberEnd(text);
      Some((Number(text[..end]), text[end..]))
    else if text[0] == '[' then
      if HasAt(text, 1, "]") then Some((Array([]), text[2..]))
      else
        match ReadItems(unquote, text[1..])
        case None => None
        case Some((items, rest)) => Some((Array(items), rest))
    else if text[0] == '{' then
      if HasAt(text, 1, "}") then Some((Object([]), text[2..]))
      else
        match ReadMembers(unquote, text[1..])
        case None => None
        case Some((members, rest)) => Some((Object(members), rest))
    else None
  }

  function NumberEnd(text: string): (end: nat)
    ensures end <= |text|
    ensures text != "" && NumberChar(text[0]) ==> 0 < end
    decreases |text|
  {
    if text != "" && NumberChar(text[0]) then 1 + NumberEnd(text[1..]) else 0
  }

  function ReadString(unquote: Unquote, text: string): (r: Reading<string>)
    ensures r.Some? ==> |r.value.1| < |text|
  {
    match unquote(text)
    case None => None
    case Some((s, rest)) => if |rest| < |text| then Some((s, rest)) else None
  }

  /** A value, and then a comma with more of them or the closing bracket. */
  function ReadItems(unquote: Unquote, text: string): (r: Reading<seq<Json>>)
    ensures r.Some? ==> |r.value.1| < |text|
    decreases |text|, 2
  {
    match ReadValue(unquote, text)
    case None => None
    case Some((v, rest)) =>
      if HasAt(rest, 0, "]") then Some(([v], rest[1..]))
      else if HasAt(rest, 0, ",") then
        match ReadItems(unquote, rest[1..])
        case None => None
        case Some((more, after)) => Some(([v] + more, after))
      else None
  }

  /** A string, a colon, a value, and then a comma with more or the closing brace. */
  function ReadMembers(unquote: Unquote, text: string): (r: Reading<seq<Member>>)
    ensures r.Some? ==> |r.value.1| < |text|
    decreases |text|, 2
  {
    match ReadString(unquote, text)
    case None => None
    case Some((key, colon)) =>
      if !HasAt(colon, 0, ":") then None
      else
        match ReadValue(unquote, colon[1..])
        case None => None
        case Some((v, rest)) =>
          if HasAt(rest, 0, "}") then Some(([Member(key, v)], rest[1..]))
          else if HasAt(rest, 0, ",") then
            match ReadMembers(unquote, rest[1..])
            case None => None
            case Some((more, after)) => Some(([Member(key, v)] + more, after))
          else None
  }

  // ---- Reading back ----------------------------------------------------------------------

  /** What `unquote` is to `quote`: whatever follows, it reads the string back. */
  ghost predicate Unquotes(quote: Quote, unquote: Unquote) {
    && (forall s :: quote(s) != "" && quote(s)[0] == '\"')
    && (forall s, rest :: unquote(quote(s) + rest) == Some((s, rest)))
  }

  /** Read off the front of any text it may stand in, `v` gives the same JSON. */
  ghost predicate ReadsBack(quote: Quote, unquote: Unquote, v: Json) {
    forall rest :: Delimited(rest) ==> Gives(unquote, Stable(quote, v) + rest, v, rest)
  }

  ghost predicate Gives(unquote: Unquote, text: string, v: Json, rest: string) {
    var r := ReadValue(unquote, text);
    r.Some? && r.value.1 == rest && WellKeyed(r.value.0) && Same(v, r.value.0)
  }

  lemma StringReads(quote: Quote, unquote: Unquote, s: string, rest: string)
    requires Unquotes(quote, unquote)
    ensures ReadString(unquote, quote(s) + rest) == Some((s, rest))
    ensures quote(s) + rest != "" && (quote(s) + rest)[0] == '\"'
  {
  }

  lemma {:induction false} NumberEndIs(number: string, rest: string)
    requires (forall i :: 0 <= i < |number| ==> NumberChar(number[i])) && Delimited(rest)
    ensures NumberEnd(number + rest) == |number|
    decreases |number|
  {
    if number == "" {
      assert number + rest == rest;
    } else {
      assert (number + rest)[1..] == number[1..] + rest;
      NumberEndIs(number[1..], rest);
    }
  }

  /** No word starts with another kind of character. */
  lemma NotAWord(text: string)
    requires text != "" && (text[0] == '\"' || text[0] == '[' || text[0] == '{' || NumberChar(text[0]))
    ensures !HasAt(text, 0, "null") && !HasAt(text, 0, "true") && !HasAt(text, 0, "false")
  {
    HasAtIndex(text, 0, "null", 0);
    HasAtIndex(text, 0, "true", 0);
    HasAtIndex(text, 0, "false", 0);
  }

  lemma WordsRead(unquote: Unquote, rest: string)
    ensures ReadValue(unquote, "null" + rest) == Some((Null, rest))
    ensures ReadValue(unquote, "true" + rest) == Some((Bool(true), rest))
    ensures ReadValue(unquote, "false" + rest) == Some((Bool(false), rest))
  {
    assert ("null" + rest)[4..] == rest && ("true" + rest)[4..] == rest && ("false" + rest)[5..] == rest;
    HasAtIndex("true" + rest, 0, "null", 0);
    HasAtIndex("false" + rest, 0, "null", 0);
    HasAtIndex("false" + rest, 0, "true", 0);
  }

  lemma NumberReads(unquote: Unquote, number: string, rest: string)
    requires NumberText(number) && Delimited(rest)
    ensures ReadValue(unquote, number + rest) == Some((Number(number), rest))
  {
    var text := number + rest;
    assert text[0] == number[0];
    NotAWord(text);
    NumberEndIs(number, rest);
  }

  lemma TextReads(quote: Quote, unquote: Unquote, s: string, rest: string)
    requires Unquotes(quote, unquote)
    ensures ReadValue(unquote, quote(s) + rest) == Some((Text(s), rest))
  {
    StringReads(quote, unquote, s, rest);
    NotAWord(quote(s) + rest);
  }

  /** What stands behind a list's first part decides how the reader goes on. */
  lemma AfterPart(parts: seq<string>, close: char, rest: string)
    requires parts != [] && close != ','
    ensures var r := Rest(parts, [close] + rest);
            && r != "" && (HasAt(r, 0, [close]) <==> |parts| == 1) && (HasAt(r, 0, ",") <==> |parts| > 1)
            && (|parts| == 1 ==> r[1..] == rest)
            && (|parts| > 1 ==> r[1..] == Join(parts[1..], ",") + ([close] + rest))
  {
    var r := Rest(parts, [close] + rest);
    HasAtIndex(r, 0, [close], 0);
    HasAtIndex(r, 0, ",", 0);
  }

  lemma {:induction false} ItemsReadBack(quote: Quote, unquote: Unquote, items: seq<Json>, rest: string)
    requires items != [] && forall i :: 0 <= i < |items| ==> ReadsBack(quote, unquote, items[i])
    ensures var r := ReadItems(unquote, Join(ItemTexts(quote, items), ",") + ("]" + rest));
            && r.Some? && r.value.1 == rest && |r.value.0| == |items|
            && forall i :: 0 <= i < |items| ==> WellKeyed(r.value.0[i]) && Same(items[i], r.value.0[i])
    decreases |items|
  {
    hide Stable, Join, Same, WellKeyed, ReadValue, HasAt;
    var parts := ItemTexts(quote, items);
    JoinHead(parts, "]" + rest);
    AfterPart(parts, ']', rest);
    RestIsDelimited(parts, rest, ']');
    assert Gives(unquote, parts[0] + Rest(parts, "]" + rest), items[0], Rest(parts, "]" + rest));
    if |items| > 1 {
      assert parts[1..] == ItemTexts(quote, items[1..]);
      ItemsReadBack(quote, unquote, items[1..], rest);
    }
  }

  lemma {:induction false} MembersReadBack(quote: Quote, unquote: Unquote, members: seq<Member>, rest: string)
    requires Unquotes(quote, unquote)
    requires members != [] && forall i :: 0 <= i < |members| ==> ReadsBack(quote, unquote, members[i].value)
    ensures var r := ReadMembers(unquote, Join(EntryTexts(quote, members), ",") + ("}" + rest));
            && r.Some? && r.value.1 == rest && Keys(r.value.0) == Keys(members) && |r.value.0| == |members|
            && forall i :: 0 <= i < |members| ==>
                 WellKeyed(r.value.0[i].value) && Same(members[i].value, r.value.0[i].value)
    decreases |members|
  {
    hide Stable, Join, Same, WellKeyed, ReadValue, ReadMembers, HasAt, Unquotes, ReadsBack, EntryText, Gives;
    var parts := EntryTexts(quote, members);
    var m := members[0];
    var behind := Rest(parts, "}" + rest);
    JoinHead(parts, "}" + rest);
    AfterPart(parts, '}', rest);
    RestIsDelimited(parts, rest, '}');
    var colon := MemberReads(quote, unquote, m, behind);
    GivesOne(unquote, colon[1..], m.value, behind);
    var v := ReadValue(unquote, colon[1..]).value.0;
    MembersUnfold(unquote, parts[0] + behind, m.key, colon, v, behind);
    if |members| > 1 {
      assert parts[1..] == EntryTexts(quote, members[1..]);
      MembersReadBack(quote, unquote, members[1..], rest);
      MoreKeys(Member(m.key, v), ReadMembers(unquote, behind[1..]).value.0, members);
    }
  }

  lemma GivesOne(unquote: Unquote, text: string, v: Json, rest: string)
    requires Gives(unquote, text, v, rest)
    ensures var r := ReadValue(unquote, text);
            r.Some? && r.value.1 == rest && WellKeyed(r.value.0) && Same(v, r.value.0)
  {
  }

  lemma MoreKeys(m: Member, more: seq<Member>, members: seq<Member>)
    requires members != [] && m.key == members[0].key && Keys(more) == Keys(members[1..])
    ensures Keys([m] + more) == Keys(members)
  {
    hide Keys;
    KeysCons(m, more);
    KeysCons(members[0], members[1..]);
    assert members == [members[0]] + members[1..];
  }

  lemma KeysCons(m: Member, more: seq<Member>)
    ensures Keys([m] + more) == [m.key] + Keys(more)
  {
  }

  lemma MemberReads(quote: Quote, unquote: Unquote, m: Member, behind: string) returns (colon: string)
    requires Unquotes(quote, unquote) && ReadsBack(quote, unquote, m.value) && Delimited(behind)
    ensures ReadString(unquote, EntryText(quote, m) + behind) == Some((m.key, colon))
    ensures colon != "" && HasAt(colon, 0, ":") && Gives(unquote, colon[1..], m.value, behind)
  {
    hide Stable, HasAt, Unquotes, ReadString, Gives;
    colon := ":" + (Stable(quote, m.value) + behind);
    EntrySplits(quote, m, behind);
    StringReads(quote, unquote, m.key, colon);
    ColonStarts(Stable(quote, m.value) + behind);
  }

  lemma MembersUnfold(unquote: Unquote, text: string, key: string, colon: string, v: Json, rest: string)
    requires ReadString(unquote, text) == Some((key, colon)) && HasAt(colon, 0, ":")
    requires ReadValue(unquote, colon[1..]) == Some((v, rest))
    ensures HasAt(rest, 0, "}") ==> ReadMembers(unquote, text) == Some(([Member(key, v)], rest[1..]))
    ensures !HasAt(rest, 0, "}") && HasAt(rest, 0, ",") && ReadMembers(unquote, rest[1..]).Some? ==>
              var (more, after) := ReadMembers(unquote, rest[1..]).value;
              ReadMembers(unquote, text) == Some(([Member(key, v)] + more, after))
  {
    hide ReadString, ReadValue;
  }

  lemma EntrySplits(quote: Quote, m: Member, behind: string)
    ensures EntryText(quote, m) + behind == quote(m.key) + (":" + (Stable(quote, m.value) + behind))
  {
  }

  lemma ColonStarts(text: string)
    ensures HasAt(":" + text, 0, ":") && (":" + text)[1..] == text
  {
  }

  /** How a bracketed text starts and goes on. */
  lemma Opened(open: char, body: string, close: string, rest: string)
    ensures var text := [open] + body + close + rest;
            text[0] == open && text[1..] == body + (close + rest)
  {
  }

  lemma ArrayReads(quote: Quote, unquote: Unquote, items: seq<Json>, rest: string)
    requires Unquotes(quote, unquote) && WellKeyed(Array(items)) && Solid(Array(items)) && PlainNumbers(Array(items))
    requires forall i :: 0 <= i < |items| ==> ReadsBack(quote, unquote, items[i])
    ensures Gives(unquote, Stable(quote, Array(items)) + rest, Array(items), rest)
  {
    var body := Join(ItemTexts(quote, items), ",");
    ArrayText(quote, items);
    Opened('[', body, "]", rest);
    var text := Stable(quote, Array(items)) + rest;
    assert text == "[" + body + "]" + rest;
    NotAWord(text);
    if items == [] {
      assert text[2..] == rest;
    } else {
      ItemsReadBack(quote, unquote, items, rest);
      FirstItem(quote, items, rest);
      StartsBehind(text, "]");
      hide Stable, Join;
    }
  }

  lemma StartsBehind(text: string, mark: string)
    requires text != "" && |mark| == 1
    ensures HasAt(text, 1, mark) <==> HasAt(text[1..], 0, mark)
  {
    if |text| > 1 {
      assert text[1..2] == text[1..][0..1];
    }
  }

  lemma FirstItem(quote: Quote, items: seq<Json>, rest: string)
    requires items != [] && !items[0].Undefined? && PlainNumbers(items[0])
    requires forall s :: quote(s) != "" && quote(s)[0] == '\"'
    ensures !HasAt(Join(ItemTexts(quote, items), ",") + ("]" + rest), 0, "]")
  {
    var parts := ItemTexts(quote, items);
    JoinHead(parts, "]" + rest);
    assert parts[0] != "" && parts[0][0] != ']';
    HasAtIndex(parts[0] + Rest(parts, "]" + rest), 0, "]", 0);
  }

  lemma FirstEntry(quote: Quote, members: seq<Member>, rest: string)
    requires members != [] && forall s :: quote(s) != "" && quote(s)[0] == '\"'
    ensures !HasAt(Join(EntryTexts(quote, members), ",") + ("}" + rest), 0, "}")
  {
    hide Stable;
    var parts := EntryTexts(quote, members);
    JoinHead(parts, "}" + rest);
    assert parts[0] != "" && parts[0][0] == '\"';
    HasAtIndex(parts[0] + Rest(parts, "}" + rest), 0, "}", 0);
  }

  lemma ObjectReads(quote: Quote, unquote: Unquote, members: seq<Member>, rest: string)
    requires Unquotes(quote, unquote) && WellKeyed(Object(members)) && Solid(Object(members))
    requires forall i :: 0 <= i < |members| ==> ReadsBack(quote, unquote, members[i].value)
    ensures Gives(unquote, Stable(quote, Object(members)) + rest, Object(members), rest)
  {
    hide Stable, ReadsBack, Join, InOrder;
    var sorted := InOrder(members);
    var body := Join(EntryTexts(quote, sorted), ",");
    ObjectText(quote, members);
    Opened('{', body, "}", rest);
    var text := Stable(quote, Object(members)) + rest;
    assert text == "{" + body + "}" + rest;
    NotAWord(text);
    InOrderMembers(members);
    SolidKeys(members);
    if sorted == [] {
      NoEntries(quote, sorted);
      assert text[2..] == rest;
      assert HasAt(text, 1, "}");
      NoKeys(members, sorted);
    } else {
      SortedReadBack(quote, unquote, members, sorted);
      MembersReadBack(quote, unquote, sorted, rest);
      FirstEntry(quote, sorted, rest);
      StartsBehind(text, "}");
      SortedIsSame(members, sorted, ReadMembers(unquote, text[1..]).value.0);
    }
  }

  lemma NoEntries(quote: Quote, members: seq<Member>)
    requires members == []
    ensures Join(EntryTexts(quote, members), ",") == ""
  {
  }

  lemma NoKeys(members: seq<Member>, sorted: seq<Member>)
    requires forall k :: k in Keys(members) ==> k in Keys(sorted)
    ensures members != [] ==> sorted != []
  {
    if members != [] {
      assert Keys(members)[0] in Keys(members);
    }
  }

  lemma SortedReadBack(quote: Quote, unquote: Unquote, members: seq<Member>, sorted: seq<Member>)
    requires forall m :: m in sorted ==> MemberOf(members, m.key) == Some(m.value)
    requires forall i :: 0 <= i < |members| ==> ReadsBack(quote, unquote, members[i].value)
    ensures forall i :: 0 <= i < |sorted| ==> ReadsBack(quote, unquote, sorted[i].value)
  {
    hide ReadsBack;
    forall i | 0 <= i < |sorted| ensures ReadsBack(quote, unquote, sorted[i].value) {
      assert sorted[i] in sorted;
      var j := MemberIs(members, sorted[i].key);
    }
  }

  /** Members with the sorted keys and the same values make the same object. */
  lemma SortedIsSame(members: seq<Member>, sorted: seq<Member>, read: seq<Member>)
    requires WellKeyed(Object(members)) && Ascending(Keys(sorted))
    requires forall k :: k in Keys(sorted) <==> k in Keys(members)
    requires forall m :: m in sorted ==> MemberOf(members, m.key) == Some(m.value)
    requires |read| == |sorted| && Keys(read) == Keys(sorted)
    requires forall i :: 0 <= i < |sorted| ==> WellKeyed(read[i].value) && Same(sorted[i].value, read[i].value)
    ensures WellKeyed(Object(read)) && Same(Object(members), Object(read))
  {
    AscendingIsDistinct(Keys(sorted));
    assert forall i :: 0 <= i < |read| ==> read[i].key == Keys(read)[i] && Keys(sorted)[i] == sorted[i].key;
    forall i, j | 0 <= i < |members| && 0 <= j < |read| && members[i].key == read[j].key
      ensures Same(members[i].value, read[j].value)
    {
      assert sorted[j] in sorted;
      MemberAt(members, i);
    }
  }

  lemma {:induction false} AscendingIsDistinct(keys: seq<string>)
    requires Ascending(keys)
    ensures forall i, j :: 0 <= i < j < |keys| ==> keys[i] != keys[j]
    decreases |keys|
  {
    if keys != [] {
      AscendingIsDistinct(keys[1..]);
      LessIsTotal(keys[0], keys[0]);
      forall j | 0 < j < |keys| ensures keys[0] != keys[j] {
        assert keys[j] == keys[1..][j - 1];
      }
      assert forall i :: 1 <= i < |keys| ==> keys[i] == keys[1..][i - 1];
    }
  }

  // ---- Main result -------------------------------------------------------------------------

  lemma {:induction false} EveryReadsBack(quote: Quote, unquote: Unquote, v: Json)
    requires Unquotes(quote, unquote) && Proper(v) && Solid(v)
    ensures ReadsBack(quote, unquote, v)
    decreases v
  {
    match v {
      case Array(items) =>
        forall i | 0 <= i < |items| ensures ReadsBack(quote, unquote, items[i]) {
          EveryReadsBack(quote, unquote, items[i]);
        }
      case Object(members) =>
        forall i | 0 <= i < |members| ensures ReadsBack(quote, unquote, members[i].value) {
          EveryReadsBack(quote, unquote, members[i].value);
        }
      case _ =>
    }
    forall rest | Delimited(rest) ensures Gives(unquote, Stable(quote, v) + rest, v, rest) {
      OneReadsBack(quote, unquote, v, rest);
    }
  }

  lemma OneReadsBack(quote: Quote, unquote: Unquote, v: Json, rest: string)
    requires Unquotes(quote, unquote) && Proper(v) && Solid(v) && Delimited(rest)
    requires v.Array? ==> forall i :: 0 <= i < |v.items| ==> ReadsBack(quote, unquote, v.items[i])
    requires v.Object? ==> forall i :: 0 <= i < |v.members| ==> ReadsBack(quote, unquote, v.members[i].value)
    ensures Gives(unquote, Stable(quote, v) + rest, v, rest)
  {
    hide ReadsBack, ReadValue;
    match v {
      case Null => WordsRead(unquote, rest);
      case Bool(_) => WordsRead(unquote, rest);
      case Number(text) => NumberReads(unquote, text, rest);
      case Text(s) => TextReads(quote, unquote, s, rest);
      case Array(items) => ArrayReads(quote, unquote, items, rest);
      case Object(members) => ObjectReads(quote, unquote, members, rest);
    }
  }

  /** The printed text is JSON: read by the grammar it is the same value, keys in some
      order, with nothing left over. */
  lemma TextReadsAsValue(quote: Quote, unquote: Unquote, v: Json)
    requires Unquotes(quote, unquote) && Proper(v) && Solid(v)
    ensures var r := ReadValue(unquote, Stable(quote, v));
            r.Some? && r.value.1 == "" && WellKeyed(r.value.0) && Same(v, r.value.0)
  {
    hide Stable, ReadValue, Same, WellKeyed, Unquotes, Proper, Solid;
    EveryReadsBack(quote, unquote, v);
    assert Gives(unquote, Stable(quote, v) + "", v, "");
    assert Stable(quote, v) + "" == Stable(quote, v);
  }
}

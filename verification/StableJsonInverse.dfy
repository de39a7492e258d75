/** What the sorted-key JSON of apps/web/lib/markdown-memory.ts tells apart: equal
    texts mean the same JSON, up to undefined members. */
module StableJsonInverse {
  import opened Outcomes
  import opened OrderedMaps
  import opened Strings
  import opened StableJson

  /** How `JSON.stringify` writes strings: they start with a quote, no two alike,
      and none starts another. */
  ghost predicate Quoting(quote: Quote) {
    && (forall s :: quote(s) != "" && quote(s)[0] == '\"')
    && (forall s, t :: quote(s) <= quote(t) ==> s == t)
  }

  predicate NumberChar(c: char) {
    '0' <= c <= '9' || c == '-' || c == '+' || c == '.' || c == 'e' || c == 'E'
  }

  predicate NumberText(text: string) {
    text != "" && forall i :: 0 <= i < |text| ==> NumberChar(text[i])
  }

  ghost predicate PlainNumbers(v: Json)
    decreases v
  {
    match v
    case Number(text) => NumberText(text)
    case Array(items) => forall i :: 0 <= i < |items| ==> PlainNumbers(items[i])
    case Object(members) => forall i :: 0 <= i < |members| ==> PlainNumbers(members[i].value)
    case _ => true
  }

  /** Each key once at every depth, and numbers written as JSON writes them. */
  ghost predicate Proper(v: Json) {
    WellKeyed(v) && PlainNumbers(v)
  }

  // ---- What a text tells -----------------------------------------------------------------

  function MemberOf(members: seq<Member>, k: string): Option<Json> {
    if members == [] then None
    else if members[0].key == k then Some(members[0].value)
    else MemberOf(members[1..], k)
  }

  predicate Defined(members: seq<Member>, k: string) {
    MemberOf(members, k).Some? && !MemberOf(members, k).value.Undefined?
  }

  /** An array of one undefined item prints like an empty one. */
  predicate Hollow(items: seq<Json>) {
    items == [] || (|items| == 1 && items[0].Undefined?)
  }

  /** The same JSON up to the order of keys, undefined members and hollow arrays,
      at every depth. */
  ghost predicate Alike(v: Json, w: Json)
    decreases v
  {
    match v
    case Array(items) =>
      w.Array?
      && if Hollow(items) then Hollow(w.items)
         else |items| == |w.items| && forall i :: 0 <= i < |items| ==> Alike(items[i], w.items[i])
    case Object(members) =>
      w.Object? && (forall k :: Defined(members, k) <==> Defined(w.members, k))
      && forall i :: 0 <= i < |members| && Defined(w.members, members[i].key)
           ==> Alike(members[i].value, MemberOf(w.members, members[i].key).value)
    case _ => v == w
  }

  lemma {:induction false} MemberAt(members: seq<Member>, i: nat)
    requires i < |members| && forall a, b :: 0 <= a < b < |members| ==> members[a].key != members[b].key
    ensures MemberOf(members, members[i].key) == Some(members[i].value)
  {
    if i != 0 {
      assert members[0].key != members[i].key;
      MemberAt(members[1..], i - 1);
    }
  }

  lemma {:induction false} MemberIs(members: seq<Member>, k: string) returns (i: nat)
    requires MemberOf(members, k).Some?
    ensures i < |members| && members[i].key == k && members[i].value == MemberOf(members, k).value
  {
    if members[0].key == k {
      i := 0;
    } else {
      i := MemberIs(members[1..], k);
      i := i + 1;
    }
  }

  // ---- An object's text, entry by entry ----------------------------------------------------

  /** The defined members in the order of the keys given. */
  function Chosen(members: seq<Member>, keys: seq<string>): (chosen: seq<Member>)
    decreases |keys|
  {
    if keys == [] then []
    else
      (if Defined(members, keys[0]) then [Member(keys[0], MemberOf(members, keys[0]).value)] else [])
      + Chosen(members, keys[1..])
  }

  function EntryText(quote: Quote, m: Member): string {
    quote(m.key) + (":" + Stable(quote, m.value))
  }

  function EntryTexts(quote: Quote, members: seq<Member>): (texts: seq<string>)
    ensures |texts| == |members|
  {
    seq(|members|, i requires 0 <= i < |members| => EntryText(quote, members[i]))
  }

  function ItemTexts(quote: Quote, items: seq<Json>): (texts: seq<string>)
    ensures |texts| == |items|
  {
    seq(|items|, i requires 0 <= i < |items| => Stable(quote, items[i]))
  }

  lemma {:induction false} GetPrinted(quote: Quote, members: seq<Member>, k: string)
    ensures Get(Printed(quote, members), k) ==
            match MemberOf(members, k)
            case None => None
            case Some(v) => Some(if v.Undefined? then None else Some(EntryText(quote, Member(k, v))))
    decreases |members|
  {
    if members != [] {
      assert Printed(quote, members)[1..] == Printed(quote, members[1..]);
      GetPrinted(quote, members[1..], k);
      assert quote(k) + ":" + Stable(quote, members[0].value) == quote(k) + (":" + Stable(quote, members[0].value));
    }
  }

  lemma {:induction false} PickIsChosen(quote: Quote, members: seq<Member>, keys: seq<string>)
    ensures Pick(Printed(quote, members), keys) == EntryTexts(quote, Chosen(members, keys))
    decreases |keys|
  {
    hide Stable, Printed, EntryText;
    if keys != [] {
      GetPrinted(quote, members, keys[0]);
      PickIsChosen(quote, members, keys[1..]);
    }
  }

  function InOrder(members: seq<Member>): seq<Member> {
    Chosen(members, Sorted(Keys(members)))
  }

  lemma ObjectText(quote: Quote, members: seq<Member>)
    ensures Stable(quote, Object(members)) == "{" + Join(EntryTexts(quote, InOrder(members)), ",") + "}"
  {
    PickIsChosen(quote, members, Sorted(Keys(members)));
  }

  lemma ArrayText(quote: Quote, items: seq<Json>)
    ensures Stable(quote, Array(items)) == "[" + Join(ItemTexts(quote, items), ",") + "]"
  {
  }

  lemma {:induction false} ChosenMembers(members: seq<Member>, keys: seq<string>)
    requires Ascending(keys)
    ensures Ascending(Keys(Chosen(members, keys)))
    ensures forall k :: k in Keys(Chosen(members, keys)) <==> k in keys && Defined(members, k)
    ensures forall m :: m in Chosen(members, keys) ==> MemberOf(members, m.key) == Some(m.value)
    decreases |keys|
  {
    var chosen := Chosen(members, keys);
    if keys != [] {
      var rest := Chosen(members, keys[1..]);
      ChosenMembers(members, keys[1..]);
      assert forall k :: k in keys <==> k == keys[0] || k in keys[1..];
      if Defined(members, keys[0]) {
        assert Keys(chosen) == [keys[0]] + Keys(rest);
        assert Keys(chosen)[1..] == Keys(rest);
        forall i | 0 <= i < |Keys(rest)| ensures Less(keys[0], Keys(rest)[i]) {
          assert Keys(rest)[i] in Keys(rest);
        }
      } else {
        assert chosen == rest;
      }
    }
  }

  /** An object's entries: its defined members, in ascending order of their keys. */
  lemma InOrderMembers(members: seq<Member>)
    requires WellKeyed(Object(members))
    ensures Ascending(Keys(InOrder(members)))
    ensures forall k :: k in Keys(InOrder(members)) <==> Defined(members, k)
    ensures forall m :: m in InOrder(members) ==> MemberOf(members, m.key) == Some(m.value)
  {
    SortedIsAscending(Keys(members));
    ChosenMembers(members, Sorted(Keys(members)));
    forall k | Defined(members, k) ensures k in Keys(members) {
      var i := MemberIs(members, k);
      assert Keys(members)[i] == k;
    }
  }

  // ---- Alike prints alike --------------------------------------------------------------------

  lemma HollowText(quote: Quote, items: seq<Json>)
    requires Hollow(items)
    ensures Join(ItemTexts(quote, items), ",") == ""
  {
    if items != [] {
      assert ItemTexts(quote, items) == [""];
    }
  }

  lemma {:induction false} AlikePrints(quote: Quote, v: Json, w: Json)
    requires WellKeyed(v) && WellKeyed(w) && Alike(v, w)
    ensures Stable(quote, v) == Stable(quote, w)
    decreases v
  {
    match v {
      case Array(items) =>
        ArrayText(quote, items);
        ArrayText(quote, w.items);
        if Hollow(items) {
          HollowText(quote, items);
          HollowText(quote, w.items);
        } else {
          forall i | 0 <= i < |items| ensures Stable(quote, items[i]) == Stable(quote, w.items[i]) {
            AlikePrints(quote, items[i], w.items[i]);
          }
          assert ItemTexts(quote, items) == ItemTexts(quote, w.items);
        }
      case Object(members) =>
        ObjectText(quote, members);
        ObjectText(quote, w.members);
        forall i | 0 <= i < |members| && Defined(w.members, members[i].key)
          ensures Stable(quote, members[i].value) == Stable(quote, MemberOf(w.members, members[i].key).value)
        {
          var j := MemberIs(w.members, members[i].key);
          AlikePrints(quote, members[i].value, w.members[j].value);
        }
        SameEntries(quote, members, w.members);
      case _ =>
    }
  }

  lemma SameEntries(quote: Quote, a: seq<Member>, b: seq<Member>)
    requires WellKeyed(Object(a)) && WellKeyed(Object(b))
    requires forall k :: Defined(a, k) <==> Defined(b, k)
    requires forall i :: 0 <= i < |a| && Defined(b, a[i].key) ==>
                           Stable(quote, a[i].value) == Stable(quote, MemberOf(b, a[i].key).value)
    ensures EntryTexts(quote, InOrder(a)) == EntryTexts(quote, InOrder(b))
  {
    hide Stable, InOrder, WellKeyed, Ascending;
    var x, y := InOrder(a), InOrder(b);
    InOrderMembers(a);
    InOrderMembers(b);
    AscendingIsUnique(Keys(x), Keys(y));
    assert |x| == |Keys(x)| == |y|;
    forall i | 0 <= i < |x| ensures EntryText(quote, x[i]) == EntryText(quote, y[i]) {
      assert Keys(x)[i] == Keys(y)[i];
      assert x[i] in x && y[i] in y;
      assert x[i].key in Keys(x);
      var j := MemberIs(a, x[i].key);
      assert Stable(quote, a[j].value) == Stable(quote, MemberOf(b, a[j].key).value);
    }
  }

  // ---- Reading a text off the front of another -------------------------------------------------

  predicate Delimiter(c: char) {
    c == ',' || c == ']' || c == '}'
  }

  /** What may follow a printed value. */
  predicate Delimited(rest: string) {
    rest == "" || Delimiter(rest[0])
  }

  function KindOf(c: char): nat {
    if c == 'n' then 1
    else if c == 't' || c == 'f' then 2
    else if NumberChar(c) then 3
    else if c == '\"' then 4
    else if c == '[' then 5
    else if c == '{' then 6
    else 0
  }

  function Kind(v: Json): nat {
    match v
    case Undefined => 0
    case Null => 1
    case Bool(_) => 2
    case Number(_) => 3
    case Text(_) => 4
    case Array(_) => 5
    case Object(_) => 6
  }

  /** A value's first character tells its kind. */
  lemma FirstTells(quote: Quote, v: Json)
    requires Quoting(quote) && PlainNumbers(v)
    ensures var text := Stable(quote, v);
            if v.Undefined? then text == "" else text != "" && KindOf(text[0]) == Kind(v) && Kind(v) != 0
  {
  }

  /** Two values that start the same text. */
  ghost predicate Clash(quote: Quote, v: Json, w: Json, a: string, b: string) {
    Proper(w) && Delimited(a) && Delimited(b) && Stable(quote, v) + a == Stable(quote, w) + b
  }

  /** Whatever else starts the same text as `v` is like it, and as long. */
  ghost predicate Readable(quote: Quote, v: Json) {
    forall w, a, b :: Clash(quote, v, w, a, b) ==> Alike(v, w) && a == b
  }

  lemma SameKind(quote: Quote, v: Json, w: Json, a: string, b: string)
    requires Quoting(quote) && PlainNumbers(v) && Clash(quote, v, w, a, b)
    ensures Kind(v) == Kind(w)
  {
    hide Stable, Quoting;
    FirstTells(quote, v);
    FirstTells(quote, w);
    FirstOf(Stable(quote, v), a);
    FirstOf(Stable(quote, w), b);
  }

  lemma FirstOf(text: string, rest: string)
    ensures text != "" ==> text + rest != "" && (text + rest)[0] == text[0]
    ensures text == "" ==> text + rest == rest
  {
  }

  lemma Cancel(text: string, a: string, b: string)
    requires text + a == text + b
    ensures a == b
  {
    assert (text + a)[|text|..] == a && (text + b)[|text|..] == b;
  }

  lemma {:induction false} NumbersRead(x: string, y: string, a: string, b: string)
    requires (forall i :: 0 <= i < |x| ==> NumberChar(x[i])) && (forall i :: 0 <= i < |y| ==> NumberChar(y[i]))
    requires Delimited(a) && Delimited(b) && x + a == y + b
    ensures x == y && a == b
    decreases |x|
  {
    FirstOf(x, a);
    FirstOf(y, b);
    assert x != "" ==> NumberChar(x[0]);
    assert y != "" ==> NumberChar(y[0]);
    if x == "" && y == "" {
    } else {
      assert (x + a)[1..] == x[1..] + a && (y + b)[1..] == y[1..] + b;
      NumbersRead(x[1..], y[1..], a, b);
      assert x == [x[0]] + x[1..] && y == [y[0]] + y[1..];
    }
  }

  lemma QuotesRead(quote: Quote, s: string, t: string, a: string, b: string)
    requires Quoting(quote) && quote(s) + a == quote(t) + b
    ensures s == t && a == b
  {
    EitherStarts(quote(s), quote(t), a, b);
    Cancel(quote(s), a, b);
  }

  lemma EitherStarts(x: string, y: string, a: string, b: string)
    requires x + a == y + b
    ensures x <= y || y <= x
  {
    var text := x + a;
    assert text[..|x|] == x && text[..|y|] == y;
  }

  /** What follows the first of some joined parts. */
  function Rest(parts: seq<string>, close: string): string
    requires parts != []
  {
    if |parts| == 1 then close else "," + (Join(parts[1..], ",") + close)
  }

  lemma JoinHead(parts: seq<string>, close: string)
    requires parts != []
    ensures Join(parts, ",") + close == parts[0] + Rest(parts, close)
  {
    if |parts| > 1 {
      assert parts[0] + "," + Join(parts[1..], ",") + close == parts[0] + ("," + (Join(parts[1..], ",") + close));
    }
  }

  /** The rests of two lists agree: both end here, or both go on alike. */
  lemma RestsAgree(x: seq<string>, y: seq<string>, a: string, b: string, close: char)
    requires x != [] && y != [] && close != ','
    requires Rest(x, [close] + a) == Rest(y, [close] + b)
    ensures |x| == 1 <==> |y| == 1
    ensures |x| == 1 ==> a == b
    ensures |x| > 1 ==> Join(x[1..], ",") + ([close] + a) == Join(y[1..], ",") + ([close] + b)
  {
    assert Rest(x, [close] + a)[0] == if |x| == 1 then close else ',';
    assert Rest(y, [close] + b)[0] == if |y| == 1 then close else ',';
    if |x| == 1 && |y| == 1 {
      Cancel([close], a, b);
    } else if |x| > 1 && |y| > 1 {
      Cancel(",", Join(x[1..], ",") + ([close] + a), Join(y[1..], ",") + ([close] + b));
    }
  }

  lemma RestGoesOn(parts: seq<string>, close: string)
    requires parts != []
    ensures |parts| > 1 ==> Rest(parts, close) != "" && Rest(parts, close)[0] == ','
    ensures |parts| == 1 ==> Rest(parts, close) == close
  {
  }

  lemma RestIsDelimited(parts: seq<string>, a: string, close: char)
    requires parts != [] && Delimiter(close)
    ensures Delimited(Rest(parts, [close] + a))
  {
  }

  // ---- Arrays ------------------------------------------------------------------------------------

  lemma {:induction false} ItemsRead(quote: Quote, x: seq<Json>, y: seq<Json>, a: string, b: string)
    requires x != [] && y != [] && forall i :: 0 <= i < |x| ==> Readable(quote, x[i])
    requires forall i :: 0 <= i < |y| ==> Proper(y[i])
    requires Join(ItemTexts(quote, x), ",") + ("]" + a) == Join(ItemTexts(quote, y), ",") + ("]" + b)
    ensures |x| == |y| && a == b && forall i :: 0 <= i < |x| ==> Alike(x[i], y[i])
    decreases |x|
  {
    hide Stable, Alike, Proper, Join, Readable;
    var p, q := ItemTexts(quote, x), ItemTexts(quote, y);
    JoinHead(p, "]" + a);
    JoinHead(q, "]" + b);
    RestIsDelimited(p, a, ']');
    RestIsDelimited(q, b, ']');
    OneReads(quote, x[0], y[0], Rest(p, "]" + a), Rest(q, "]" + b));
    RestsAgree(p, q, a, b, ']');
    if |x| > 1 {
      assert p[1..] == ItemTexts(quote, x[1..]) && q[1..] == ItemTexts(quote, y[1..]);
      ItemsRead(quote, x[1..], y[1..], a, b);
      assert forall i :: 1 <= i < |x| ==> x[i] == x[1..][i - 1] && y[i] == y[1..][i - 1];
    }
  }

  lemma OneReads(quote: Quote, v: Json, w: Json, a: string, b: string)
    requires Readable(quote, v) && Clash(quote, v, w, a, b)
    ensures Alike(v, w) && a == b
  {
  }

  /** An empty array's text is that of hollow arrays alone. */
  lemma EmptyReads(quote: Quote, y: seq<Json>, a: string, b: string)
    requires Quoting(quote) && (forall i :: 0 <= i < |y| ==> PlainNumbers(y[i]))
    requires "]" + a == Join(ItemTexts(quote, y), ",") + ("]" + b)
    ensures Hollow(y) && a == b
  {
    hide Stable, Quoting, PlainNumbers;
    if y == [] {
      assert Join(ItemTexts(quote, y), ",") + ("]" + b) == "]" + b;
      Cancel("]", a, b);
    } else {
      var q := ItemTexts(quote, y);
      JoinHead(q, "]" + b);
      FirstTells(quote, y[0]);
      FirstOf(q[0], Rest(q, "]" + b));
      assert ("]" + a)[0] == ']';
      assert y[0].Undefined?;
      RestGoesOn(q, "]" + b);
      Cancel("]", a, b);
    }
  }

  lemma ArraysRead(quote: Quote, x: seq<Json>, y: seq<Json>, a: string, b: string)
    requires Quoting(quote) && forall i :: 0 <= i < |x| ==> Readable(quote, x[i]) && PlainNumbers(x[i])
    requires Clash(quote, Array(x), Array(y), a, b)
    ensures Alike(Array(x), Array(y)) && a == b
  {
    ArrayText(quote, x);
    ArrayText(quote, y);
    Unwrap("[", Join(ItemTexts(quote, x), ","), "]", a, Join(ItemTexts(quote, y), ","), b);
    hide Stable, Readable, Join, Quoting;
    if x == [] {
      NoItems(quote, x);
      EmptyReads(quote, y, a, b);
    } else if y == [] {
      NoItems(quote, y);
      EmptyReads(quote, x, b, a);
    } else {
      ItemsRead(quote, x, y, a, b);
    }
  }

  lemma NoItems(quote: Quote, items: seq<Json>)
    requires items == []
    ensures forall rest :: Join(ItemTexts(quote, items), ",") + rest == rest
  {
    forall rest ensures Join(ItemTexts(quote, items), ",") + rest == rest {
      assert "" + rest == rest;
    }
  }

  lemma Unwrap(open: string, x: string, close: string, a: string, y: string, b: string)
    requires open + x + close + a == open + y + close + b
    ensures x + (close + a) == y + (close + b)
  {
    assert open + x + close + a == open + (x + (close + a));
    assert open + y + close + b == open + (y + (close + b));
    Cancel(open, x + (close + a), y + (close + b));
  }

  // ---- Objects -----------------------------------------------------------------------------------

  /** The first entries of two texts: the same key, and values alike. */
  lemma EntryReads(quote: Quote, m: Member, n: Member, a: string, b: string)
    requires Quoting(quote) && Readable(quote, m.value) && Proper(n.value) && Delimited(a) && Delimited(b)
    requires EntryText(quote, m) + a == EntryText(quote, n) + b
    ensures m.key == n.key && Alike(m.value, n.value) && a == b
  {
    hide Stable, Quoting, Readable, Alike, Proper;
    var s, t := Stable(quote, m.value), Stable(quote, n.value);
    assert EntryText(quote, m) + a == quote(m.key) + (":" + (s + a));
    assert EntryText(quote, n) + b == quote(n.key) + (":" + (t + b));
    QuotesRead(quote, m.key, n.key, ":" + (s + a), ":" + (t + b));
    Cancel(":", s + a, t + b);
    OneReads(quote, m.value, n.value, a, b);
  }

  lemma {:induction false} EntriesRead(quote: Quote, x: seq<Member>, y: seq<Member>, a: string, b: string)
    requires Quoting(quote) && forall i :: 0 <= i < |x| ==> Readable(quote, x[i].value)
    requires forall i :: 0 <= i < |y| ==> Proper(y[i].value)
    requires Join(EntryTexts(quote, x), ",") + ("}" + a) == Join(EntryTexts(quote, y), ",") + ("}" + b)
    ensures |x| == |y| && a == b && forall i :: 0 <= i < |x| ==> x[i].key == y[i].key && Alike(x[i].value, y[i].value)
    decreases |x|
  {
    hide Stable, Alike, Proper, Join, Readable, EntryText, Quoting;
    var p, q := EntryTexts(quote, x), EntryTexts(quote, y);
    EntriesStart(quote, x, a);
    EntriesStart(quote, y, b);
    if x == [] {
      Cancel("}", a, b);
    } else {
      JoinHead(p, "}" + a);
      JoinHead(q, "}" + b);
      RestIsDelimited(p, a, '}');
      RestIsDelimited(q, b, '}');
      EntryReads(quote, x[0], y[0], Rest(p, "}" + a), Rest(q, "}" + b));
      RestsAgree(p, q, a, b, '}');
      if |x| > 1 {
        assert p[1..] == EntryTexts(quote, x[1..]) && q[1..] == EntryTexts(quote, y[1..]);
        EntriesRead(quote, x[1..], y[1..], a, b);
        assert forall i :: 1 <= i < |x| ==> x[i] == x[1..][i - 1] && y[i] == y[1..][i - 1];
      }
    }
  }

  /** An empty object's text ends at once, any other starts with a quote. */
  lemma EntriesStart(quote: Quote, x: seq<Member>, a: string)
    requires Quoting(quote)
    ensures var text := Join(EntryTexts(quote, x), ",") + ("}" + a);
            if x == [] then text == "}" + a && text[0] == '}' else text != "" && text[0] == '\"'
  {
    hide Stable;
    if x != [] {
      var p := EntryTexts(quote, x);
      JoinHead(p, "}" + a);
      FirstOf(quote(x[0].key), ":" + Stable(quote, x[0].value));
      FirstOf(p[0], Rest(p, "}" + a));
    }
  }

  lemma ObjectsRead(quote: Quote, x: seq<Member>, y: seq<Member>, a: string, b: string)
    requires Quoting(quote) && WellKeyed(Object(x)) && forall i :: 0 <= i < |x| ==> Readable(quote, x[i].value)
    requires Clash(quote, Object(x), Object(y), a, b)
    ensures Alike(Object(x), Object(y)) && a == b
  {
    ObjectText(quote, x);
    ObjectText(quote, y);
    var p, q := InOrder(x), InOrder(y);
    Unwrap("{", Join(EntryTexts(quote, p), ","), "}", a, Join(EntryTexts(quote, q), ","), b);
    InOrderMembers(x);
    InOrderMembers(y);
    forall i | 0 <= i < |p| ensures Readable(quote, p[i].value) {
      assert p[i] in p;
      var j := MemberIs(x, p[i].key);
    }
    forall i | 0 <= i < |q| ensures Proper(q[i].value) {
      assert q[i] in q;
      var j := MemberIs(y, q[i].key);
    }
    EntriesRead(quote, p, q, a, b);
    EntriesAlike(x, y);
  }

  /** Entries alike make the objects alike. */
  lemma EntriesAlike(x: seq<Member>, y: seq<Member>)
    requires WellKeyed(Object(x)) && WellKeyed(Object(y))
    requires var p, q := InOrder(x), InOrder(y);
             |p| == |q| && forall i :: 0 <= i < |p| ==> p[i].key == q[i].key && Alike(p[i].value, q[i].value)
    ensures Alike(Object(x), Object(y))
  {
    hide InOrder;
    var p, q := InOrder(x), InOrder(y);
    InOrderMembers(x);
    InOrderMembers(y);
    assert Keys(p) == Keys(q);
    assert forall k :: Defined(x, k) <==> Defined(y, k);
    forall i | 0 <= i < |x| && Defined(y, x[i].key) ensures Alike(x[i].value, MemberOf(y, x[i].key).value) {
      MemberAt(x, i);
      assert x[i].key in Keys(p);
      var j :| 0 <= j < |p| && Keys(p)[j] == x[i].key;
      assert p[j] in p && q[j] in q;
    }
  }

  // ---- Main results --------------------------------------------------------------------------------

  /** No value's text starts another's, unless they are alike. */
  lemma {:induction false} EveryReads(quote: Quote, v: Json)
    requires Quoting(quote) && Proper(v)
    ensures Readable(quote, v)
    decreases v
  {
    match v {
      case Array(items) =>
        forall i | 0 <= i < |items| ensures Readable(quote, items[i]) {
          EveryReads(quote, items[i]);
        }
      case Object(members) =>
        forall i | 0 <= i < |members| ensures Readable(quote, members[i].value) {
          EveryReads(quote, members[i].value);
        }
      case _ =>
    }
    forall w, a, b | Clash(quote, v, w, a, b) ensures Alike(v, w) && a == b {
      ValueReads(quote, v, w, a, b);
    }
  }

  lemma ValueReads(quote: Quote, v: Json, w: Json, a: string, b: string)
    requires Quoting(quote) && Proper(v) && Clash(quote, v, w, a, b)
    requires v.Array? ==> forall i :: 0 <= i < |v.items| ==> Readable(quote, v.items[i])
    requires v.Object? ==> forall i :: 0 <= i < |v.members| ==> Readable(quote, v.members[i].value)
    ensures Alike(v, w) && a == b
  {
    hide Readable;
    SameKind(quote, v, w, a, b);
    match v {
      case Undefined => Cancel("", a, b);
      case Null => Cancel("null", a, b);
      case Bool(x) =>
        FirstOf(Stable(quote, v), a);
        FirstOf(Stable(quote, w), b);
        assert v == w;
        Cancel(Stable(quote, v), a, b);
      case Number(x) => NumbersRead(x, w.text, a, b);
      case Text(s) => QuotesRead(quote, s, w.s, a, b);
      case Array(items) => ArraysRead(quote, items, w.items, a, b);
      case Object(members) => ObjectsRead(quote, members, w.members, a, b);
    }
  }

  /** Two values print alike if and only if they are the same JSON up to the order
      of keys, undefined members and hollow arrays. */
  lemma EqualTextsExactly(quote: Quote, v: Json, w: Json)
    requires Quoting(quote) && Proper(v) && Proper(w)
    ensures Stable(quote, v) == Stable(quote, w) <==> Alike(v, w)
  {
    hide Stable, Alike, Quoting, Proper;
    if Stable(quote, v) == Stable(quote, w) {
      EveryReads(quote, v);
      assert Clash(quote, v, w, "", "");
    } else if Alike(v, w) {
      assert WellKeyed(v) && WellKeyed(w) by { ProperIsWellKeyed(v); ProperIsWellKeyed(w); }
      AlikePrints(quote, v, w);
    }
  }

  lemma ProperIsWellKeyed(v: Json)
    requires Proper(v)
    ensures WellKeyed(v)
  {
  }

  // ---- Values without undefined parts ----------------------------------------------------------------

  /** What a database column holds: nothing undefined at any depth. */
  ghost predicate Solid(v: Json)
    decreases v
  {
    match v
    case Undefined => false
    case Array(items) => forall i :: 0 <= i < |items| ==> Solid(items[i])
    case Object(members) => forall i :: 0 <= i < |members| ==> Solid(members[i].value)
    case _ => true
  }

  lemma SolidKeys(members: seq<Member>)
    requires Solid(Object(members)) && WellKeyed(Object(members))
    ensures forall k :: k in Keys(members) <==> Defined(members, k)
  {
    forall k ensures k in Keys(members) <==> Defined(members, k) {
      if k in Keys(members) {
        var i :| 0 <= i < |members| && Keys(members)[i] == k;
        MemberAt(members, i);
      }
      if Defined(members, k) {
        var i := MemberIs(members, k);
        assert Keys(members)[i] == k;
      }
    }
  }

  lemma {:induction false} SolidAlikeIsSame(v: Json, w: Json)
    requires Solid(v) && Solid(w) && WellKeyed(v) && WellKeyed(w)
    ensures Alike(v, w) <==> Same(v, w)
    decreases v
  {
    match v {
      case Array(items) =>
        if w.Array? {
          SolidIsNotHollow(items);
          SolidIsNotHollow(w.items);
          if |items| == |w.items| {
            forall i | 0 <= i < |items| ensures Alike(items[i], w.items[i]) <==> Same(items[i], w.items[i]) {
              SolidAlikeIsSame(items[i], w.items[i]);
            }
          }
        }
      case Object(members) =>
        if w.Object? {
          SolidKeys(members);
          SolidKeys(w.members);
          forall i, j | 0 <= i < |members| && 0 <= j < |w.members| && members[i].key == w.members[j].key
            ensures MemberOf(w.members, members[i].key) == Some(w.members[j].value)
            ensures Alike(members[i].value, w.members[j].value) <==> Same(members[i].value, w.members[j].value)
          {
            MemberAt(w.members, j);
            SolidAlikeIsSame(members[i].value, w.members[j].value);
          }
          forall i | 0 <= i < |members| && Defined(w.members, members[i].key)
            ensures exists j :: 0 <= j < |w.members| && members[i].key == w.members[j].key
          {
            var j := MemberIs(w.members, members[i].key);
          }
          SolidMembers(members, w.members);
        }
      case _ =>
    }
  }

  lemma SolidIsNotHollow(items: seq<Json>)
    requires Solid(Array(items))
    ensures Hollow(items) <==> items == []
  {
  }

  ghost predicate SameDefined(x: seq<Member>, y: seq<Member>) {
    forall k :: Defined(x, k) <==> Defined(y, k)
  }

  ghost predicate SameKeys(x: seq<Member>, y: seq<Member>) {
    forall k :: k in Keys(x) <==> k in Keys(y)
  }

  lemma KeysMatch(x: seq<Member>, y: seq<Member>)
    requires forall k :: k in Keys(x) <==> Defined(x, k)
    requires forall k :: k in Keys(y) <==> Defined(y, k)
    ensures SameDefined(x, y) <==> SameKeys(x, y)
  {
    hide Defined, Keys;
  }

  ghost predicate ValuesAlike(x: seq<Member>, y: seq<Member>) {
    forall i :: 0 <= i < |x| && Defined(y, x[i].key) ==> Alike(x[i].value, MemberOf(y, x[i].key).value)
  }

  ghost predicate ValuesSame(x: seq<Member>, y: seq<Member>) {
    forall i, j :: 0 <= i < |x| && 0 <= j < |y| && x[i].key == y[j].key ==> Same(x[i].value, y[j].value)
  }

  lemma ObjectsCompare(x: seq<Member>, y: seq<Member>)
    ensures Alike(Object(x), Object(y)) <==> SameDefined(x, y) && ValuesAlike(x, y)
    ensures Same(Object(x), Object(y)) <==> SameKeys(x, y) && ValuesSame(x, y)
  {
  }

  lemma SolidMembers(x: seq<Member>, y: seq<Member>)
    requires forall k :: k in Keys(x) <==> Defined(x, k)
    requires forall k :: k in Keys(y) <==> Defined(y, k)
    requires forall i, j :: 0 <= i < |x| && 0 <= j < |y| && x[i].key == y[j].key ==>
               MemberOf(y, x[i].key) == Some(y[j].value)
                 && (Alike(x[i].value, y[j].value) <==> Same(x[i].value, y[j].value))
    ensures Alike(Object(x), Object(y)) <==> Same(Object(x), Object(y))
  {
    hide SameDefined, SameKeys, ValuesAlike, ValuesSame, Defined, Keys, MemberOf, Alike, Same;
    ObjectsCompare(x, y);
    KeysMatch(x, y);
    DefinedEntries(y);
    ValuesCompare(x, y);
  }

  lemma DefinedEntries(y: seq<Member>)
    requires forall k :: k in Keys(y) <==> Defined(y, k)
    ensures forall j :: 0 <= j < |y| ==> Defined(y, y[j].key)
  {
    forall j | 0 <= j < |y| ensures Defined(y, y[j].key) {
      assert Keys(y)[j] in Keys(y);
    }
  }

  lemma ValuesCompare(x: seq<Member>, y: seq<Member>)
    requires forall j :: 0 <= j < |y| ==> Defined(y, y[j].key)
    requires forall i, j :: 0 <= i < |x| && 0 <= j < |y| && x[i].key == y[j].key ==>
               MemberOf(y, x[i].key) == Some(y[j].value)
                 && (Alike(x[i].value, y[j].value) <==> Same(x[i].value, y[j].value))
    ensures ValuesAlike(x, y) <==> ValuesSame(x, y)
  {
    hide MemberOf, Alike, Same;
    if ValuesSame(x, y) {
      forall i | 0 <= i < |x| && Defined(y, x[i].key) ensures Alike(x[i].value, MemberOf(y, x[i].key).value) {
        var j := MemberIs(y, x[i].key);
        assert Same(x[i].value, y[j].value);
      }
    }
  }

  /** Of values with nothing undefined, as a database column holds, equal texts are
      exactly the same JSON up to the order of keys. */
  lemma EqualTextsOfSolid(quote: Quote, v: Json, w: Json)
    requires Quoting(quote) && Proper(v) && Proper(w) && Solid(v) && Solid(w)
    ensures Stable(quote, v) == Stable(quote, w) <==> Same(v, w)
  {
    hide Stable, Alike, Same, Quoting;
    EqualTextsExactly(quote, v, w);
    SolidAlikeIsSame(v, w);
  }

  /** With undefined items two different arrays do print alike. */
  lemma UndefinedIsLost(quote: Quote)
    ensures Stable(quote, Array([Undefined])) == Stable(quote, Array([])) && !Same(Array([Undefined]), Array([]))
  {
    ArrayText(quote, [Undefined]);
    ArrayText(quote, []);
    HollowText(quote, [Undefined]);
    HollowText(quote, []);
  }
}

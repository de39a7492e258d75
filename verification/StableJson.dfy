/** `stableStringify` of apps/web/lib/markdown-memory.ts: JSON with the keys
    sorted at every level. */
module StableJson {
  import opened Outcomes
  import opened OrderedMaps
  import opened Strings

  datatype Member = Member(key: string, value: Json)

  datatype Json =
    | Undefined
    | Null
    | Bool(b: bool)
    | Number(text: string)
    | Text(s: string)
    | Array(items: seq<Json>)
    | Object(members: seq<Member>)

  /** `JSON.stringify` on a string. */
  type Quote = string -> string

  // ---- Sorting keys ------------------------------------------------------------------------

  predicate Less(a: string, b: string)
    decreases |a|
  {
    b != "" && (a == "" || a[0] < b[0] || (a[0] == b[0] && Less(a[1..], b[1..])))
  }

  lemma {:induction false} LessIsTotal(a: string, b: string)
    ensures Less(a, b) || a == b || Less(b, a)
    ensures !(Less(a, b) && Less(b, a)) && !Less(a, a)
    decreases |a|
  {
    if a != "" && b != "" {
      LessIsTotal(a[1..], b[1..]);
      assert a[0] == b[0] && a[1..] == b[1..] ==> a == [b[0]] + b[1..];
    }
    if a != "" {
      LessIsTotal(a[1..], a[1..]);
    }
  }

  lemma {:induction false} LessIsTransitive(a: string, b: string, c: string)
    requires Less(a, b) && Less(b, c)
    ensures Less(a, c)
    decreases |a|
  {
    if a != "" && a[0] == b[0] && b[0] == c[0] {
      LessIsTransitive(a[1..], b[1..], c[1..]);
    }
  }

  /** The order of `Array.sort` on strings: a beginning of a text is before it, else the
      first difference decides. */
  ghost predicate Before(a: string, b: string) {
    (|a| < |b| && a == b[..|a|]) || exists i: nat :: DiffersFirst(a, b, i) && a[i] < b[i]
  }

  ghost predicate DiffersFirst(a: string, b: string, i: nat) {
    i < |a| && i < |b| && a[..i] == b[..i] && a[i] != b[i]
  }

  lemma {:induction false} LessIsBefore(a: string, b: string)
    ensures Less(a, b) <==> Before(a, b)
    decreases |a|
  {
    if a != "" && b != "" {
      if a[0] == b[0] {
        LessIsBefore(a[1..], b[1..]);
        BeforeTail(a, b);
      } else {
        assert DiffersFirst(a, b, 0);
        forall i: nat | DiffersFirst(a, b, i) ensures i == 0 {
          SameHeads(a, b, i);
        }
        assert |a| < |b| ==> b[..|a|][0] == b[0];
      }
    }
  }

  lemma SameHeads(a: string, b: string, i: nat)
    requires DiffersFirst(a, b, i)
    ensures i != 0 ==> a[0] == b[0]
  {
    if i != 0 {
      assert a[..i][0] == a[0];
    }
  }

  lemma BeforeTail(a: string, b: string)
    requires a != "" && b != "" && a[0] == b[0]
    ensures Before(a, b) <==> Before(a[1..], b[1..])
  {
    assert a == [a[0]] + a[1..] && b == [b[0]] + b[1..];
    if |a| < |b| {
      assert b[..|a|] == [b[0]] + b[1..][..|a| - 1];
    }
    forall i: nat | DiffersFirst(a, b, i) ensures 0 < i && DiffersFirst(a[1..], b[1..], i - 1) {
      assert a[1..][..i - 1] == a[..i][1..] && b[1..][..i - 1] == b[..i][1..];
    }
    forall i: nat | DiffersFirst(a[1..], b[1..], i) ensures DiffersFirst(a, b, i + 1) {
      assert a[..i + 1] == [a[0]] + a[1..][..i] && b[..i + 1] == [b[0]] + b[1..][..i];
    }
  }

  function Insert(key: string, keys: seq<string>): seq<string>
    decreases |keys|
  {
    if keys == [] then [key]
    else if Less(keys[0], key) then [keys[0]] + Insert(key, keys[1..])
    else [key] + keys
  }

  function Sorted(keys: seq<string>): seq<string>
    decreases |keys|
  {
    if keys == [] then [] else Insert(keys[0], Sorted(keys[1..]))
  }

  predicate Ascending(keys: seq<string>)
    decreases |keys|
  {
    keys == [] || (Below(keys[0], keys[1..]) && Ascending(keys[1..]))
  }

  predicate Below(key: string, keys: seq<string>) {
    forall i :: 0 <= i < |keys| ==> Less(key, keys[i])
  }

  lemma {:induction false} InsertMembers(key: string, keys: seq<string>)
    ensures forall x :: x in Insert(key, keys) <==> x == key || x in keys
    decreases |keys|
  {
    if keys != [] {
      InsertMembers(key, keys[1..]);
      assert forall x :: x in keys <==> x == keys[0] || x in keys[1..];
    }
  }

  lemma {:induction false} InsertAscends(key: string, keys: seq<string>)
    requires Ascending(keys) && key !in keys
    ensures Ascending(Insert(key, keys))
    decreases |keys|
  {
    if keys != [] {
      if Less(keys[0], key) {
        InsertAscends(key, keys[1..]);
        InsertMembers(key, keys[1..]);
        var rest := Insert(key, keys[1..]);
        forall i | 0 <= i < |rest| ensures Less(keys[0], rest[i]) {
          assert rest[i] in rest;
        }
        assert Insert(key, keys)[1..] == rest;
      } else {
        LessIsTotal(keys[0], key);
        forall i | 0 <= i < |keys| ensures Less(key, keys[i]) {
          if i != 0 {
            LessIsTransitive(key, keys[0], keys[i]);
          }
        }
        assert ([key] + keys)[1..] == keys;
      }
    }
  }

  lemma {:induction false} SortedIsAscending(keys: seq<string>)
    requires forall i, j :: 0 <= i < j < |keys| ==> keys[i] != keys[j]
    ensures Ascending(Sorted(keys)) && forall x :: x in Sorted(keys) <==> x in keys
    decreases |keys|
  {
    if keys != [] {
      SortedIsAscending(keys[1..]);
      InsertMembers(keys[0], Sorted(keys[1..]));
      InsertAscends(keys[0], Sorted(keys[1..]));
      assert forall x :: x in keys <==> x == keys[0] || x in keys[1..];
    }
  }

  lemma HeadIsMember(keys: seq<string>)
    ensures keys == [] || keys[0] in keys
  {
  }

  /** An ascending list is determined by its members. */
  lemma {:induction false} AscendingIsUnique(a: seq<string>, b: seq<string>)
    requires Ascending(a) && Ascending(b) && forall x :: x in a <==> x in b
    ensures a == b
    decreases |a|
  {
    if a == [] {
      HeadIsMember(b);
    } else {
      assert a[0] in a;
      assert b[0] in b;
      LessIsTotal(a[0], b[0]);
      assert a[0] == b[0];
      LessIsTotal(a[0], a[0]);
      forall x ensures x in a[1..] <==> x in b[1..] {
        assert x in a <==> x == a[0] || x in a[1..];
        assert x in b <==> x == b[0] || x in b[1..];
      }
      AscendingIsUnique(a[1..], b[1..]);
    }
  }

  // ---- Printing ------------------------------------------------------------------------------

  /** Each member's printed entry; an undefined value prints none. */
  function Printed(quote: Quote, members: seq<Member>): (printed: Entries<string, Option<string>>)
    ensures |printed| == |members| && forall i :: 0 <= i < |members| ==> printed[i].0 == members[i].key
    decreases members
  {
    seq(|members|, i requires 0 <= i < |members| =>
      (members[i].key,
       if members[i].value.Undefined? then None
       else Some(quote(members[i].key) + ":" + Stable(quote, members[i].value))))
  }

  function Keys(members: seq<Member>): (keys: seq<string>)
    ensures |keys| == |members| && forall i :: 0 <= i < |members| ==> keys[i] == members[i].key
  {
    seq(|members|, i requires 0 <= i < |members| => members[i].key)
  }

  /** The printed entries in the order of the keys given. */
  function Pick(printed: Entries<string, Option<string>>, keys: seq<string>): seq<string>
    decreases |keys|
  {
    if keys == [] then []
    else
      var found: Option<Option<string>> := Get(printed, keys[0]);
      (if found.Some? && found.value.Some? then [found.value.value] else []) + Pick(printed, keys[1..])
  }

  /** An undefined item joins as nothing. */
  function Stable(quote: Quote, v: Json): string
    decreases v
  {
    match v
    case Undefined => ""
    case Null => "null"
    case Bool(b) => if b then "true" else "false"
    case Number(text) => text
    case Text(s) => quote(s)
    case Array(items) =>
      "[" + Join(seq(|items|, i requires 0 <= i < |items| => Stable(quote, items[i])), ",") + "]"
    case Object(members) => "{" + Join(Pick(Printed(quote, members), Sorted(Keys(members))), ",") + "}"
  }

  // ---- Key order -----------------------------------------------------------------------------

  /** Every object has each of its keys once, at every depth. */
  ghost predicate WellKeyed(v: Json)
    decreases v
  {
    match v
    case Array(items) => forall i :: 0 <= i < |items| ==> WellKeyed(items[i])
    case Object(members) =>
      (forall i, j :: 0 <= i < j < |members| ==> members[i].key != members[j].key)
      && forall i :: 0 <= i < |members| ==> WellKeyed(members[i].value)
    case _ => true
  }

  /** The same JSON up to the order of keys, at every depth. */
  ghost predicate Same(v: Json, w: Json)
    decreases v
  {
    match v
    case Array(items) =>
      w.Array? && |items| == |w.items| && forall i :: 0 <= i < |items| ==> Same(items[i], w.items[i])
    case Object(members) =>
      w.Object? && (forall k :: k in Keys(members) <==> k in Keys(w.members))
      && forall i, j :: 0 <= i < |members| && 0 <= j < |w.members| && members[i].key == w.members[j].key
           ==> Same(members[i].value, w.members[j].value)
    case _ => v == w
  }

  lemma {:induction false} SameUndefined(v: Json, w: Json)
    requires Same(v, w)
    ensures v.Undefined? <==> w.Undefined?
  {
  }

  lemma {:induction false} PickAgrees(p: Entries<string, Option<string>>, q: Entries<string, Option<string>>,
          keys: seq<string>)
    requires forall i :: 0 <= i < |keys| ==> Get(p, keys[i]) == Get(q, keys[i])
    ensures Pick(p, keys) == Pick(q, keys)
    decreases |keys|
  {
    if keys != [] {
      forall i | 0 <= i < |keys[1..]| ensures Get(p, keys[1..][i]) == Get(q, keys[1..][i]) {
        assert keys[1..][i] == keys[i + 1];
      }
      PickAgrees(p, q, keys[1..]);
    }
  }

  lemma {:induction false} KeysSortAlike(a: seq<Member>, b: seq<Member>)
    requires WellKeyed(Object(a)) && WellKeyed(Object(b)) && forall k :: k in Keys(a) <==> k in Keys(b)
    ensures Sorted(Keys(a)) == Sorted(Keys(b)) && forall k :: k in Sorted(Keys(a)) ==> k in Keys(a)
  {
    SortedIsAscending(Keys(a));
    SortedIsAscending(Keys(b));
    AscendingIsUnique(Sorted(Keys(a)), Sorted(Keys(b)));
  }

  /** `stableStringify` does not see the order of keys, at any depth. */
  lemma {:induction false} KeyOrderIsInvisible(quote: Quote, v: Json, w: Json)
    requires WellKeyed(v) && WellKeyed(w) && Same(v, w)
    ensures Stable(quote, v) == Stable(quote, w)
    decreases v
  {
    match v {
      case Array(items) =>
        forall i | 0 <= i < |items| ensures Stable(quote, items[i]) == Stable(quote, w.items[i]) {
          KeyOrderIsInvisible(quote, items[i], w.items[i]);
        }
        assert seq(|items|, i requires 0 <= i < |items| => Stable(quote, items[i]))
            == seq(|w.items|, i requires 0 <= i < |w.items| => Stable(quote, w.items[i]));
      case Object(members) =>
        var keys := Sorted(Keys(members));
        KeysSortAlike(members, w.members);
        forall i | 0 <= i < |keys|
          ensures Get(Printed(quote, members), keys[i]) == Get(Printed(quote, w.members), keys[i])
        {
          assert keys[i] in Keys(members) && keys[i] in Keys(w.members);
          var a :| 0 <= a < |members| && Keys(members)[a] == keys[i];
          var b :| 0 <= b < |w.members| && Keys(w.members)[b] == keys[i];
          KeyOrderIsInvisible(quote, members[a].value, w.members[b].value);
          SameUndefined(members[a].value, w.members[b].value);
          PrintedAt(quote, members, a);
          PrintedAt(quote, w.members, b);
        }
        PickAgrees(Printed(quote, members), Printed(quote, w.members), keys);
      case _ =>
    }
  }

  lemma PrintedAt(quote: Quote, members: seq<Member>, a: nat)
    requires WellKeyed(Object(members)) && a < |members|
    ensures Get(Printed(quote, members), members[a].key) == Some(Printed(quote, members)[a].1)
  {
    GetAt(Printed(quote, members), a);
  }

  // ---- Reorderings are the same JSON -----------------------------------------------------------

  lemma {:induction false} SameAsItself(v: Json)
    requires WellKeyed(v)
    ensures Same(v, v)
    decreases v
  {
    match v {
      case Array(items) =>
        forall i | 0 <= i < |items| ensures Same(items[i], items[i]) {
          SameAsItself(items[i]);
        }
      case Object(members) =>
        forall i, j | 0 <= i < |members| && 0 <= j < |members| && members[i].key == members[j].key
          ensures Same(members[i].value, members[j].value)
        {
          assert i == j;
          SameAsItself(members[i].value);
        }
      case _ =>
    }
  }

  /** Shuffling the members of an object gives the same text. */
  lemma ShufflingIsInvisible(quote: Quote, a: seq<Member>, b: seq<Member>)
    requires WellKeyed(Object(a)) && WellKeyed(Object(b)) && multiset(a) == multiset(b)
    ensures Stable(quote, Object(a)) == Stable(quote, Object(b))
  {
    forall i | 0 <= i < |a| ensures a[i] in b {
      assert a[i] in multiset(a);
    }
    forall i | 0 <= i < |b| ensures b[i] in a {
      assert b[i] in multiset(b);
    }
    forall k ensures k in Keys(a) <==> k in Keys(b) {
      ShuffleKeepsKey(a, b, k);
      ShuffleKeepsKey(b, a, k);
    }
    forall i, j | 0 <= i < |a| && 0 <= j < |b| && a[i].key == b[j].key
      ensures Same(a[i].value, b[j].value)
    {
      var l :| 0 <= l < |b| && b[l] == a[i];
      assert l == j;
      SameAsItself(a[i].value);
    }
    KeyOrderIsInvisible(quote, Object(a), Object(b));
  }

  lemma ShuffleKeepsKey(a: seq<Member>, b: seq<Member>, k: string)
    requires forall i :: 0 <= i < |a| ==> a[i] in b
    ensures k in Keys(a) ==> k in Keys(b)
  {
    if k in Keys(a) {
      var i :| 0 <= i < |a| && Keys(a)[i] == k;
      var j :| 0 <= j < |b| && b[j] == a[i];
      assert Keys(b)[j] == k;
    }
  }
}

/** ECMAScript string operations several components use. */
module Strings {
  import opened Outcomes

  /** What `trim` takes off and `\s` matches: white space and line terminators. */
  predicate IsSpace(c: char) {
    '\t' <= c <= '\r' || c == ' ' || c == '\U{00A0}' || c == '\U{1680}' || '\U{2000}' <= c <= '\U{200A}'
    || c == '\U{2028}' || c == '\U{2029}' || c == '\U{202F}' || c == '\U{205F}' || c == '\U{3000}' || c == '\U{FEFF}'
  }

  /** These are the white space and line terminators of ECMAScript (sections 12.2 and
      12.3 of ECMA-262), by code point. */
  lemma SpacesAre(c: char)
    ensures IsSpace(c) <==>
            var point := c as int;
            point in {0x09, 0x0a, 0x0b, 0x0c, 0x0d, 0x20, 0xa0, 0x1680, 0x2028, 0x2029, 0x202f, 0x205f, 0x3000, 0xfeff}
            || 0x2000 <= point <= 0x200a
  {
    assert '\t' as int == 0x09 && '\r' as int == 0x0d && ' ' as int == 0x20;
  }

  predicate Blank(s: string) {
    forall i :: 0 <= i < |s| ==> IsSpace(s[i])
  }

  function TrimStart(s: string): string
    decreases |s|
  {
    if s != "" && IsSpace(s[0]) then TrimStart(s[1..]) else s
  }

  function TrimEnd(s: string): string
    decreases |s|
  {
    if s != "" && IsSpace(s[|s| - 1]) then TrimEnd(s[..|s| - 1]) else s
  }

  function Trim(s: string): string {
    TrimEnd(TrimStart(s))
  }

  predicate Trimmed(s: string) {
    s == "" || (!IsSpace(s[0]) && !IsSpace(s[|s| - 1]))
  }

  lemma {:induction false} TrimStartPadded(pad: string, s: string)
    requires Blank(pad) && s != "" && !IsSpace(s[0])
    ensures TrimStart(pad + s) == s
    decreases |pad|
  {
    if pad == "" {
      assert pad + s == s;
    } else {
      assert (pad + s)[1..] == pad[1..] + s;
      TrimStartPadded(pad[1..], s);
    }
  }

  lemma {:induction false} TrimEndPadded(s: string, pad: string)
    requires Blank(pad) && s != "" && !IsSpace(s[|s| - 1])
    ensures TrimEnd(s + pad) == s
    decreases |pad|
  {
    if pad == "" {
      assert s + pad == s;
    } else {
      assert (s + pad)[..|s + pad| - 1] == s + pad[..|pad| - 1];
      TrimEndPadded(s, pad[..|pad| - 1]);
    }
  }

  /** Trimming takes off the padding and nothing else. */
  lemma TrimPadded(before: string, s: string, after: string)
    requires Blank(before) && Blank(after) && Trimmed(s) && s != ""
    ensures Trim(before + s + after) == s
  {
    assert before + s + after == before + (s + after);
    TrimStartPadded(before, s + after);
    TrimEndPadded(s, after);
  }

  lemma {:induction false} TrimStartShortens(s: string)
    ensures |TrimStart(s)| <= |s|
    decreases |s|
  {
    if s != "" && IsSpace(s[0]) {
      TrimStartShortens(s[1..]);
    }
  }

  lemma {:induction false} TrimEndShortens(s: string)
    ensures |TrimEnd(s)| <= |s|
    decreases |s|
  {
    if s != "" && IsSpace(s[|s| - 1]) {
      TrimEndShortens(s[..|s| - 1]);
    }
  }

  lemma TrimShortens(s: string)
    ensures |Trim(s)| <= |s|
  {
    TrimStartShortens(s);
    TrimEndShortens(TrimStart(s));
  }

  lemma {:induction false} TrimStartHolds(s: string)
    requires !Blank(s)
    ensures !Blank(TrimStart(s))
    decreases |s|
  {
    if IsSpace(s[0]) {
      assert s == [s[0]] + s[1..];
      TrimStartHolds(s[1..]);
    }
  }

  lemma {:induction false} TrimEndHolds(s: string)
    requires !Blank(s)
    ensures !Blank(TrimEnd(s))
    decreases |s|
  {
    if IsSpace(s[|s| - 1]) {
      assert s == s[..|s| - 1] + [s[|s| - 1]];
      TrimEndHolds(s[..|s| - 1]);
    }
  }

  /** Trimming leaves something of what is not blank. */
  lemma TrimHolds(s: string)
    requires !Blank(s)
    ensures !Blank(Trim(s)) && Trim(s) != ""
  {
    TrimStartHolds(s);
    TrimEndHolds(TrimStart(s));
  }

  function Join(parts: seq<string>, separator: string): string
    decreases |parts|
  {
    if parts == [] then "" else if |parts| == 1 then parts[0] else parts[0] + separator + Join(parts[1..], separator)
  }

  lemma {:induction false} JoinConcat(a: seq<string>, b: seq<string>, separator: string)
    requires a != [] && b != []
    ensures Join(a + b, separator) == Join(a, separator) + separator + Join(b, separator)
    decreases |a|
  {
    assert (a + b)[1..] == a[1..] + b;
    if |a| == 1 {
      assert a[1..] + b == b;
    } else {
      JoinConcat(a[1..], b, separator);
      var head := a[0] + separator;
      assert head + (Join(a[1..], separator) + separator + Join(b, separator))
          == head + Join(a[1..], separator) + separator + Join(b, separator);
    }
  }

  /** The pieces of a text between occurrences of a character. */
  function Split(s: string, c: char): (parts: seq<string>)
    ensures parts != []
    decreases |s|
  {
    if s == "" then [""]
    else
      var rest := Split(s[1..], c);
      if s[0] == c then [""] + rest else [[s[0]] + rest[0]] + rest[1..]
  }

  lemma {:induction false} SplitPiece(piece: string, c: char, rest: string)
    requires c !in piece
    ensures Split(piece + [c] + rest, c) == [piece] + Split(rest, c)
    ensures Split(piece, c) == [piece]
    decreases |piece|
  {
    if piece == "" {
      assert piece + [c] + rest == [c] + rest;
      assert ([c] + rest)[1..] == rest;
    } else {
      SplitPiece(piece[1..], c, rest);
      assert (piece + [c] + rest)[1..] == piece[1..] + [c] + rest;
      assert [piece[0]] + piece[1..] == piece;
    }
  }

  /** Splitting undoes joining. */
  lemma {:induction false} SplitJoin(parts: seq<string>, c: char)
    requires parts != [] && forall i :: 0 <= i < |parts| ==> c !in parts[i]
    ensures Split(Join(parts, [c]), c) == parts
    decreases |parts|
  {
    if |parts| == 1 {
      SplitPiece(parts[0], c, "");
    } else {
      SplitPiece(parts[0], c, Join(parts[1..], [c]));
      SplitJoin(parts[1..], c);
      assert parts == [parts[0]] + parts[1..];
    }
  }

  predicate HasAt(text: string, p: nat, pattern: string) {
    p + |pattern| <= |text| && text[p..p + |pattern|] == pattern
  }

  lemma HasAtIndex(text: string, p: nat, pattern: string, k: nat)
    requires k < |pattern|
    ensures HasAt(text, p, pattern) ==> text[p + k] == pattern[k]
  {
    if HasAt(text, p, pattern) {
      assert text[p..p + |pattern|][k] == text[p + k];
    }
  }

  /** The pieces of a concatenation where they lie. */
  lemma Pieces(a: string, b: string, c: string, d: string)
    ensures var s := a + b + c + d;
            && HasAt(s, 0, a) && HasAt(s, |a|, b) && HasAt(s, |a| + |b|, c) && HasAt(s, |a| + |b| + |c|, d)
            && s[|a|..|a| + |b|] == b && s[|a| + |b| + |c|..] == d
  {
  }

  lemma HasWithin(s: string, p: nat, part: string, q: nat, inner: string)
    requires HasAt(s, p, part) && HasAt(part, q, inner)
    ensures HasAt(s, p + q, inner)
  {
    forall k | 0 <= k < |inner| ensures s[p + q..p + q + |inner|][k] == inner[k] {
      HasAtIndex(s, p, part, q + k);
      HasAtIndex(part, q, inner, k);
    }
  }

  /** `indexOf` from a position on. */
  function Find(text: string, pattern: string, from: nat): (at: Option<nat>)
    ensures at.Some? ==> from <= at.value && HasAt(text, at.value, pattern)
    ensures forall p :: from <= p < (if at.Some? then at.value else |text| + 1) ==> !HasAt(text, p, pattern)
    decreases |text| + 1 - from
  {
    if |text| < from then None
    else if HasAt(text, from, pattern) then Some(from)
    else Find(text, pattern, from + 1)
  }
}

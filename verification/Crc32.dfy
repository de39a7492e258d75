/** The table-driven CRC-32 of apps/web/lib/zip.ts against long division by the
    reflected generator polynomial, one bit at a time (section 8 of RFC 1952). */
module Crc32 {
  type Byte = bv8

  const POLYNOMIAL: bv32 := 0xedb8_8320
  const ONES: bv32 := 0xffff_ffff

  /** Shift one place; subtract the generator when a one falls out. */
  function Shift(c: bv32): bv32 {
    if c & 1 == 1 then POLYNOMIAL ^ (c >> 1) else c >> 1
  }

  function Iterate<W>(f: W -> W, x: W, k: nat): W
    decreases k
  {
    if k == 0 then x else Iterate(f, f(x), k - 1)
  }

  function Shifts(c: bv32, k: nat): bv32 {
    Iterate(Shift, c, k)
  }

  function Xor(a: bv32, b: bv32): bv32 {
    a ^ b
  }

  /** Repeating an additive step is additive. */
  lemma {:induction false} IterateIsAdditive<W(!new)>(f: W -> W, add: (W, W) -> W, a: W, b: W, k: nat)
    requires forall x, y :: f(add(x, y)) == add(f(x), f(y))
    ensures Iterate(f, add(a, b), k) == add(Iterate(f, a, k), Iterate(f, b, k))
    decreases k
  {
    if k != 0 {
      IterateIsAdditive(f, add, f(a), f(b), k - 1);
    }
  }

  lemma {:induction false} IterateAdds<W>(f: W -> W, x: W, j: nat, k: nat)
    ensures Iterate(f, x, j + k) == Iterate(f, Iterate(f, x, j), k)
    decreases j
  {
    if j != 0 {
      IterateAdds(f, f(x), j - 1, k);
    }
  }

  // ---- Word facts ----------------------------------------------------------------

  function LowByte(x: bv32): Byte {
    (x & 0xff) as bv8
  }

  function Down8(x: bv32): bv32 {
    x >> 8
  }

  function Widen(b: Byte): bv32 {
    b as bv32
  }

  function High(x: bv32): bv32 {
    x & 0xffff_ff00
  }

  lemma SplitWord(x: bv32)
    ensures Xor(Widen(LowByte(x)), High(x)) == x
    ensures High(x) & 0xff == 0 && Down8(High(x)) == Down8(x)
  {
  }

  lemma AddByte(b: Byte, x: bv32)
    ensures Down8(Xor(x, Widen(b))) == Down8(x)
  {
  }

  lemma WidenIsLinear(a: Byte, b: Byte)
    ensures Widen(a ^ b) == Xor(Widen(a), Widen(b))
  {
  }

  function Half(c: bv32): bv32 {
    c >> 1
  }

  predicate Odd(c: bv32) {
    c & 1 == 1
  }

  lemma HalfIsLinear(a: bv32, b: bv32)
    ensures Half(Xor(a, b)) == Xor(Half(a), Half(b))
  {
  }

  lemma OddIsLinear(a: bv32, b: bv32)
    ensures Odd(Xor(a, b)) <==> Odd(a) != Odd(b)
  {
    assert (a ^ b) & 1 == (a & 1) ^ (b & 1);
    assert a & 1 == 0 || a & 1 == 1;
    assert b & 1 == 0 || b & 1 == 1;
  }

  lemma XorCancels(p: bv32, a: bv32, b: bv32)
    ensures Xor(Xor(p, a), Xor(p, b)) == Xor(a, b)
  {
  }

  lemma XorRegroups(p: bv32, a: bv32, b: bv32)
    ensures Xor(Xor(p, a), b) == Xor(p, Xor(a, b))
  {
  }

  lemma XorSwaps(a: bv32, p: bv32, b: bv32)
    ensures Xor(a, Xor(p, b)) == Xor(p, Xor(a, b))
  {
  }

  lemma ShiftIs(c: bv32)
    ensures Shift(c) == if Odd(c) then Xor(POLYNOMIAL, Half(c)) else Half(c)
  {
  }

  lemma ShiftIsLinear(a: bv32, b: bv32)
    ensures Shift(Xor(a, b)) == Xor(Shift(a), Shift(b))
  {
    ShiftIs(a);
    ShiftIs(b);
    ShiftIs(Xor(a, b));
    HalfIsLinear(a, b);
    OddIsLinear(a, b);
    if Odd(a) && Odd(b) {
      XorCancels(POLYNOMIAL, Half(a), Half(b));
    } else if Odd(a) {
      XorRegroups(POLYNOMIAL, Half(a), Half(b));
    } else if Odd(b) {
      XorSwaps(Half(a), POLYNOMIAL, Half(b));
    }
  }

  lemma ShiftIsLinearEverywhere()
    ensures forall x, y :: Shift(Xor(x, y)) == Xor(Shift(x), Shift(y))
  {
    forall x, y ensures Shift(Xor(x, y)) == Xor(Shift(x), Shift(y)) {
      ShiftIsLinear(x, y);
    }
  }

  lemma ShiftsAreLinear(a: bv32, b: bv32, k: nat)
    ensures Shifts(Xor(a, b), k) == Xor(Shifts(a, k), Shifts(b, k))
  {
    ShiftIsLinearEverywhere();
    IterateIsAdditive(Shift, Xor, a, b, k);
  }

  // ---- The table -------------------------------------------------------------------

  function TableEntry(n: Byte): bv32 {
    Shifts(Widen(n), 8)
  }

  ghost predicate IsTable(table: seq<bv32>) {
    |table| == 256 && forall n: Byte :: table[n as int] == TableEntry(n)
  }

  /** The table is additive: the entry of a sum is the sum of the entries. */
  lemma TableIsLinear(a: Byte, b: Byte)
    ensures TableEntry(a ^ b) == Xor(TableEntry(a), TableEntry(b))
  {
    WidenIsLinear(a, b);
    ShiftsAreLinear(Widen(a), Widen(b), 8);
  }

  /** The inner loop: eight steps from the index. */
  method MakeEntry(n: Byte) returns (c: bv32)
    ensures c == TableEntry(n)
  {
    c := n as bv32;
    for k := 0 to 8
      invariant Shifts(c, 8 - k) == TableEntry(n)
    {
      c := if c & 1 == 1 then POLYNOMIAL ^ (c >> 1) else c >> 1;
    }
  }

  /** The outer loop. */
  method MakeTable() returns (table: seq<bv32>)
    ensures IsTable(table)
  {
    var words := new bv32[256](_ => 0);
    for n := 0 to 256
      invariant forall m: Byte :: m as int < n ==> words[m as int] == TableEntry(m)
    {
      words[n] := MakeEntry(n as bv8);
    }
    table := words[..];
  }

  // ---- Eight steps at once ---------------------------------------------------------

  lemma EvenShifts(c: bv32, k: nat)
    requires c & 1 == 0 && 0 < k
    ensures Shifts(c, k) == Shifts(c >> 1, k - 1)
  {
  }

  lemma EightZeros(c: bv32)
    requires c & 0xff == 0
    ensures c & 1 == 0 && (c >> 1) & 1 == 0 && (c >> 2) & 1 == 0 && (c >> 3) & 1 == 0
    ensures (c >> 4) & 1 == 0 && (c >> 5) & 1 == 0 && (c >> 6) & 1 == 0 && (c >> 7) & 1 == 0
  {
  }

  lemma EightHalves(c: bv32)
    ensures (c >> 1) >> 1 == c >> 2 && (c >> 2) >> 1 == c >> 3 && (c >> 3) >> 1 == c >> 4
    ensures (c >> 4) >> 1 == c >> 5 && (c >> 5) >> 1 == c >> 6 && (c >> 6) >> 1 == c >> 7 && (c >> 7) >> 1 == c >> 8
  {
  }

  /** A word whose low byte is zero just moves down eight places. */
  lemma HighShifts(c: bv32)
    requires c & 0xff == 0
    ensures Shifts(c, 8) == Down8(c)
  {
    EightZeros(c);
    EightHalves(c);
    EvenShifts(c, 8);
    EvenShifts(c >> 1, 7);
    EvenShifts(c >> 2, 6);
    EvenShifts(c >> 3, 5);
    EvenShifts(c >> 4, 4);
    EvenShifts(c >> 5, 3);
    EvenShifts(c >> 6, 2);
    EvenShifts(c >> 7, 1);
  }

  /** One table lookup is eight division steps. */
  lemma LookupIsEightShifts(x: bv32)
    ensures Shifts(x, 8) == Xor(TableEntry(LowByte(x)), Down8(x))
  {
    SplitWord(x);
    ShiftsAreLinear(Widen(LowByte(x)), High(x), 8);
    HighShifts(High(x));
  }

  /** The register after a byte: the byte is added, then eight steps follow. */
  function Feed(c: bv32, b: Byte): bv32 {
    Shifts(Xor(c, Widen(b)), 8)
  }

  function FeedAll(c: bv32, bytes: seq<Byte>): bv32
    decreases |bytes|
  {
    if bytes == [] then c else FeedAll(Feed(c, bytes[0]), bytes[1..])
  }

  function Crc(bytes: seq<Byte>): bv32 {
    Xor(FeedAll(ONES, bytes), ONES)
  }

  lemma {:induction false} FeedAllSnoc(c: bv32, bytes: seq<Byte>, b: Byte)
    ensures FeedAll(c, bytes + [b]) == Feed(FeedAll(c, bytes), b)
    decreases |bytes|
  {
    if bytes == [] {
      assert [b][1..] == [];
    } else {
      assert (bytes + [b])[1..] == bytes[1..] + [b];
      FeedAllSnoc(Feed(c, bytes[0]), bytes[1..], b);
    }
  }

  lemma FeedByLookup(c: bv32, b: Byte)
    ensures Feed(c, b) == Xor(TableEntry(LowByte(Xor(c, Widen(b)))), Down8(c))
  {
    LookupIsEightShifts(Xor(c, Widen(b)));
    AddByte(b, c);
  }

  method Lookup(table: seq<bv32>, c: bv32, b: Byte) returns (next: bv32)
    requires IsTable(table)
    ensures next == Feed(c, b)
  {
    FeedByLookup(c, b);
    next := Xor(table[LowByte(Xor(c, Widen(b))) as int], Down8(c));
  }

  /** The loop of crc32: one lookup a byte. */
  method ComputeCrc(table: seq<bv32>, bytes: seq<Byte>) returns (crc: bv32)
    requires IsTable(table)
    ensures crc == Crc(bytes)
  {
    var c := ONES;
    for i := 0 to |bytes|
      invariant c == FeedAll(ONES, bytes[..i])
    {
      assert FeedAll(ONES, bytes[..i + 1]) == Feed(c, bytes[i]) by {
        assert bytes[..i + 1] == bytes[..i] + [bytes[i]];
        FeedAllSnoc(ONES, bytes[..i], bytes[i]);
      }
      c := Lookup(table, c, bytes[i]);
    }
    assert bytes[..|bytes|] == bytes;
    crc := Xor(c, ONES);
  }

  // ---- Bits ------------------------------------------------------------------------

  /** The `k` low bits, lowest first: the order in which RFC 1952 feeds them. */
  function LowBits(w: bv32, k: nat): (bits: seq<bool>)
    ensures |bits| == k
    decreases k
  {
    if k == 0 then [] else [Odd(w)] + LowBits(Half(w), k - 1)
  }

  function Bit(x: bool): bv32 {
    if x then 1 else 0
  }

  /** The register after one message bit. */
  function FeedBit(c: bv32, x: bool): bv32 {
    Shift(Xor(c, Bit(x)))
  }

  function FeedBits(c: bv32, bits: seq<bool>): bv32
    decreases |bits|
  {
    if bits == [] then c else FeedBits(FeedBit(c, bits[0]), bits[1..])
  }

  function Bits(bytes: seq<Byte>): seq<bool>
    decreases |bytes|
  {
    if bytes == [] then [] else LowBits(Widen(bytes[0]), 8) + Bits(bytes[1..])
  }

  /** Adding a word and shifting feeds its low bit and keeps the rest added. */
  lemma ShiftFeedsLowBit(c: bv32, w: bv32)
    ensures Shift(Xor(c, w)) == Xor(FeedBit(c, Odd(w)), Half(w))
  {
    var rest := Xor(w, Bit(Odd(w)));
    LowBitOut(w);
    assert Xor(Xor(c, Bit(Odd(w))), rest) == Xor(c, w) by {
      XorRegroups(c, Bit(Odd(w)), rest);
    }
    ShiftIsLinear(Xor(c, Bit(Odd(w))), rest);
    ShiftIs(rest);
  }

  lemma EvenOut(w: bv32)
    requires !Odd(w)
    ensures Xor(w, 0) == w && Xor(0, w) == w
  {
  }

  lemma OddOut(w: bv32)
    requires Odd(w)
    ensures !Odd(Xor(w, 1)) && Half(Xor(w, 1)) == Half(w)
  {
  }

  lemma OddBack(w: bv32)
    ensures Xor(1, Xor(w, 1)) == w
  {
  }

  lemma LowBitOut(w: bv32)
    ensures var rest := Xor(w, Bit(Odd(w)));
            !Odd(rest) && Half(rest) == Half(w) && Xor(Bit(Odd(w)), rest) == w
  {
    if Odd(w) {
      OddOut(w);
      OddBack(w);
      assert Bit(Odd(w)) == 1;
    } else {
      EvenOut(w);
      assert Bit(Odd(w)) == 0;
    }
  }

  lemma {:induction false} ShiftsFeedBits(c: bv32, w: bv32, k: nat)
    ensures Shifts(Xor(c, w), k) == Xor(FeedBits(c, LowBits(w, k)), Iterate(Half, w, k))
    decreases k
  {
    hide Xor, Half, Odd, FeedBit, Shift;
    if k != 0 {
      ShiftFeedsLowBit(c, w);
      ShiftsFeedBits(FeedBit(c, Odd(w)), Half(w), k - 1);
      assert LowBits(w, k)[1..] == LowBits(Half(w), k - 1);
    }
  }

  lemma OneHalf(w: bv32, k: nat)
    requires 0 < k
    ensures Iterate(Half, w, k) == Iterate(Half, w >> 1, k - 1)
  {
  }

  lemma HalvesRunOut(w: bv32)
    ensures Iterate(Half, w, 8) == Down8(w)
  {
    EightHalves(w);
    OneHalf(w, 8);
    OneHalf(w >> 1, 7);
    OneHalf(w >> 2, 6);
    OneHalf(w >> 3, 5);
    OneHalf(w >> 4, 4);
    OneHalf(w >> 5, 3);
    OneHalf(w >> 6, 2);
    OneHalf(w >> 7, 1);
  }

  lemma XorZero(a: bv32)
    ensures Xor(a, 0) == a
  {
  }

  /** Eight steps on a byte added at once are eight steps fed bit by bit. */
  lemma FeedIsBitwise(c: bv32, b: Byte)
    ensures Feed(c, b) == FeedBits(c, LowBits(Widen(b), 8))
  {
    ShiftsFeedBits(c, Widen(b), 8);
    HalvesRunOut(Widen(b));
    ByteEnds(b);
    XorZero(FeedBits(c, LowBits(Widen(b), 8)));
  }

  lemma ByteEnds(b: Byte)
    ensures Down8(Widen(b)) == 0
  {
  }

  lemma {:induction false} FeedBitsConcat(c: bv32, a: seq<bool>, b: seq<bool>)
    ensures FeedBits(c, a + b) == FeedBits(FeedBits(c, a), b)
    decreases |a|
  {
    if a == [] {
      assert a + b == b;
    } else {
      assert (a + b)[1..] == a[1..] + b;
      FeedBitsConcat(FeedBit(c, a[0]), a[1..], b);
    }
  }

  lemma {:induction false} FeedAllIsBitwise(c: bv32, bytes: seq<Byte>)
    ensures FeedAll(c, bytes) == FeedBits(c, Bits(bytes))
    decreases |bytes|
  {
    if bytes != [] {
      FeedIsBitwise(c, bytes[0]);
      FeedBitsConcat(c, LowBits(Widen(bytes[0]), 8), Bits(bytes[1..]));
      FeedAllIsBitwise(Feed(c, bytes[0]), bytes[1..]);
    }
  }

  // ---- Long division ---------------------------------------------------------------

  /** A polynomial over the two-element field, highest power first. */
  type Poly = seq<bool>

  function Plus(a: Poly, b: Poly): (c: Poly)
    requires |a| == |b|
    ensures |c| == |a|
  {
    seq(|a|, i requires 0 <= i < |a| => a[i] != b[i])
  }

  function Zeros(k: nat): Poly {
    seq(k, _ => false)
  }

  /** The generator without its leading term, x to the 32nd. */
  function Generator(): (g: Poly)
    ensures |g| == 32
  {
    LowBits(POLYNOMIAL, 32)
  }

  /** Schoolbook long division by the generator: while more than 32 terms are
      left the leading one goes, and takes the generator with it when it is set. */
  function Remainder(p: Poly): Poly
    decreases |p|
  {
    if |p| <= 32 then p
    else if p[0] then Remainder(Plus(p[1..33], Generator()) + p[33..])
    else Remainder(p[1..])
  }

  /** One step of the register, read as coefficients. */
  lemma ShiftInBits(c: bv32)
    ensures var bits := LowBits(c, 32);
            LowBits(Shift(c), 32) == if bits[0] then Plus(bits[1..] + [false], Generator()) else bits[1..] + [false]
  {
    ShiftIs(c);
    HalfInBits(c);
    XorInBits(POLYNOMIAL, Half(c), 32);
    PlusCommutes(LowBits(POLYNOMIAL, 32), LowBits(Half(c), 32));
  }

  lemma PlusCommutes(a: Poly, b: Poly)
    requires |a| == |b|
    ensures Plus(a, b) == Plus(b, a)
  {
  }

  lemma PlusCons(x: bool, a: Poly, y: bool, b: Poly)
    requires |a| == |b|
    ensures Plus([x] + a, [y] + b) == [x != y] + Plus(a, b)
  {
  }

  lemma {:induction false} XorInBits(a: bv32, b: bv32, k: nat)
    ensures LowBits(Xor(a, b), k) == Plus(LowBits(a, k), LowBits(b, k))
    decreases k
  {
    hide Xor, Half, Odd;
    if k != 0 {
      OddIsLinear(a, b);
      HalfIsLinear(a, b);
      XorInBits(Half(a), Half(b), k - 1);
      PlusCons(Odd(a), LowBits(Half(a), k - 1), Odd(b), LowBits(Half(b), k - 1));
    }
  }

  lemma {:induction false} LowBitsSnoc(w: bv32, k: nat)
    ensures LowBits(w, k + 1) == LowBits(w, k) + [Odd(Iterate(Half, w, k))]
    decreases k
  {
    if k != 0 {
      LowBitsSnoc(Half(w), k - 1);
    }
  }

  lemma DownRunsOut(w: bv32)
    ensures Down8(Down8(Down8(Down8(w)))) == 0
  {
  }

  lemma ThirtyTwoHalves(w: bv32)
    ensures Iterate(Half, w, 32) == 0
  {
    HalvesRunOut(w);
    HalvesRunOut(Down8(w));
    HalvesRunOut(Down8(Down8(w)));
    HalvesRunOut(Down8(Down8(Down8(w))));
    IterateAdds(Half, w, 8, 24);
    IterateAdds(Half, Down8(w), 8, 16);
    IterateAdds(Half, Down8(Down8(w)), 8, 8);
    DownRunsOut(w);
  }

  lemma ZeroIsEven()
    ensures !Odd(0)
  {
  }

  lemma HalfInBits(c: bv32)
    ensures LowBits(Half(c), 32) == LowBits(c, 32)[1..] + [false]
  {
    LowBitsSnoc(Half(c), 31);
    ThirtyTwoHalves(c);
    IterateAdds(Half, c, 1, 31);
    assert Iterate(Half, c, 1) == Half(c);
    ZeroIsEven();
  }

  lemma {:induction false} ZeroInBits(k: nat)
    ensures LowBits(0, k) == Zeros(k)
    decreases k
  {
    if k != 0 {
      ZeroIsEven();
      assert Half(0) == 0;
      ZeroInBits(k - 1);
    }
  }

  lemma BitInBits(x: bool)
    ensures LowBits(Bit(x), 32) == [x] + Zeros(31)
  {
    ZeroInBits(31);
    assert Half(0) == 0 && Half(1) == 0 && Odd(1) && !Odd(0);
  }

  /** Adding a message bit to the register flips the leading coefficient. */
  lemma AddBitInBits(c: bv32, x: bool)
    ensures LowBits(Xor(c, Bit(x)), 32) == [LowBits(c, 32)[0] != x] + LowBits(c, 32)[1..]
  {
    XorInBits(c, Bit(x), 32);
    var bits := LowBits(c, 32);
    assert Plus(bits, LowBits(Bit(x), 32)) == [bits[0] != x] + bits[1..] by {
      BitInBits(x);
      PlusZeros(bits, x);
    }
  }

  lemma PlusZeros(p: Poly, x: bool)
    requires |p| == 32
    ensures Plus(p, [x] + Zeros(31)) == [p[0] != x] + p[1..]
  {
  }

  /** The first division step on a dividend whose head has `c` added in. */
  lemma FirstStep(d: Poly, c: Poly)
    requires 32 < |d| && |c| == 32
    ensures var whole := Plus(d[..32], c) + d[32..];
            var next := c[1..] + [false];
            var fed := if d[0] != c[0] then Plus(next, Generator()) else next;
            Remainder(whole) == Remainder(Plus(d[1..33], fed) + d[33..])
  {
    var whole := Plus(d[..32], c) + d[32..];
    var next := c[1..] + [false];
    assert whole[0] == (d[0] != c[0]);
    HeadMovesUp(d, c);
    if whole[0] {
      PlusAssociates(d[1..33], next, Generator());
    } else {
      assert whole[1..] == whole[1..33] + whole[33..];
    }
  }

  lemma HeadMovesUp(d: Poly, c: Poly)
    requires 32 < |d| && |c| == 32
    ensures var whole := Plus(d[..32], c) + d[32..];
            whole[1..33] == Plus(d[1..33], c[1..] + [false]) && whole[33..] == d[33..]
  {
    var whole := Plus(d[..32], c) + d[32..];
    var sum := Plus(d[1..33], c[1..] + [false]);
    forall i | 0 <= i < 32 ensures whole[1..33][i] == sum[i] {
      assert whole[1..33][i] == whole[i + 1];
    }
  }

  lemma PlusAssociates(a: Poly, b: Poly, c: Poly)
    requires |a| == |b| == |c|
    ensures Plus(Plus(a, b), c) == Plus(a, Plus(b, c))
  {
  }

  /** The register is the running remainder: feeding it a message divides the
      message, followed by 32 zeros and with the register added to its head. */
  lemma {:induction false} RegisterIsRemainder(c: bv32, m: Poly)
    ensures var d := m + Zeros(32);
            LowBits(FeedBits(c, m), 32) == Remainder(Plus(d[..32], LowBits(c, 32)) + d[32..])
    decreases |m|
  {
    var d := m + Zeros(32);
    if m == [] {
      assert d[..32] == Zeros(32) && d[32..] == [];
      assert Plus(Zeros(32), LowBits(c, 32)) + [] == LowBits(c, 32);
    } else {
      var d' := m[1..] + Zeros(32);
      assert d'[..32] == d[1..33] && d'[32..] == d[33..];
      RegisterIsRemainder(FeedBit(c, m[0]), m[1..]);
      AddBitInBits(c, m[0]);
      ShiftInBits(Xor(c, Bit(m[0])));
      FirstStep(d, LowBits(c, 32));
    }
  }

  function Complement(p: Poly): Poly {
    seq(|p|, i requires 0 <= i < |p| => !p[i])
  }

  lemma OnesInBits(p: Poly)
    requires |p| == 32
    ensures Plus(p, LowBits(ONES, 32)) == Complement(p)
  {
    AllOnes();
  }

  lemma AllOnes()
    ensures LowBits(ONES, 32) == Ones(32)
  {
    EightOnes(0xffff_ffff, 24);
    EightOnes(0x00ff_ffff, 16);
    EightOnes(0x0000_ffff, 8);
    EightOnes(0x0000_00ff, 0);
    assert LowBits(0, 0) == [];
    assert Ones(32) == Ones(8) + (Ones(8) + (Ones(8) + (Ones(8) + [])));
  }

  function Ones(k: nat): Poly {
    seq(k, _ => true)
  }

  lemma OneOut(w: bv32, k: nat)
    requires Odd(w)
    ensures LowBits(w, k + 1) == [true] + LowBits(Half(w), k)
  {
  }

  function Down4(w: bv32): bv32 {
    w >> 4
  }

  predicate Nibble(w: bv32) {
    w & 0xf == 0xf
  }

  lemma FourHalves(w: bv32)
    ensures Half(Half(Half(Half(w)))) == Down4(w)
  {
  }

  lemma NibbleIsOdd(w: bv32)
    requires Nibble(w)
    ensures Odd(w) && Odd(Half(w)) && Odd(Half(Half(w))) && Odd(Half(Half(Half(w))))
  {
  }

  lemma FourOnes(w: bv32, k: nat)
    requires Nibble(w)
    ensures LowBits(w, k + 4) == Ones(4) + LowBits(Down4(w), k)
  {
    hide LowBits, Odd, Half;
    NibbleIsOdd(w);
    FourHalves(w);
    OneOut(w, k + 3);
    OneOut(Half(w), k + 2);
    OneOut(Half(Half(w)), k + 1);
    OneOut(Half(Half(Half(w))), k);
    assert Ones(4) + LowBits(Down4(w), k) == [true] + ([true] + ([true] + ([true] + LowBits(Down4(w), k))));
  }

  lemma TwoNibbles(w: bv32)
    requires w & 0xff == 0xff
    ensures Nibble(w) && Nibble(Down4(w)) && Down4(Down4(w)) == Down8(w)
  {
  }

  lemma EightOnes(w: bv32, k: nat)
    requires w & 0xff == 0xff
    ensures LowBits(w, k + 8) == Ones(8) + LowBits(Down8(w), k)
  {
    TwoNibbles(w);
    FourOnes(w, k + 4);
    FourOnes(Down4(w), k);
    assert Ones(8) + LowBits(Down8(w), k) == Ones(4) + (Ones(4) + LowBits(Down8(w), k));
  }

  lemma FourBits(w: bv32, k: nat)
    ensures LowBits(w, k + 4) == [Odd(w), Odd(Half(w)), Odd(Half(Half(w))), Odd(Half(Half(Half(w))))]
                                 + LowBits(Down4(w), k)
  {
    hide LowBits, Odd, Half;
    FourHalves(w);
    OneBit(w, k + 3);
    OneBit(Half(w), k + 2);
    OneBit(Half(Half(w)), k + 1);
    OneBit(Half(Half(Half(w))), k);
  }

  lemma OneBit(w: bv32, k: nat)
    ensures LowBits(w, k + 1) == [Odd(w)] + LowBits(Half(w), k)
  {
  }

  lemma NibbleBits(w: bv32, k: nat)
    ensures LowBits(w, k + 4) == [w & 1 == 1, w & 2 == 2, w & 4 == 4, w & 8 == 8] + LowBits(Down4(w), k)
  {
    FourBits(w, k);
    NibbleOdds(w);
  }

  lemma NibbleOdds(w: bv32)
    ensures Odd(w) == (w & 1 == 1) && Odd(Half(w)) == (w & 2 == 2)
    ensures Odd(Half(Half(w))) == (w & 4 == 4) && Odd(Half(Half(Half(w)))) == (w & 8 == 8)
  {
  }

  /** The generator is that of section 8 of RFC 1952: the powers of x it has below
      the 32nd. */
  lemma GeneratorIs()
    ensures Generator() == seq(32, i => 31 - i in {26, 23, 22, 16, 12, 11, 10, 8, 7, 5, 4, 2, 1, 0})
  {
    hide LowBits;
    NibbleBits(0xedb8_8320, 28);
    NibbleBits(0x0edb_8832, 24);
    NibbleBits(0x00ed_b883, 20);
    NibbleBits(0x000e_db88, 16);
    NibbleBits(0x0000_edb8, 12);
    NibbleBits(0x0000_0edb, 8);
    NibbleBits(0x0000_00ed, 4);
    NibbleBits(0x0000_000e, 0);
    NoBits(0);
  }

  lemma NoBits(w: bv32)
    ensures LowBits(w, 0) == []
  {
  }

  /** The message as RFC 1952 divides it: its bits with 32 zeros behind them and
      the first 32 of the whole complemented. */
  function Dividend(bytes: seq<Byte>): Poly {
    var d := Bits(bytes) + Zeros(32);
    Complement(d[..32]) + d[32..]
  }

  /** The table-driven checksum is the complement of the remainder that long
      division by the generator leaves, for every byte string. */
  lemma CrcIsLongDivision(bytes: seq<Byte>)
    ensures LowBits(Crc(bytes), 32) == Complement(Remainder(Dividend(bytes)))
  {
    var m := Bits(bytes);
    var d := m + Zeros(32);
    FeedAllIsBitwise(ONES, bytes);
    RegisterIsRemainder(ONES, m);
    OnesInBits(d[..32]);
    XorInBits(FeedAll(ONES, bytes), ONES, 32);
    OnesInBits(LowBits(FeedAll(ONES, bytes), 32));
  }
}

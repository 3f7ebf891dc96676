/**
 CRC-32 as in section 8 of RFC 1952: a running word, one table lookup per byte.
 */
module Crc32 {
  const POLYNOMIAL: bv32 := 0xEDB8_8320

  // The word operations have names, so that proofs can do without their bits.

  function Xor(a: bv32, b: bv32): bv32 { a ^ b }

  function Half(c: bv32): bv32 { c >> 1 }

  predicate Odd(c: bv32) { c & 1 == 1 }

  function LowByte(c: bv32): bv32 { c & 0xFF }

  function HighBytes(c: bv32): bv32 { c >> 8 }

  function Word(b: bv8): bv32 { b as bv32 }

  /// One bit of the division.
  function Shift(c: bv32): bv32 {
    if Odd(c) then Xor(POLYNOMIAL, Half(c)) else Half(c)
  }

  /// An entry of the table.
  function Table(n: bv32): bv32 {
    Shift(Shift(Shift(Shift(Shift(Shift(Shift(Shift(n))))))))
  }

  /// The running word after one more byte.
  function Step(c: bv32, b: bv8): bv32 {
    Xor(Table(LowByte(Xor(c, Word(b)))), HighBytes(c))
  }

  function Update(c: bv32, bytes: seq<bv8>): bv32
    decreases |bytes|
  {
    if bytes == [] then c else Update(Step(c, bytes[0]), bytes[1..])
  }

  function Crc(bytes: seq<bv8>): bv32 {
    Xor(Update(0xFFFF_FFFF, bytes), 0xFFFF_FFFF)
  }

  // ---------------------------------------------------------------------------
  // One step loses nothing
  // ---------------------------------------------------------------------------

  /// What Shift was applied to: the polynomial sets the top bit, which tells the branches apart.
  function Unshift(d: bv32): bv32 {
    if d & 0x8000_0000 != 0 then ((d ^ POLYNOMIAL) << 1) | 1 else d << 1
  }

  lemma ShiftIsInjective(c: bv32)
    ensures Unshift(Shift(c)) == c
  {
  }

  lemma TableIsInjective(x: bv32, y: bv32)
    requires Table(x) == Table(y)
    ensures x == y
  {
    hide Shift, Unshift;
    var x1, y1 := Shift(x), Shift(y);
    var x2, y2 := Shift(x1), Shift(y1);
    var x3, y3 := Shift(x2), Shift(y2);
    var x4, y4 := Shift(x3), Shift(y3);
    var x5, y5 := Shift(x4), Shift(y4);
    var x6, y6 := Shift(x5), Shift(y5);
    var x7, y7 := Shift(x6), Shift(y6);
    SameBefore(x7, y7);
    SameBefore(x6, y6);
    SameBefore(x5, y5);
    SameBefore(x4, y4);
    SameBefore(x3, y3);
    SameBefore(x2, y2);
    SameBefore(x1, y1);
    SameBefore(x, y);
  }

  lemma SameBefore(x: bv32, y: bv32)
    requires Shift(x) == Shift(y)
    ensures x == y
  {
    hide Shift, Unshift;
    ShiftIsInjective(x);
    ShiftIsInjective(y);
  }

  lemma SameLowBit(low: bv32, high: bv32)
    requires !Odd(high)
    ensures Odd(Xor(low, high)) == Odd(low)
  {
  }

  lemma HalfOfXor(a: bv32, b: bv32)
    ensures Half(Xor(a, b)) == Xor(Half(a), Half(b))
  {
  }

  lemma XorAssociates(a: bv32, b: bv32, c: bv32)
    ensures Xor(a, Xor(b, c)) == Xor(Xor(a, b), c)
  {
  }

  lemma Cancel(a: bv32, b: bv32, c: bv32)
    requires Xor(a, c) == Xor(b, c)
    ensures a == b
  {
  }

  /// Bits above the lowest just move.
  lemma HighBitsMove(low: bv32, high: bv32)
    requires !Odd(high)
    ensures Shift(Xor(low, high)) == Xor(Shift(low), Half(high))
  {
    hide Xor, Half, Odd;
    SameLowBit(low, high);
    HalfOfXor(low, high);
    XorAssociates(POLYNOMIAL, Half(low), Half(high));
  }

  function Double(c: bv32): bv32 { c << 1 }

  predicate Top(c: bv32) { c & 0x8000_0000 != 0 }

  lemma HalfOfDouble(c: bv32)
    ensures !Odd(Double(c))
    ensures !Top(c) ==> Half(Double(c)) == c
  {
  }

  /// The upper three bytes of a word may be doubled eight times before they reach the top,
  /// and are then back in place.
  lemma RoomAbove(c: bv32)
    ensures var h0 := HighBytes(c); var h1 := Double(h0); var h2 := Double(h1); var h3 := Double(h2);
            var h4 := Double(h3); var h5 := Double(h4); var h6 := Double(h5); var h7 := Double(h6);
            && !Top(h0) && !Top(h1) && !Top(h2) && !Top(h3) && !Top(h4) && !Top(h5) && !Top(h6) && !Top(h7)
            && c == Xor(LowByte(c), Double(h7))
  {
  }

  lemma TableOfWord(c: bv32)
    ensures Table(c) == Xor(Table(LowByte(c)), HighBytes(c))
  {
    RoomAbove(c);
    hide Shift, Xor, Half, Odd, LowByte, HighBytes, Double, Top;
    var h0 := HighBytes(c);
    var h1 := Double(h0);
    var h2 := Double(h1);
    var h3 := Double(h2);
    var h4 := Double(h3);
    var h5 := Double(h4);
    var h6 := Double(h5);
    var h7 := Double(h6);
    var l0 := LowByte(c);
    var l1 := Shift(l0);
    var l2 := Shift(l1);
    var l3 := Shift(l2);
    var l4 := Shift(l3);
    var l5 := Shift(l4);
    var l6 := Shift(l5);
    var l7 := Shift(l6);
    DoubleMoves(l0, h7);
    DoubleMoves(l1, h6);
    DoubleMoves(l2, h5);
    DoubleMoves(l3, h4);
    DoubleMoves(l4, h3);
    DoubleMoves(l5, h2);
    DoubleMoves(l6, h1);
    DoubleMoves(l7, h0);
  }

  lemma DoubleMoves(low: bv32, high: bv32)
    requires !Top(high)
    ensures Shift(Xor(low, Double(high))) == Xor(Shift(low), high)
  {
    hide Shift, Xor, Half, Odd, Double, Top;
    HalfOfDouble(high);
    HighBitsMove(low, Double(high));
  }

  lemma ByteLeavesHigh(c: bv32, b: bv8)
    ensures HighBytes(Xor(c, Word(b))) == HighBytes(c)
  {
  }

  /// The table form of a step is eight bits of plain division.
  lemma StepIsDivision(c: bv32, b: bv8)
    ensures Step(c, b) == Table(Xor(c, Word(b)))
  {
    hide Table, Xor, LowByte, HighBytes, Word;
    ByteLeavesHigh(c, b);
    TableOfWord(Xor(c, Word(b)));
  }

  /// A step is injective in the running word for a fixed byte.
  lemma StepKeepsWords(c: bv32, d: bv32, b: bv8)
    requires Step(c, b) == Step(d, b)
    ensures c == d
  {
    hide Table, Step, Xor, Word;
    StepIsDivision(c, b);
    StepIsDivision(d, b);
    TableIsInjective(Xor(c, Word(b)), Xor(d, Word(b)));
    Cancel(c, d, Word(b));
  }

  /// A step is injective in the byte for a fixed running word.
  lemma StepKeepsBytes(c: bv32, a: bv8, b: bv8)
    requires Step(c, a) == Step(c, b)
    ensures a == b
  {
    hide Table, Step, Xor, Word;
    StepIsDivision(c, a);
    StepIsDivision(c, b);
    TableIsInjective(Xor(c, Word(a)), Xor(c, Word(b)));
    SameByte(c, a, b);
  }

  lemma SameByte(c: bv32, a: bv8, b: bv8)
    requires Xor(c, Word(a)) == Xor(c, Word(b))
    ensures a == b
  {
  }

  // ---------------------------------------------------------------------------
  // Whole strings
  // ---------------------------------------------------------------------------

  lemma {:induction false} UpdateKeepsWords(c: bv32, d: bv32, bytes: seq<bv8>)
    requires Update(c, bytes) == Update(d, bytes)
    ensures c == d
    decreases |bytes|
  {
    hide Step;
    if bytes != [] {
      UpdateKeepsWords(Step(c, bytes[0]), Step(d, bytes[0]), bytes[1..]);
      StepKeepsWords(c, d, bytes[0]);
    }
  }

  lemma {:induction false} OneByteIsSeen(c: bv32, bytes: seq<bv8>, i: nat, b: bv8)
    requires i < |bytes| && Update(c, bytes) == Update(c, bytes[i := b])
    ensures b == bytes[i]
    decreases |bytes|
  {
    hide Step;
    var changed := bytes[i := b];
    if i == 0 {
      assert changed[1..] == bytes[1..];
      UpdateKeepsWords(Step(c, bytes[0]), Step(c, b), bytes[1..]);
      StepKeepsBytes(c, bytes[0], b);
    } else {
      assert changed[1..] == bytes[1..][i - 1 := b];
      OneByteIsSeen(Step(c, bytes[0]), bytes[1..], i - 1, b);
    }
  }

  /// Changing any one byte changes the checksum.
  lemma CrcSeesEveryByte(bytes: seq<bv8>, i: nat, b: bv8)
    requires i < |bytes| && b != bytes[i]
    ensures Crc(bytes) != Crc(bytes[i := b])
  {
    hide Update, Xor;
    if Crc(bytes) == Crc(bytes[i := b]) {
      Cancel(Update(0xFFFF_FFFF, bytes), Update(0xFFFF_FFFF, bytes[i := b]), 0xFFFF_FFFF);
      OneByteIsSeen(0xFFFF_FFFF, bytes, i, b);
    }
  }

  /// The checksum of the one letter `a`, as zlib gives it.
  lemma ChecksumOfA()
    ensures Crc([0x61]) == 0xE8B7_BE43
  {
    var bytes: seq<bv8> := [0x61];
    assert bytes[1..] == [];
    assert Update(0xFFFF_FFFF, bytes) == Step(0xFFFF_FFFF, 0x61);
  }
}

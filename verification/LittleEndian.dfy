/** Little-endian integers in strings of bytes. */
module LittleEndian {
  import opened Bytes

  type Data = seq<bv8>

  function Unsigned(s: Data): nat {
    if s == [] then 0 else s[0] as int + 256 * Unsigned(s[1..])
  }

  /// Two's complement, eight bytes.
  function Signed64(s: Data): int {
    if Unsigned(s) < 0x8000_0000_0000_0000 then Unsigned(s) else Unsigned(s) - 0x1_0000_0000_0000_0000
  }

  function ToLittle(n: nat, width: nat): (s: Data)
    ensures |s| == width
  {
    if width == 0 then [] else [ByteOf(n % 256)] + ToLittle(n / 256, width - 1)
  }

  predicate Fits64(n: int) { -0x8000_0000_0000_0000 <= n < 0x8000_0000_0000_0000 }

  function ToLittle64(n: int): (s: Data)
    requires Fits64(n)
    ensures |s| == 8
  {
    ToLittle(if n < 0 then n + 0x1_0000_0000_0000_0000 else n, 8)
  }

  lemma NextByte(b: bv8)
    requires b < 255
    ensures (b + 1) as int == b as int + 1
  {
  }

  /// The byte of a given value.
  function ByteOf(n: nat): (b: bv8)
    requires n < 256
    ensures b as int == n
  {
    if n == 0 then 0
    else
      NextByte(ByteOf(n - 1));
      ByteOf(n - 1) + 1
  }

  lemma {:induction false} LittleRoundTrip(n: nat, width: nat)
    requires n < Power(width)
    ensures Unsigned(ToLittle(n, width)) == n
  {
    if width > 0 {
      LittleRoundTrip(n / 256, width - 1);
      assert ToLittle(n, width)[1..] == ToLittle(n / 256, width - 1);
    }
  }

  /// Every field is what its own number is written as.
  lemma {:induction false} LittleOfUnsigned(s: Data)
    ensures Unsigned(s) < Power(|s|) && ToLittle(Unsigned(s), |s|) == s
  {
    if s != [] {
      var b, rest := s[0], s[1..];
      LittleOfUnsigned(rest);
      LastByte(b, Unsigned(rest));
      assert s == [b] + rest;
      hide ByteOf;
    }
  }

  lemma LastByte(b: bv8, rest: nat)
    ensures (b as int + 256 * rest) / 256 == rest && (b as int + 256 * rest) % 256 == b as int && ByteOf(b as int) == b
  {
    EqualBytes(ByteOf(b as int), b);
  }

  lemma EqualBytes(a: bv8, b: bv8)
    requires a as int == b as int
    ensures a == b
  {
    assert (a as int) as bv8 == a && (b as int) as bv8 == b;
  }

  lemma Powers()
    ensures Power(2) == 0x1_0000 && Power(4) == 0x1_0000_0000 && Power(8) == 0x1_0000_0000_0000_0000
  {
    assert Power(1) == 256 && Power(3) == 0x100_0000;
    assert Power(5) == 0x100_0000_0000 && Power(6) == 0x1_0000_0000_0000 && Power(7) == 0x100_0000_0000_0000;
  }

  lemma SignedRoundTrip(n: int)
    requires Fits64(n)
    ensures Signed64(ToLittle64(n)) == n
  {
    hide ToLittle, Unsigned, Power;
    Powers();
    LittleRoundTrip(if n < 0 then n + 0x1_0000_0000_0000_0000 else n, 8);
  }
}

/**
 Base64 (RFC 4648): the standard alphabet with padding (section 4) and the URL and filename
 safe alphabet without (section 5). Decoders are strict: canonical padding, no stray bits.
 */
module Base64 {
  import opened Wrappers
  import opened Bytes

  type Sextet = n: int | 0 <= n < 64

  datatype Alphabet = Standard | UrlSafe

  function Symbol(a: Alphabet, n: Sextet): char {
    if n < 26 then ('A' as int + n) as char
    else if n < 52 then ('a' as int + n - 26) as char
    else if n < 62 then ('0' as int + n - 52) as char
    else if n == 62 then (if a.Standard? then '+' else '-')
    else if a.Standard? then '/' else '_'
  }

  function SextetOf(a: Alphabet, c: char): Option<Sextet> {
    if 'A' <= c <= 'Z' then Some(c as int - 'A' as int)
    else if 'a' <= c <= 'z' then Some(c as int - 'a' as int + 26)
    else if '0' <= c <= '9' then Some(c as int - '0' as int + 52)
    else if c == (if a.Standard? then '+' else '-') then Some(62)
    else if c == (if a.Standard? then '/' else '_') then Some(63)
    else None
  }

  lemma SymbolsAreExact(a: Alphabet, c: char, n: Sextet)
    ensures SextetOf(a, c) == Some(n) <==> c == Symbol(a, n)
  {
  }

  // ---------------------------------------------------------------------------
  // Bytes and sextets
  // ---------------------------------------------------------------------------

  function Cut0(b0: Byte): Sextet { b0 / 4 }
  function Cut1(b0: Byte, b1: Byte): Sextet { b0 % 4 * 16 + b1 / 16 }
  function Cut2(b1: Byte, b2: Byte): Sextet { b1 % 16 * 4 + b2 / 64 }
  function Cut3(b2: Byte): Sextet { b2 % 64 }

  function Join0(x0: Sextet, x1: Sextet): Byte { x0 * 4 + x1 / 16 }
  function Join1(x1: Sextet, x2: Sextet): Byte { x1 % 16 * 16 + x2 / 4 }
  function Join2(x2: Sextet, x3: Sextet): Byte { x2 % 4 * 64 + x3 }

  /// No bits beyond the first byte, or beyond the second.
  predicate Clean1(x1: Sextet) { x1 % 16 == 0 }
  predicate Clean2(x2: Sextet) { x2 % 4 == 0 }

  lemma CutThenJoin(b0: Byte, b1: Byte, b2: Byte)
    ensures Join0(Cut0(b0), Cut1(b0, b1)) == b0
    ensures Join1(Cut1(b0, b1), Cut2(b1, b2)) == b1
    ensures Join2(Cut2(b1, b2), Cut3(b2)) == b2
    ensures Clean1(Cut1(b0, 0)) && Clean2(Cut2(b1, 0))
  {
  }

  lemma JoinThenCut(x0: Sextet, x1: Sextet, x2: Sextet, x3: Sextet)
    ensures Cut0(Join0(x0, x1)) == x0
    ensures Cut1(Join0(x0, x1), Join1(x1, x2)) == x1
    ensures Cut2(Join1(x1, x2), Join2(x2, x3)) == x2
    ensures Cut3(Join2(x2, x3)) == x3
    ensures Clean1(x1) ==> Join1(x1, 0) == 0
    ensures Clean2(x2) ==> Join2(x2, 0) == 0
  {
  }

  /// Three bytes make four sextets; one leftover byte makes two, two make three.
  function ToSextets(b: seq<Byte>): seq<Sextet> {
    if b == [] then []
    else if |b| == 1 then [Cut0(b[0]), Cut1(b[0], 0)]
    else if |b| == 2 then [Cut0(b[0]), Cut1(b[0], b[1]), Cut2(b[1], 0)]
    else [Cut0(b[0]), Cut1(b[0], b[1]), Cut2(b[1], b[2]), Cut3(b[2])] + ToSextets(b[3..])
  }

  /// One leftover sextet, or leftover bits that are not zero, are errors.
  function FromSextets(x: seq<Sextet>): Option<seq<Byte>> {
    if x == [] then Some([])
    else if |x| == 1 then None
    else if |x| == 2 then
      if !Clean1(x[1]) then None else Some([Join0(x[0], x[1])])
    else if |x| == 3 then
      if !Clean2(x[2]) then None else Some([Join0(x[0], x[1]), Join1(x[1], x[2])])
    else
      var rest := FromSextets(x[4..]);
      if rest.None? then None
      else Some([Join0(x[0], x[1]), Join1(x[1], x[2]), Join2(x[2], x[3])] + rest.value)
  }

  lemma {:induction false} SextetsRoundTrip(b: seq<Byte>)
    ensures FromSextets(ToSextets(b)) == Some(b)
  {
    hide Cut0, Cut1, Cut2, Cut3, Join0, Join1, Join2, Clean1, Clean2;
    if b == [] {
    } else if |b| == 1 {
      CutThenJoin(b[0], 0, 0);
      assert b == [b[0]];
    } else if |b| == 2 {
      CutThenJoin(b[0], b[1], 0);
      assert b == [b[0], b[1]];
    } else {
      CutThenJoin(b[0], b[1], b[2]);
      SextetsRoundTrip(b[3..]);
      assert ToSextets(b)[4..] == ToSextets(b[3..]);
      assert b == [b[0], b[1], b[2]] + b[3..];
    }
  }

  lemma {:induction false} SextetsAreUnique(x: seq<Sextet>)
    requires FromSextets(x).Some?
    ensures ToSextets(FromSextets(x).value) == x
  {
    hide Cut0, Cut1, Cut2, Cut3, Join0, Join1, Join2, Clean1, Clean2;
    if x == [] {
    } else if |x| == 2 {
      JoinThenCut(x[0], x[1], 0, 0);
    } else if |x| == 3 {
      JoinThenCut(x[0], x[1], x[2], 0);
    } else {
      JoinThenCut(x[0], x[1], x[2], x[3]);
      SextetsAreUnique(x[4..]);
      assert FromSextets(x).value[3..] == FromSextets(x[4..]).value;
      assert x == [x[0], x[1], x[2], x[3]] + x[4..];
    }
  }

  lemma {:induction false} SextetCount(b: seq<Byte>)
    ensures (|ToSextets(b)| + |Pad(b)|) % 4 == 0
  {
    hide Cut0, Cut1, Cut2, Cut3;
    if |b| >= 3 {
      SextetCount(b[3..]);
    }
  }

  // ---------------------------------------------------------------------------
  // Without padding
  // ---------------------------------------------------------------------------

  function Encode(a: Alphabet, b: seq<Byte>): string {
    var x := ToSextets(b);
    seq(|x|, n requires 0 <= n < |x| => Symbol(a, x[n]))
  }

  function Read(a: Alphabet, s: string): Option<seq<Sextet>> {
    if forall n :: 0 <= n < |s| ==> SextetOf(a, s[n]).Some?
    then Some(seq(|s|, n requires 0 <= n < |s| && SextetOf(a, s[n]).Some? => SextetOf(a, s[n]).value))
    else None
  }

  function Decode(a: Alphabet, s: string): Option<seq<Byte>> {
    var x := Read(a, s);
    if x.None? then None else FromSextets(x.value)
  }

  lemma Inverse(a: Alphabet)
    ensures forall c: char, n: Sextet :: SextetOf(a, c) == Some(n) <==> c == Symbol(a, n)
  {
    forall c: char, n: Sextet ensures SextetOf(a, c) == Some(n) <==> c == Symbol(a, n) {
      SymbolsAreExact(a, c, n);
    }
  }

  /// The decoder accepts the encodings and nothing else, for every byte string and text.
  lemma DecodesExactly(a: Alphabet, s: string, b: seq<Byte>)
    ensures Decode(a, s) == Some(b) <==> s == Encode(a, b)
  {
    hide Symbol, SextetOf, ToSextets, FromSextets;
    Inverse(a);
    var x := ToSextets(b);
    if s == Encode(a, b) {
      assert forall n :: 0 <= n < |x| ==> s[n] == Symbol(a, x[n]) && SextetOf(a, s[n]) == Some(x[n]);
      assert Read(a, s).Some? && Read(a, s).value == x;
      SextetsRoundTrip(b);
    }
    if Decode(a, s) == Some(b) {
      var y := Read(a, s).value;
      assert forall n :: 0 <= n < |s| ==> SextetOf(a, s[n]) == Some(y[n]) && s[n] == Symbol(a, y[n]);
      SextetsAreUnique(y);
      assert s == Encode(a, b);
    }
  }

  // ---------------------------------------------------------------------------
  // Padding
  // ---------------------------------------------------------------------------

  /// One byte short of a group makes one pad character, two bytes short make two.
  function Pad(b: seq<Byte>): (pad: string)
    ensures pad == "" || pad == "=" || pad == "=="
  {
    if b == [] then "" else if |b| == 1 then "==" else if |b| == 2 then "=" else Pad(b[3..])
  }

  function EncodePadded(a: Alphabet, b: seq<Byte>): string {
    Encode(a, b) + Pad(b)
  }

  function StripPad(s: string): string {
    if |s| >= 2 && s[|s| - 2..] == "==" then s[..|s| - 2]
    else if |s| >= 1 && s[|s| - 1] == '=' then s[..|s| - 1]
    else s
  }

  function DecodePadded(a: Alphabet, s: string): Option<seq<Byte>> {
    if |s| % 4 != 0 then None else Decode(a, StripPad(s))
  }

  /// Python's rstrip.
  function RightStrip(s: string, c: char): string {
    if s != "" && s[|s| - 1] == c then RightStrip(s[..|s| - 1], c) else s
  }

  lemma NoPadSymbol(a: Alphabet, b: seq<Byte>)
    ensures '=' !in Encode(a, b) && '.' !in Encode(a, b) && ':' !in Encode(a, b)
  {
    assert forall n: Sextet :: Symbol(a, n) != '=' && Symbol(a, n) != '.' && Symbol(a, n) != ':';
  }

  lemma StripPadOf(s: string, pad: string)
    requires '=' !in s && (pad == "" || pad == "=" || pad == "==")
    ensures StripPad(s + pad) == s
  {
    var padded := s + pad;
    assert padded[..|s|] == s && padded[|s|..] == pad;
    assert s != "" ==> s[|s| - 1] in s && padded[|s| - 1] == s[|s| - 1];
    if |padded| >= 2 && pad != "==" {
      assert padded[|padded| - 2..][0] != '=';
    }
  }

  lemma {:induction false} RightStripOf(s: string, pad: string)
    requires '=' !in s && forall n :: 0 <= n < |pad| ==> pad[n] == '='
    ensures RightStrip(s + pad, '=') == s
  {
    var padded := s + pad;
    if pad == "" {
      assert padded == s;
      assert s != "" ==> s[|s| - 1] in s;
    } else {
      assert padded[|padded| - 1] == pad[|pad| - 1] && padded[..|padded| - 1] == s + pad[..|pad| - 1];
      RightStripOf(s, pad[..|pad| - 1]);
    }
  }

  lemma PaddedRoundTrip(a: Alphabet, b: seq<Byte>)
    ensures DecodePadded(a, EncodePadded(a, b)) == Some(b)
  {
    NoPadSymbol(a, b);
    StripPadOf(Encode(a, b), Pad(b));
    SextetCount(b);
    DecodesExactly(a, Encode(a, b), b);
  }

  /// Stripping the padding of the padded form gives the form without padding.
  lemma StrippedIsUnpadded(a: Alphabet, b: seq<Byte>)
    ensures RightStrip(EncodePadded(a, b), '=') == Encode(a, b)
  {
    NoPadSymbol(a, b);
    RightStripOf(Encode(a, b), Pad(b));
  }

  /// Where the two alphabets differ.
  lemma AlphabetsDiffer()
    ensures EncodePadded(Standard, [0xFB, 0xFF]) == "+/8="
    ensures Encode(UrlSafe, [0xFB, 0xFF]) == "-_8"
  {
    assert ToSextets([0xFB, 0xFF]) == [62, 63, 60];
    assert Encode(Standard, [0xFB, 0xFF]) == "+/8";
  }
}

/**
 The envelope the engine writes around a payload. The inspection script accepts it and reads
 back what went in.
 */
module MbfEnvelope {
  import opened Wrappers
  import opened Crc32
  import opened Bytes
  import opened LittleEndian
  import opened MbfInspect

  function WordBytes(w: bv32): Data {
    [Byte0(w), Byte1(w), Byte2(w), Byte3(w)]
  }

  function Zeros(n: nat): (s: Data)
    ensures |s| == n
  {
    seq(n, k => 0)
  }

  /// pad_to_64
  function Padded(s: Data): (p: Data)
    ensures |p| % 64 == 0 && s <= p && |p| < |s| + 64
  {
    if |s| % 64 == 0 then s else s + Zeros(64 - |s| % 64)
  }

  const HAS_PAX: nat := 4
  const CRYPTO_SEALED: nat := 2
  const U32_MAX: nat := 0xFFFF_FFFF

  /// What the caller of encode_mbf_envelope supplies, and what it reads off the clock and the
  /// hash functions.
  datatype Parts = Parts(
    cellId: nat, rowCount: nat, epoch: nat, hash: Data, schemaLow: int, now: int,
    seal: Data, payload: Data, directory: Data, schemaHigh: nat, tag: Data)
  {
    /// Sizes of the fields and limits of the file.
    predicate Fits() {
      && epoch < 0x1_0000_0000_0000_0000 && schemaHigh <= U32_MAX
      && |hash| == 16 && |seal| == 64 && |tag| == 24
      && Fits64(schemaLow) && Fits64(now)
      && |Padded(directory)| <= U32_MAX && 128 + |Padded(payload)| < 0x1_0000_0000_0000_0000
    }

    function Rows(): nat { if rowCount < U32_MAX then rowCount else U32_MAX }

    function FirstTx(): nat { if epoch > 0 then 1 else 0 }

    function Flags(): nat { cellId % 64 * 1024 + HAS_PAX + CRYPTO_SEALED }

    function DirOffset(): nat { 128 + |Padded(payload)| }
  }

  function Header(p: Parts): (h: Data)
    requires p.Fits()
    ensures |h| == 64
  {
    MAGIC_DATA + ToLittle(1, 2) + ToLittle(p.Flags(), 2) + ToLittle(p.Rows(), 4) + p.hash
    + ToLittle(p.FirstTx(), 8) + ToLittle(p.epoch, 8) + ToLittle64(p.schemaLow) + ToLittle64(p.now)
  }

  function Footer(p: Parts): (f: Data)
    requires p.Fits()
    ensures |f| == 64
  {
    ToLittle(p.DirOffset(), 8) + ToLittle(|Padded(p.directory)|, 4) + WordBytes(Crc(Header(p)))
    + WordBytes(Crc(Padded(p.directory))) + ToLittle(p.schemaHigh, 4) + ToLittle64(0) + p.tag + MAGIC_FOOTER
  }

  /// encode_mbf_envelope
  function Envelope(p: Parts): Data
    requires p.Fits()
  {
    Header(p) + p.seal + Padded(p.payload) + Padded(p.directory) + Footer(p)
  }

  lemma PackBytes(w: bv32)
    ensures Pack(Byte0(w), Byte1(w), Byte2(w), Byte3(w)) == w
  {
  }

  lemma WordRoundTrip(w: bv32)
    ensures Word32(WordBytes(w)) == w
  {
    hide Pack, Byte0, Byte1, Byte2, Byte3;
    PackBytes(w);
  }

  /// The fields of the header, read where the script reads them.
  lemma HeaderFields(p: Parts)
    requires p.Fits()
    ensures var h := Header(p);
            && h[0..8] == MAGIC_DATA
            && Unsigned(h[8..10]) == 1 && Unsigned(h[10..12]) == p.Flags() && Unsigned(h[12..16]) == p.Rows()
            && Unsigned(h[32..40]) == p.FirstTx() && Unsigned(h[40..48]) == p.epoch
            && Signed64(h[48..56]) == p.schemaLow && Signed64(h[56..64]) == p.now
  {
    hide ToLittle, ToLittle64, Unsigned, Signed64, Power;
    Powers();
    var h := Header(p);
    assert h[0..8] == MAGIC_DATA && h[8..10] == ToLittle(1, 2) && h[10..12] == ToLittle(p.Flags(), 2);
    assert h[12..16] == ToLittle(p.Rows(), 4) && h[32..40] == ToLittle(p.FirstTx(), 8) && h[40..48] == ToLittle(p.epoch, 8);
    assert h[48..56] == ToLittle64(p.schemaLow) && h[56..64] == ToLittle64(p.now);
    LittleRoundTrip(1, 2);
    LittleRoundTrip(p.Flags(), 2);
    LittleRoundTrip(p.Rows(), 4);
    LittleRoundTrip(p.FirstTx(), 8);
    LittleRoundTrip(p.epoch, 8);
    SignedRoundTrip(p.schemaLow);
    SignedRoundTrip(p.now);
  }

  /// The fields of the footer.
  lemma FooterFields(p: Parts)
    requires p.Fits()
    ensures var f := Footer(p);
            && Unsigned(f[0..8]) == p.DirOffset() && Unsigned(f[8..12]) == |Padded(p.directory)|
            && Word32(f[12..16]) == Crc(Header(p)) && Word32(f[16..20]) == Crc(Padded(p.directory))
            && Unsigned(f[20..24]) == p.schemaHigh && Signed64(f[24..32]) == 0 && f[56..64] == MAGIC_FOOTER
  {
    hide ToLittle, ToLittle64, Unsigned, Signed64, Power, Header, Crc, WordBytes, Word32, Padded;
    Powers();
    var f := Footer(p);
    WordSize(Crc(Header(p)));
    WordSize(Crc(Padded(p.directory)));
    assert f[0..8] == ToLittle(p.DirOffset(), 8) && f[8..12] == ToLittle(|Padded(p.directory)|, 4);
    assert f[12..16] == WordBytes(Crc(Header(p))) && f[16..20] == WordBytes(Crc(Padded(p.directory)));
    assert f[20..24] == ToLittle(p.schemaHigh, 4) && f[24..32] == ToLittle64(0) && f[56..64] == MAGIC_FOOTER;
    LittleRoundTrip(p.DirOffset(), 8);
    LittleRoundTrip(|Padded(p.directory)|, 4);
    LittleRoundTrip(p.schemaHigh, 4);
    WordRoundTrip(Crc(Header(p)));
    WordRoundTrip(Crc(Padded(p.directory)));
    SignedRoundTrip(0);
  }

  lemma WordSize(w: bv32)
    ensures |WordBytes(w)| == 4
  {
  }

  lemma SliceOfSlice(data: Data, lo: nat, hi: nat, a: nat, b: nat)
    requires lo <= hi <= |data| && a <= b <= hi - lo
    ensures data[lo..hi][a..b] == data[lo + a..lo + b]
  {
    var x, y := data[lo..hi][a..b], data[lo + a..lo + b];
    assert |x| == |y| && forall k :: 0 <= k < |x| ==> x[k] == data[lo + a + k] == y[k];
  }

  lemma Concatenated(a: Data, b: Data, c: Data, d: Data, e: Data)
    ensures var s := a + b + c + d + e;
            && |s| == |a| + |b| + |c| + |d| + |e|
            && s[0..|a|] == a && s[|s| - |e|..|s|] == e
            && s[|a| + |b| + |c|..|a| + |b| + |c| + |d|] == d
  {
  }

  lemma Layout(p: Parts)
    requires p.Fits()
    ensures var data := Envelope(p);
            var n := |data|;
            && n == p.DirOffset() + |Padded(p.directory)| + 64 && n % 64 == 0 && n >= 192
            && data[0..64] == Header(p) && data[n - 64..n] == Footer(p)
            && data[p.DirOffset()..p.DirOffset() + |Padded(p.directory)|] == Padded(p.directory)
  {
    hide Header, Footer, Padded;
    Concatenated(Header(p), p.seal, Padded(p.payload), Padded(p.directory), Footer(p));
  }

  /// What the engine wraps, the script accepts, and its report shows the parts.
  lemma InspectAcceptsEnvelope(p: Parts)
    requires p.Fits()
    ensures var data := Envelope(p);
            Inspect(data) == Ok(Report(false, 1, p.cellId % 64, false, true, p.Rows(), p.FirstTx(), p.epoch,
                                       p.schemaLow, p.now, p.DirOffset(), |Padded(p.directory)|,
                                       Crc(Header(p)), Crc(Padded(p.directory)), p.schemaHigh, 0, |data|))
  {
    hide Header, Footer, Envelope, Padded, Unsigned, Signed64, Word32, Crc;
    var data := Envelope(p);
    var n := |data|;
    Layout(p);
    HeaderFields(p);
    FooterFields(p);
    var f := data[n - 64..n];
    SliceOfSlice(data, n - 64, n, 0, 8);
    SliceOfSlice(data, n - 64, n, 8, 12);
    SliceOfSlice(data, n - 64, n, 12, 16);
    SliceOfSlice(data, n - 64, n, 16, 20);
    SliceOfSlice(data, n - 64, n, 20, 24);
    SliceOfSlice(data, n - 64, n, 24, 32);
    SliceOfSlice(data, n - 64, n, 56, 64);
    assert data[n - 8..] == data[n - 8..n];
    SliceOfSlice(data, 0, 64, 0, 8);
    SliceOfSlice(data, 0, 64, 8, 10);
    SliceOfSlice(data, 0, 64, 10, 12);
    SliceOfSlice(data, 0, 64, 12, 16);
    SliceOfSlice(data, 0, 64, 32, 40);
    SliceOfSlice(data, 0, 64, 40, 48);
    SliceOfSlice(data, 0, 64, 48, 56);
    SliceOfSlice(data, 0, 64, 56, 64);
    FlagBits(p);
    MagicsDiffer();
  }

  lemma FlagBits(p: Parts)
    ensures p.Flags() / 1024 % 64 == p.cellId % 64 && p.Flags() % 2 == 0 && p.Flags() / 2 % 2 == 1
  {
  }

  lemma MagicsDiffer()
    ensures MAGIC_DATA != MAGIC_INDEX
  {
    assert MAGIC_DATA[1] != MAGIC_INDEX[1];
  }

  // ---------------------------------------------------------------------------
  // Exactly what the script accepts
  // ---------------------------------------------------------------------------

  predicate Spells(s: Data, text: string) {
    |s| == |text| && forall k :: 0 <= k < |s| ==> s[k] as int == text[k] as int
  }

  /// A container: whole blocks between the two magics, whose last block locates a directory
  /// behind the first block and before itself, and holds the checksums of the first block and
  /// of the directory.
  ghost predicate IsContainer(data: Data) {
    && |data| >= 128 && |data| % 64 == 0
    && (Spells(data[0..8], "METRIBIN") || Spells(data[0..8], "MBFINDEX")) && Spells(data[|data| - 8..], "MBFFOOTR")
    && exists offset: nat, length: nat :: Locates(data, offset, length)
  }

  ghost predicate Locates(data: Data, offset: nat, length: nat)
    requires |data| >= 128
  {
    && 64 <= offset < 0x1_0000_0000_0000_0000 && length < 0x1_0000_0000 && offset + length <= |data| - 64
    && data[|data| - 64..|data| - 44] ==
       ToLittle(offset, 8) + ToLittle(length, 4) + WordBytes(Crc(data[0..64])) + WordBytes(Crc(data[offset..offset + length]))
  }

  lemma SpellsExactly(s: Data, magic: Data, text: string)
    requires Spells(magic, text)
    ensures Spells(s, text) <==> s == magic
  {
    if Spells(s, text) {
      forall k | 0 <= k < |s| ensures s[k] == magic[k] {
        EqualBytes(s[k], magic[k]);
      }
    }
  }

  lemma Magics()
    ensures Spells(MAGIC_DATA, "METRIBIN") && Spells(MAGIC_INDEX, "MBFINDEX") && Spells(MAGIC_FOOTER, "MBFFOOTR")
  {
  }

  lemma WordOfBytes(s: Data)
    requires |s| == 4
    ensures WordBytes(Word32(s)) == s
  {
    hide Pack, Byte0, Byte1, Byte2, Byte3;
    Unpack(s[0], s[1], s[2], s[3]);
  }

  lemma FieldsJoin(data: Data, a: Data, b: Data, c: Data, d: Data)
    requires |data| >= 128 && |a| == 8 && |b| == |c| == |d| == 4
    ensures data[|data| - 64..|data| - 44] == a + b + c + d <==>
            && data[|data| - 64..|data| - 56] == a && data[|data| - 56..|data| - 52] == b
            && data[|data| - 52..|data| - 48] == c && data[|data| - 48..|data| - 44] == d
  {
    var n := |data|;
    var s := data[n - 64..n - 44];
    SliceOfSlice(data, n - 64, n - 44, 0, 8);
    SliceOfSlice(data, n - 64, n - 44, 8, 12);
    SliceOfSlice(data, n - 64, n - 44, 12, 16);
    SliceOfSlice(data, n - 64, n - 44, 16, 20);
    assert s == s[0..8] + s[8..12] + s[12..16] + s[16..20];
    var t := a + b + c + d;
    assert t[0..8] == a && t[8..12] == b && t[12..16] == c && t[16..20] == d;
  }

  /// The script accepts the containers and nothing else.
  lemma InspectAcceptsExactly(data: Data)
    ensures Inspect(data).Ok? <==> IsContainer(data)
  {
    hide Crc, Unsigned, ToLittle, Word32, WordBytes, Spells, Power, Signed64;
    if Aligned(data) {
      Magics();
      SpellsExactly(data[0..8], MAGIC_DATA, "METRIBIN");
      SpellsExactly(data[0..8], MAGIC_INDEX, "MBFINDEX");
      SpellsExactly(data[|data| - 8..], MAGIC_FOOTER, "MBFFOOTR");
      LocatedExactly(data);
    }
  }

  lemma LocatedExactly(data: Data)
    requires Aligned(data)
    ensures (exists offset: nat, length: nat :: Locates(data, offset, length)) <==>
            && 64 <= DirOffset(data) && DirOffset(data) + DirLen(data) <= |data| - 64
            && Crc(data[0..64]) == HeaderCrc(data) && Crc(Directory(data)) == DirectoryCrc(data)
  {
    hide Crc, Unsigned, ToLittle, Word32, WordBytes, Power;
    Powers();
    var n := |data|;
    var a, b, c, d := data[n - 64..n - 56], data[n - 56..n - 52], data[n - 52..n - 48], data[n - 48..n - 44];
    LittleOfUnsigned(a);
    LittleOfUnsigned(b);
    WordOfBytes(c);
    WordOfBytes(d);
    FieldsJoin(data, a, b, c, d);
    if 64 <= DirOffset(data) && DirOffset(data) + DirLen(data) <= n - 64
       && Crc(data[0..64]) == HeaderCrc(data) && Crc(Directory(data)) == DirectoryCrc(data)
    {
      assert Locates(data, DirOffset(data), DirLen(data));
    }
    forall offset: nat, length: nat | Locates(data, offset, length)
      ensures && 64 <= DirOffset(data) && DirOffset(data) + DirLen(data) <= n - 64
              && Crc(data[0..64]) == HeaderCrc(data) && Crc(Directory(data)) == DirectoryCrc(data)
    {
      LocatedThere(data, offset, length);
    }
  }

  lemma LocatedThere(data: Data, offset: nat, length: nat)
    requires Aligned(data) && Locates(data, offset, length)
    ensures offset == DirOffset(data) && length == DirLen(data)
    ensures Crc(data[0..64]) == HeaderCrc(data) && Crc(data[offset..offset + length]) == DirectoryCrc(data)
  {
    hide Crc, Unsigned, ToLittle, Word32, WordBytes, Power;
    Powers();
    var a, b := ToLittle(offset, 8), ToLittle(length, 4);
    var c, d := WordBytes(Crc(data[0..64])), WordBytes(Crc(data[offset..offset + length]));
    LittleRoundTrip(offset, 8);
    LittleRoundTrip(length, 4);
    WordRoundTrip(Crc(data[0..64]));
    WordRoundTrip(Crc(data[offset..offset + length]));
    FourBytes(Crc(data[0..64]));
    FourBytes(Crc(data[offset..offset + length]));
    FieldsJoin(data, a, b, c, d);
  }

  lemma FourBytes(w: bv32)
    ensures |WordBytes(w)| == 4
  {
  }
}

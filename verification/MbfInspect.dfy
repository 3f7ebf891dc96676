/**
 The integrity check of `.mbf` containers: alignment, magics, directory bounds and two CRC-32
 sums in the last 64 bytes.
 */
module MbfInspect {
  import opened Wrappers
  import opened Crc32
  import opened LittleEndian

  const MAGIC_DATA: Data := [0x4D, 0x45, 0x54, 0x52, 0x49, 0x42, 0x49, 0x4E]
  const MAGIC_INDEX: Data := [0x4D, 0x42, 0x46, 0x49, 0x4E, 0x44, 0x45, 0x58]
  const MAGIC_FOOTER: Data := [0x4D, 0x42, 0x46, 0x46, 0x4F, 0x4F, 0x54, 0x52]

  datatype Problem = BadSize | BadMagic | BadFooter | HeaderMismatch | DirectoryOutOfRange | DirectoryMismatch

  /// The fields that locate and describe the data.
  datatype Report = Report(isIndex: bool, version: nat, cellId: nat, isHotHead: bool, isSealed: bool, rowCount: nat,
                           minTx: nat, maxTx: nat, minTime: int, maxTime: int, dirOffset: nat, dirLen: nat,
                           headerCrc: bv32, directoryCrc: bv32, schemaHigh: nat, fiscalLock: int, size: nat)

  function Pack(b0: bv8, b1: bv8, b2: bv8, b3: bv8): bv32 {
    (b0 as bv32) | ((b1 as bv32) << 8) | ((b2 as bv32) << 16) | ((b3 as bv32) << 24)
  }

  /// A four-byte unsigned number, kept as a word because it is only compared with one.
  function Word32(s: Data): bv32
    requires |s| == 4
  {
    Pack(s[0], s[1], s[2], s[3])
  }

  predicate Aligned(data: Data) { |data| >= 128 && |data| % 64 == 0 }

  function DirOffset(data: Data): nat requires Aligned(data) { Unsigned(data[|data| - 64..|data| - 56]) }
  function DirLen(data: Data): nat requires Aligned(data) { Unsigned(data[|data| - 56..|data| - 52]) }
  function HeaderCrc(data: Data): bv32 requires Aligned(data) { Word32(data[|data| - 52..|data| - 48]) }
  function DirectoryCrc(data: Data): bv32 requires Aligned(data) { Word32(data[|data| - 48..|data| - 44]) }

  /// inspect_mbf_bytes
  function Inspect(data: Data): Result<Report, Problem> {
    if !Aligned(data) then Err(BadSize)
    else if data[0..8] != MAGIC_DATA && data[0..8] != MAGIC_INDEX then Err(BadMagic)
    else if data[|data| - 8..] != MAGIC_FOOTER then Err(BadFooter)
    else if Crc(data[0..64]) != HeaderCrc(data) then Err(HeaderMismatch)
    else if DirOffset(data) < 64 || DirOffset(data) + DirLen(data) > |data| - 64 then Err(DirectoryOutOfRange)
    else if Crc(Directory(data)) != DirectoryCrc(data) then Err(DirectoryMismatch)
    else
      var flags := Unsigned(data[10..12]);
      Ok(Report(data[0..8] == MAGIC_INDEX, Unsigned(data[8..10]), flags / 1024 % 64, flags % 2 == 1, flags / 2 % 2 == 1,
                Unsigned(data[12..16]), Unsigned(data[32..40]), Unsigned(data[40..48]), Signed64(data[48..56]), Signed64(data[56..64]),
                DirOffset(data), DirLen(data), HeaderCrc(data), DirectoryCrc(data),
                Unsigned(data[|data| - 44..|data| - 40]), Signed64(data[|data| - 40..|data| - 32]), |data|))
  }

  function Directory(data: Data): Data
    requires Aligned(data) && DirOffset(data) + DirLen(data) <= |data|
  {
    data[DirOffset(data)..DirOffset(data) + DirLen(data)]
  }

  // ---------------------------------------------------------------------------
  // What the check sees
  // ---------------------------------------------------------------------------

  predicate InHeader(i: nat) { i < 64 }

  predicate InDirectory(data: Data, i: nat)
    requires Aligned(data)
  {
    DirOffset(data) <= i < DirOffset(data) + DirLen(data)
  }

  predicate InChecksums(data: Data, i: nat) { |data| - 52 <= i < |data| - 44 }

  predicate InFooterMagic(data: Data, i: nat) { |data| - 8 <= i }

  predicate InDirectoryFields(data: Data, i: nat) { |data| - 64 <= i < |data| - 52 }

  /// A slice keeps the change if it covers it, and is untouched otherwise.
  lemma SliceOfChange(data: Data, i: nat, b: bv8, lo: nat, hi: nat)
    requires i < |data| && lo <= hi <= |data|
    ensures data[i := b][lo..hi] == if lo <= i < hi then data[lo..hi][i - lo := b] else data[lo..hi]
  {
  }

  lemma ChangedSliceDiffers(s: Data, i: nat, b: bv8)
    requires i < |s| && s[i] != b
    ensures Crc(s[i := b]) != Crc(s)
    ensures |s| == 4 ==> Word32(s[i := b]) != Word32(s)
  {
    hide Word32, Crc;
    CrcSeesEveryByte(s, i, b);
    assert s[i := b][i] != s[i];
    if |s| == 4 && Word32(s[i := b]) == Word32(s) {
      Word32IsInjective(s[i := b], s);
    }
  }

  function Byte0(w: bv32): bv8 { (w & 0xFF) as bv8 }
  function Byte1(w: bv32): bv8 { ((w >> 8) & 0xFF) as bv8 }
  function Byte2(w: bv32): bv8 { ((w >> 16) & 0xFF) as bv8 }
  function Byte3(w: bv32): bv8 { (w >> 24) as bv8 }

  lemma Unpack(b0: bv8, b1: bv8, b2: bv8, b3: bv8)
    ensures var w := Pack(b0, b1, b2, b3); Byte0(w) == b0 && Byte1(w) == b1 && Byte2(w) == b2 && Byte3(w) == b3
  {
  }

  lemma Word32IsInjective(s: Data, t: Data)
    requires |s| == |t| == 4 && Word32(s) == Word32(t)
    ensures s == t
  {
    hide Pack, Byte0, Byte1, Byte2, Byte3;
    Unpack(s[0], s[1], s[2], s[3]);
    Unpack(t[0], t[1], t[2], t[3]);
  }

  /// The fields of the last 64 bytes, after a change elsewhere.
  lemma FieldsStay(data: Data, i: nat, b: bv8)
    requires Aligned(data) && i < |data|
    ensures Aligned(data[i := b])
    ensures !InDirectoryFields(data, i) ==> DirOffset(data[i := b]) == DirOffset(data) && DirLen(data[i := b]) == DirLen(data)
    ensures !InChecksums(data, i) ==>
              HeaderCrc(data[i := b]) == HeaderCrc(data) && DirectoryCrc(data[i := b]) == DirectoryCrc(data)
  {
    hide Unsigned, Word32;
    var n := |data|;
    SliceOfChange(data, i, b, n - 64, n - 56);
    SliceOfChange(data, i, b, n - 56, n - 52);
    SliceOfChange(data, i, b, n - 52, n - 48);
    SliceOfChange(data, i, b, n - 48, n - 44);
  }

  /// The bytes that are checksummed, after a change.
  lemma CheckedBytesAfter(data: Data, i: nat, b: bv8)
    requires Aligned(data) && i < |data| && b != data[i] && !InDirectoryFields(data, i)
    requires DirOffset(data) + DirLen(data) <= |data|
    ensures Aligned(data[i := b]) && DirOffset(data[i := b]) + DirLen(data[i := b]) <= |data|
    ensures if InHeader(i) then Crc(data[i := b][0..64]) != Crc(data[0..64]) else data[i := b][0..64] == data[0..64]
    ensures if InDirectory(data, i) then Crc(Directory(data[i := b])) != Crc(Directory(data))
            else Directory(data[i := b]) == Directory(data)
  {
    hide Unsigned, Crc, DirOffset, DirLen;
    FieldsStay(data, i, b);
    var lo := DirOffset(data);
    SliceOfChange(data, i, b, 0, 64);
    SliceOfChange(data, i, b, lo, lo + DirLen(data));
    if InHeader(i) {
      ChangedSliceDiffers(data[0..64], i, b);
    }
    if InDirectory(data, i) {
      ChangedSliceDiffers(data[lo..lo + DirLen(data)], i - lo, b);
    }
  }

  lemma ChecksumChange(data: Data, i: nat, b: bv8)
    requires Aligned(data) && InChecksums(data, i) && b != data[i] && i < |data|
    ensures HeaderCrc(data[i := b]) != HeaderCrc(data) || DirectoryCrc(data[i := b]) != DirectoryCrc(data)
  {
    hide Unsigned, Crc, Word32;
    var n := |data|;
    SliceOfChange(data, i, b, n - 52, n - 48);
    SliceOfChange(data, i, b, n - 48, n - 44);
    if i < n - 48 {
      ChangedSliceDiffers(data[n - 52..n - 48], i - (n - 52), b);
    } else {
      ChangedSliceDiffers(data[n - 48..n - 44], i - (n - 48), b);
    }
  }

  /// Whether one changed byte is noticed.
  predicate Covered(data: Data, i: nat)
    requires Aligned(data)
  {
    InHeader(i) || InDirectory(data, i) || InChecksums(data, i) || InFooterMagic(data, i)
  }

  /// An accepted container with one byte changed, outside the two fields that say where the
  /// directory is, is rejected exactly when that byte lies in the header, the directory, a
  /// stored checksum or the closing magic.
  lemma OneByteChange(data: Data, i: nat, b: bv8)
    requires Inspect(data).Ok? && i < |data| && b != data[i] && !InDirectoryFields(data, i)
    ensures Inspect(data[i := b]).Err? <==> Covered(data, i)
  {
    hide Unsigned, Crc, Word32, HeaderCrc, DirectoryCrc, DirOffset, DirLen, Directory;
    var n, changed := |data|, data[i := b];
    FieldsStay(data, i, b);
    CheckedBytesAfter(data, i, b);
    SliceOfChange(data, i, b, n - 8, n);
    SliceOfChange(data, i, b, 0, 8);
    assert changed[0..8] == changed[0..64][0..8] && data[0..8] == data[0..64][0..8];
    assert changed[n - 8..] == changed[n - 8..n] && data[n - 8..] == data[n - 8..n];
    if InHeader(i) {
    } else if InDirectory(data, i) {
    } else if InChecksums(data, i) {
      ChecksumChange(data, i, b);
    } else if InFooterMagic(data, i) {
      assert changed[n - 8..][i - (n - 8)] != data[n - 8..][i - (n - 8)];
    }
  }
}

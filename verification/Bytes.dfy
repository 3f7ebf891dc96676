/** Bytes, and the fixed-width integers laid out in them. */
module Bytes {
  type Byte = n: int | 0 <= n < 256

  function Power(width: nat): (p: nat)
    ensures p > 0
  {
    if width == 0 then 1 else 256 * Power(width - 1)
  }

  function FromBig(s: seq<Byte>): (n: nat) {
    if s == [] then 0 else FromBig(s[..|s| - 1]) * 256 + s[|s| - 1]
  }

  /// Big-endian, in exactly `width` bytes.
  function ToBig(n: nat, width: nat): (s: seq<Byte>)
    ensures |s| == width
    ensures n < Power(width) ==> FromBig(s) == n
  {
    if width == 0 then []
    else
      var s := ToBig(n / 256, width - 1) + [n % 256];
      assert s[..|s| - 1] == ToBig(n / 256, width - 1);
      s
  }

  lemma {:induction false} FromBigBound(s: seq<Byte>)
    ensures FromBig(s) < Power(|s|)
  {
    if s != [] {
      FromBigBound(s[..|s| - 1]);
    }
  }

  /// Reading and writing undo each other at a given width.
  lemma {:induction false} BigIsUnique(s: seq<Byte>)
    ensures ToBig(FromBig(s), |s|) == s
  {
    if s != [] {
      BigIsUnique(s[..|s| - 1]);
      assert s == s[..|s| - 1] + [s[|s| - 1]];
    }
  }
}

/**
 Strings as the codecs use them: the first occurrence of a separator, and decimal numbers
 printed without leading zeros.
 */
module Text {
  import opened Wrappers

  /// The first position of c in s.
  function Find(s: string, c: char): (r: Option<nat>)
    ensures r.None? <==> c !in s
    ensures r.Some? ==> r.value < |s| && s[r.value] == c && c !in s[..r.value]
  {
    if s == "" then None
    else if s[0] == c then Some(0)
    else
      var rest := Find(s[1..], c);
      if rest.None? then None
      else
        assert s[..rest.value + 1] == [s[0]] + s[1..][..rest.value];
        Some(rest.value + 1)
  }

  lemma FindAfterPrefix(head: string, c: char, tail: string)
    requires c !in head
    ensures Find(head + [c] + tail, c) == Some(|head|)
  {
    var s := head + [c] + tail;
    assert s[|head|] == c;
    assert c in s;
    var r := Find(s, c).value;
    assert forall i :: 0 <= i < |head| ==> s[i] == head[i] && s[i] != c;
    assert forall i :: 0 <= i < r ==> s[..r][i] == s[i];
  }

  function StripPrefix(s: string, prefix: string): Option<string> {
    if prefix <= s then Some(s[|prefix|..]) else None
  }

  function StripSuffix(s: string, suffix: string): Option<string> {
    if |suffix| <= |s| && s[|s| - |suffix|..] == suffix then Some(s[..|s| - |suffix|]) else None
  }

  predicate IsDigit(c: char) {
    '0' <= c <= '9'
  }

  predicate AllDigits(s: string) {
    forall i :: 0 <= i < |s| ==> IsDigit(s[i])
  }

  /// The number a run of digits denotes; the empty run denotes zero.
  function ValueOf(s: string): nat
    requires AllDigits(s)
  {
    if s == "" then 0 else 10 * ValueOf(s[..|s| - 1]) + (s[|s| - 1] as int - '0' as int)
  }

  function Digit(d: nat): (c: char)
    requires d < 10
    ensures IsDigit(c) && c as int - '0' as int == d
  {
    ('0' as int + d) as char
  }

  /// Decimal form without leading zeros.
  function Decimal(n: nat): (s: string)
    ensures s != "" && AllDigits(s) && ValueOf(s) == n
    ensures s[0] == '0' ==> n == 0 && s == "0"
  {
    if n < 10 then
      assert [Digit(n)][..0] == "";
      [Digit(n)]
    else
      var high := Decimal(n / 10);
      var s := high + [Digit(n % 10)];
      assert s[..|s| - 1] == high;
      s
  }

  lemma {:induction false} ValueOfJoin(a: string, b: string)
    requires AllDigits(a) && AllDigits(b)
    ensures AllDigits(a + b)
    ensures ValueOf(a) == 0 ==> ValueOf(a + b) == ValueOf(b)
  {
    if b == "" {
      assert a + b == a;
    } else {
      var c := b[..|b| - 1];
      ValueOfJoin(a, c);
      assert (a + b)[..|a + b| - 1] == a + c;
    }
  }

  /// Parsing into an unsigned machine word: an optional plus sign, at least one digit,
  /// nothing else, and no overflow.
  function ParseUnsigned(s: string, max: nat): (r: Option<nat>)
    ensures r.Some? ==> r.value <= max
  {
    var digits := if s != "" && s[0] == '+' then s[1..] else s;
    if digits == "" || !AllDigits(digits) || ValueOf(digits) > max then None
    else Some(ValueOf(digits))
  }

  /// Printing and parsing undo each other for every number that fits the word.
  lemma ParseOfDecimal(n: nat, max: nat)
    ensures ParseUnsigned(Decimal(n), max) == if n <= max then Some(n) else None
  {
  }
}

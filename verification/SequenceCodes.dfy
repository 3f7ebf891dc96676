/**
 The strings of sequence numbering: the key of a counter, and the printed code.
 */
module SequenceCodes {
  import opened Wrappers
  import opened Text

  const SEQ_SUFFIX: string := "_seq"

  // ---------------------------------------------------------------------------
  // Keys
  // ---------------------------------------------------------------------------

  /// `{tenant}:{field}:{tag}_seq`, or `{tenant}:{field}_seq` without a tag.
  function BuildSequenceCode(tenant: string, field: string, tag: Option<string>): string {
    if tag.Some? && tag.value != "" then tenant + ":" + field + ":" + tag.value + SEQ_SUFFIX
    else tenant + ":" + field + SEQ_SUFFIX
  }

  function GlobalCode(tenant: string, field: string): string {
    BuildSequenceCode(tenant, field, None)
  }

  /// The tag of a scoped key; none for the global key.
  function ScopeTagFromPk(pk: string, tenant: string, field: string): Option<string> {
    match StripPrefix(pk, tenant + ":" + field + ":")
    case None => None
    case Some(rest) =>
      match StripSuffix(rest, SEQ_SUFFIX)
      case None => None
      case Some(tag) => if tag == "" then None else Some(tag)
  }

  /// Reading the tag undoes building the key, for every tenant, field and tag.
  lemma TagOfKey(tenant: string, field: string, tag: Option<string>)
    ensures ScopeTagFromPk(BuildSequenceCode(tenant, field, tag), tenant, field)
            == if tag == Some("") then None else tag
  {
    var pk := BuildSequenceCode(tenant, field, tag);
    var head := tenant + ":" + field;
    if tag.Some? && tag.value != "" {
      assert pk == (head + ":") + (tag.value + SEQ_SUFFIX);
      var rest := tag.value + SEQ_SUFFIX;
      assert pk[|head + ":"|..] == rest;
      assert rest[|rest| - 4..] == SEQ_SUFFIX && rest[..|rest| - 4] == tag.value;
    } else {
      assert pk == head + SEQ_SUFFIX;
      assert pk[|head|] == '_' && (head + ":")[|head|] == ':';
    }
  }

  /// What every key of a field begins with.
  function Head(tenant: string, field: string): string {
    tenant + ":" + field
  }

  /// One head is the other, or the other begins with it and a colon.
  predicate Touch(h1: string, h2: string) {
    h1 == h2 || h1 + ":" <= h2 || h2 + ":" <= h1
  }

  /// A key without its suffix.
  function Stripped(head: string, tag: Option<string>): string {
    if tag.Some? && tag.value != "" then head + ":" + tag.value else head
  }

  lemma KeyIsStripped(tenant: string, field: string, tag: Option<string>)
    ensures BuildSequenceCode(tenant, field, tag) == Stripped(Head(tenant, field), tag) + SEQ_SUFFIX
  {
  }

  lemma StrippedIsUnique(a: string, b: string)
    requires a + SEQ_SUFFIX == b + SEQ_SUFFIX
    ensures a == b
  {
    assert |a| == |b|;
    assert (a + SEQ_SUFFIX)[..|a|] == a && (b + SEQ_SUFFIX)[..|b|] == b;
  }

  lemma SharedMeansTouching(h1: string, g1: Option<string>, h2: string, g2: Option<string>)
    requires |h1| <= |h2| && Stripped(h1, g1) == Stripped(h2, g2)
    ensures Touch(h1, h2)
  {
    var s := Stripped(h1, g1);
    assert s[..|h1|] == h1 && s[..|h2|] == h2;
    if |h1| < |h2| {
      assert s[|h1|] == ':';
      assert s[..|h1| + 1] == h1 + ":";
      assert h2[..|h1| + 1] == s[..|h1| + 1];
    } else {
      assert h1 == h2;
    }
  }

  /// Names whose heads touch share a key, under tags that are easily found.
  lemma TouchingShares(t1: string, f1: string, t2: string, f2: string) returns (g1: Option<string>, g2: Option<string>)
    requires Head(t1, f1) == Head(t2, f2) || Head(t1, f1) + ":" <= Head(t2, f2)
    ensures BuildSequenceCode(t1, f1, g1) == BuildSequenceCode(t2, f2, g2)
  {
    var h1, h2 := Head(t1, f1), Head(t2, f2);
    if h1 == h2 {
      g1, g2 := None, None;
    } else {
      var rest := h2[|h1| + 1..];
      assert h2 == h1 + ":" + rest;
      if rest == "" {
        g1, g2 := Some(":x"), Some("x");
        assert Stripped(h1, g1) == h1 + ":" + ":x" == h2 + ":" + "x" == Stripped(h2, g2);
      } else {
        g1, g2 := Some(rest), None;
      }
    }
    KeyIsStripped(t1, f1, g1);
    KeyIsStripped(t2, f2, g2);
  }

  /// The exact condition: two names share a key, for some tags, if and only if their heads
  /// touch.
  lemma NamesShareKeyExactly(t1: string, f1: string, t2: string, f2: string)
    ensures (exists g1, g2 :: BuildSequenceCode(t1, f1, g1) == BuildSequenceCode(t2, f2, g2)) <==> Touch(Head(t1, f1), Head(t2, f2))
  {
    hide BuildSequenceCode, Touch;
    forall g1, g2 | BuildSequenceCode(t1, f1, g1) == BuildSequenceCode(t2, f2, g2) ensures Touch(Head(t1, f1), Head(t2, f2)) {
      SharedKeyTouches(t1, f1, g1, t2, f2, g2);
    }
    if Touch(Head(t1, f1), Head(t2, f2)) {
      TouchingEitherWay(t1, f1, t2, f2);
    }
  }

  lemma TouchingEitherWay(t1: string, f1: string, t2: string, f2: string)
    requires Touch(Head(t1, f1), Head(t2, f2))
    ensures exists g1, g2 :: BuildSequenceCode(t1, f1, g1) == BuildSequenceCode(t2, f2, g2)
  {
    hide BuildSequenceCode;
    if Head(t2, f2) + ":" <= Head(t1, f1) {
      var g2, g1 := TouchingShares(t2, f2, t1, f1);
    } else {
      var g1, g2 := TouchingShares(t1, f1, t2, f2);
    }
  }

  lemma SharedKeyTouches(t1: string, f1: string, g1: Option<string>, t2: string, f2: string, g2: Option<string>)
    requires BuildSequenceCode(t1, f1, g1) == BuildSequenceCode(t2, f2, g2)
    ensures Touch(Head(t1, f1), Head(t2, f2))
  {
    KeyIsStripped(t1, f1, g1);
    KeyIsStripped(t2, f2, g2);
    var h1, h2 := Head(t1, f1), Head(t2, f2);
    StrippedIsUnique(Stripped(h1, g1), Stripped(h2, g2));
    if |h1| <= |h2| {
      SharedMeansTouching(h1, g1, h2, g2);
    } else {
      SharedMeansTouching(h2, g2, h1, g1);
    }
  }

  /// One name never gives two counters the same key; an empty tag names the global counter.
  lemma TagsAreDistinct(tenant: string, field: string, g1: Option<string>, g2: Option<string>)
    requires BuildSequenceCode(tenant, field, g1) == BuildSequenceCode(tenant, field, g2)
    ensures g1 == g2 || {g1, g2} == {None, Some("")}
  {
    TagOfKey(tenant, field, g1);
    TagOfKey(tenant, field, g2);
  }

  /// Keys of different counters never meet when the heads of different names do not touch.
  lemma KeysAreDistinct(t1: string, f1: string, g1: Option<string>, t2: string, f2: string, g2: Option<string>)
    requires Touch(Head(t1, f1), Head(t2, f2)) ==> t1 == t2 && f1 == f2
    requires BuildSequenceCode(t1, f1, g1) == BuildSequenceCode(t2, f2, g2)
    ensures t1 == t2 && f1 == f2 && (g1 == g2 || {g1, g2} == {None, Some("")})
  {
    SharedKeyTouches(t1, f1, g1, t2, f2, g2);
    TagsAreDistinct(t1, f1, g1, g2);
  }

  /// Names without colons touch only if they are the same.
  lemma ColonFreeNamesTouchNothing(t1: string, f1: string, t2: string, f2: string)
    requires ':' !in t1 && ':' !in f1 && ':' !in t2 && ':' !in f2
    ensures Touch(Head(t1, f1), Head(t2, f2)) ==> t1 == t2 && f1 == f2
  {
    var h1, h2 := Head(t1, f1), Head(t2, f2);
    if h1 == h2 {
      SameParts(t1, f1, t2, f2);
    } else if h1 + ":" <= h2 {
      HeadHasOneColon(t1, f1, t2, f2);
    } else if h2 + ":" <= h1 {
      HeadHasOneColon(t2, f2, t1, f1);
    }
  }

  lemma SameParts(t1: string, f1: string, t2: string, f2: string)
    requires ':' !in t1 && ':' !in t2 && Head(t1, f1) == Head(t2, f2)
    ensures t1 == t2 && f1 == f2
  {
    var h := Head(t1, f1);
    assert h == t1 + [':'] + f1 == t2 + [':'] + f2;
    FindAfterPrefix(t1, ':', f1);
    FindAfterPrefix(t2, ':', f2);
    assert h[..|t1|] == t1 && h[..|t2|] == t2 && h[|t1| + 1..] == f1 && h[|t2| + 1..] == f2;
  }

  lemma HeadHasOneColon(t1: string, f1: string, t2: string, f2: string)
    requires ':' !in t2 && ':' !in f2
    ensures !(Head(t1, f1) + ":" <= Head(t2, f2))
  {
    var h1, h2 := Head(t1, f1), Head(t2, f2);
    assert h1[|t1|] == ':' && (h1 + ":")[|h1|] == ':' && (h1 + ":")[|t1|] == ':';
    assert forall n :: 0 <= n < |h2| && n != |t2| ==> h2[n] == (if n < |t2| then t2[n] else f2[n - |t2| - 1]) && h2[n] != ':';
  }

  /// With a colon in a field name, one key can name two counters.
  lemma ColonInFieldCollides(t: string, f: string, g: string)
    requires g != ""
    ensures BuildSequenceCode(t, f, Some(g)) == BuildSequenceCode(t, f + ":" + g, None)
  {
  }

  // ---------------------------------------------------------------------------
  // Printed codes
  // ---------------------------------------------------------------------------

  function Zeros(n: nat): (s: string)
    ensures |s| == n && AllDigits(s) && ValueOf(s) == 0
  {
    if n == 0 then ""
    else
      var s := Zeros(n - 1) + "0";
      assert s[..|s| - 1] == Zeros(n - 1);
      s
  }

  /// Zero-padded on the left to a minimum width.
  function Padded(value: nat, width: nat): (s: string)
    ensures s != "" && AllDigits(s) && ValueOf(s) == value
    ensures |s| >= width
  {
    var digits := Decimal(value);
    if |digits| >= width then digits
    else
      ValueOfJoin(Zeros(width - |digits|), digits);
      Zeros(width - |digits|) + digits
  }

  /// What precedes the number.
  function Stem(prefix: string, segment: Option<string>): string {
    if segment.Some? && segment.value != "" then prefix + segment.value + "-" else prefix
  }

  function FormatCode(prefix: string, segment: Option<string>, padding: nat, value: nat): string {
    Stem(prefix, segment) + Padded(value, padding)
  }

  predicate EndsInDigit(s: string) {
    s != "" && IsDigit(s[|s| - 1])
  }

  /// The longest run of digits at the end.
  function TrailingDigits(s: string): (d: string)
    ensures AllDigits(d) && |d| <= |s|
  {
    if !EndsInDigit(s) then "" else TrailingDigits(s[..|s| - 1]) + [s[|s| - 1]]
  }

  lemma {:induction false} TrailingDigitsOf(stem: string, digits: string)
    requires !EndsInDigit(stem) && AllDigits(digits)
    ensures TrailingDigits(stem + digits) == digits
  {
    var s := stem + digits;
    if digits == "" {
      assert s == stem;
    } else {
      var init := digits[..|digits| - 1];
      assert s[..|s| - 1] == stem + init;
      TrailingDigitsOf(stem, init);
      assert digits == init + [digits[|digits| - 1]];
    }
  }

  /// The number can be read back off the code: whatever prefix, segment and padding were in
  /// force, the digits at the end denote the value, unless the prefix runs into them.
  lemma NumberOfCode(prefix: string, segment: Option<string>, padding: nat, value: nat)
    requires !EndsInDigit(Stem(prefix, segment))
    ensures ValueOf(TrailingDigits(FormatCode(prefix, segment, padding, value))) == value
  {
    assert FormatCode(prefix, segment, padding, value) == Stem(prefix, segment) + Padded(value, padding);
    TrailingDigitsOf(Stem(prefix, segment), Padded(value, padding));
  }

  /// A segment always ends in a dash, so only a bare prefix can end in a digit.
  lemma SegmentSeparates(prefix: string, segment: Option<string>)
    ensures EndsInDigit(Stem(prefix, segment)) <==> (segment == None || segment == Some("")) && EndsInDigit(prefix)
  {
  }

  /// Two codes are the same exactly when stem, number and printed width are.
  lemma SameCodeSameNumber(p1: string, s1: Option<string>, w1: nat, v1: nat, p2: string, s2: Option<string>, w2: nat, v2: nat)
    requires !EndsInDigit(Stem(p1, s1)) && !EndsInDigit(Stem(p2, s2))
    ensures FormatCode(p1, s1, w1, v1) == FormatCode(p2, s2, w2, v2) <==>
            Stem(p1, s1) == Stem(p2, s2) && v1 == v2 && Padded(v1, w1) == Padded(v2, w2)
  {
    var c1, c2 := FormatCode(p1, s1, w1, v1), FormatCode(p2, s2, w2, v2);
    assert c1 == Stem(p1, s1) + Padded(v1, w1) && c2 == Stem(p2, s2) + Padded(v2, w2);
    TrailingDigitsOf(Stem(p1, s1), Padded(v1, w1));
    TrailingDigitsOf(Stem(p2, s2), Padded(v2, w2));
    if c1 == c2 {
      assert Padded(v1, w1) == Padded(v2, w2);
      assert c1[..|Stem(p1, s1)|] == Stem(p1, s1) && c2[..|Stem(p2, s2)|] == Stem(p2, s2);
    }
  }

  /// Under one stem codes of different numbers differ, even if the stem ends in a digit.
  lemma OneStemNeverCollides(stem: string, w1: nat, v1: nat, w2: nat, v2: nat)
    requires stem + Padded(v1, w1) == stem + Padded(v2, w2)
    ensures v1 == v2
  {
    assert (stem + Padded(v1, w1))[|stem|..] == Padded(v1, w1);
    assert (stem + Padded(v2, w2))[|stem|..] == Padded(v2, w2);
  }

  // ---------------------------------------------------------------------------
  // When stems collide
  // ---------------------------------------------------------------------------

  lemma {:induction false} DecimalIsShortest(x: string)
    requires x != "" && AllDigits(x)
    ensures |Decimal(ValueOf(x))| <= |x|
  {
    var y := x[..|x| - 1];
    if ValueOf(x) >= 10 {
      assert ValueOf(x) / 10 == ValueOf(y);
      assert y != "";
      DecimalIsShortest(y);
    }
  }

  lemma {:induction false} ValueIsUnique(x: string, y: string)
    requires |x| == |y| && AllDigits(x) && AllDigits(y) && ValueOf(x) == ValueOf(y)
    ensures x == y
  {
    if x != "" {
      var a, b := x[..|x| - 1], y[..|y| - 1];
      assert ValueOf(x) / 10 == ValueOf(a) && ValueOf(y) / 10 == ValueOf(b);
      assert ValueOf(x) % 10 == x[|x| - 1] as int - '0' as int && ValueOf(y) % 10 == y[|y| - 1] as int - '0' as int;
      ValueIsUnique(a, b);
      assert x == a + [x[|x| - 1]] && y == b + [y[|y| - 1]];
    }
  }

  /// Any run of digits is the printed form of its value, at its own width.
  lemma PaddedOfValue(x: string)
    requires x != "" && AllDigits(x)
    ensures Padded(ValueOf(x), |x|) == x
  {
    DecimalIsShortest(x);
    PaddedLength(ValueOf(x), |x|);
    ValueIsUnique(Padded(ValueOf(x), |x|), x);
  }

  lemma PaddedLength(value: nat, width: nat)
    requires |Decimal(value)| <= width
    ensures |Padded(value, width)| == width
  {
  }

  lemma {:induction false} LongerIsLarger(a: string, b: string)
    requires AllDigits(a) && AllDigits(b) && b != ""
    ensures AllDigits(a + b) && ValueOf(a + b) >= 10 * ValueOf(a)
  {
    var c := b[..|b| - 1];
    assert (a + b)[..|a + b| - 1] == a + c;
    if c == "" {
      assert a + c == a;
    } else {
      LongerIsLarger(a, c);
    }
  }

  /// The longer stem is the shorter one with digits behind it that are not all zeros, and few
  /// enough for one more digit to leave the number within bounds.
  predicate RunsInto(s: string, t: string, max: nat) {
    s <= t && AllDigits(t[|s|..]) && 0 < 10 * ValueOf(t[|s|..]) <= max
  }

  lemma {:induction false} CollisionRunsInto(s: string, v1: nat, w1: nat, t: string, v2: nat, w2: nat, max: nat)
    requires |s| <= |t| && v1 != v2 && v1 <= max && s + Padded(v1, w1) == t + Padded(v2, w2)
    ensures RunsInto(s, t, max)
  {
    hide Padded, Decimal;
    var p1, p2 := Padded(v1, w1), Padded(v2, w2);
    var code := s + p1;
    assert code[..|s|] == s && code[..|t|] == t && code[|s|..] == p1 && code[|t|..] == p2;
    var d := t[|s|..];
    assert t[..|s|] == code[..|t|][..|s|] == code[..|s|];
    assert d == code[|s|..|t|] == p1[..|d|];
    assert p1 == d + p2;
    ValueOfJoin(d, p2);
    LongerIsLarger(d, p2);
  }

  lemma RunningIntoCollides(s: string, t: string, max: nat) returns (v1: nat, w1: nat)
    requires RunsInto(s, t, max)
    ensures v1 != 0 && v1 <= max && s + Padded(v1, w1) == t + Padded(0, 1)
  {
    var d := t[|s|..];
    var x := d + "0";
    assert x[..|x| - 1] == d && AllDigits(x);
    v1, w1 := ValueOf(x), |x|;
    PaddedOfValue(x);
    assert Decimal(0) == "0";
    assert t == s + d;
  }

  /// Numbers within bounds that differ print the same code under the two stems.
  ghost predicate CanCollide(s: string, t: string, max: nat) {
    exists v1: nat, w1: nat, v2: nat, w2: nat ::
      v1 <= max && v2 <= max && v1 != v2 && s + Padded(v1, w1) == t + Padded(v2, w2)
  }

  /// The exact condition: numbers within bounds that differ can print the same code under two
  /// stems if and only if one stem is the other with digits of positive value behind it.
  lemma StemsCollideExactly(s: string, t: string, max: nat)
    ensures CanCollide(s, t, max) <==> RunsInto(s, t, max) || RunsInto(t, s, max)
  {
    hide RunsInto, Padded;
    forall v1: nat, w1: nat, v2: nat, w2: nat | v1 <= max && v2 <= max && v1 != v2 && s + Padded(v1, w1) == t + Padded(v2, w2)
      ensures RunsInto(s, t, max) || RunsInto(t, s, max)
    {
      if |s| <= |t| {
        CollisionRunsInto(s, v1, w1, t, v2, w2, max);
      } else {
        CollisionRunsInto(t, v2, w2, s, v1, w1, max);
      }
    }
    if RunsInto(s, t, max) {
      var v1, w1 := RunningIntoCollides(s, t, max);
    }
    if RunsInto(t, s, max) {
      var v2, w2 := RunningIntoCollides(t, s, max);
    }
  }

  /// A stem never runs into itself, nor into one that differs from it before its end.
  lemma UnchangedStemIsSafe(s: string, max: nat)
    ensures !RunsInto(s, s, max)
  {
    assert s[|s|..] == "";
  }

  /// Lengthening a prefix by a digit lets numbers collide, unless the digit is zero.
  lemma DigitPrefixCollides(prefix: string, d: nat, max: nat)
    requires d < 10 && max >= 90
    ensures CanCollide(prefix, prefix + [Digit(d)], max) <==> d > 0
  {
    hide CanCollide;
    var t := prefix + [Digit(d)];
    assert t[|prefix|..] == [Digit(d)];
    assert [Digit(d)][..0] == "" && AllDigits([Digit(d)]) && ValueOf([Digit(d)]) == d;
    assert prefix <= t && !(t <= prefix);
    StemsCollideExactly(prefix, t, max);
  }

  /// The keys and the codes that the documentation shows.
  lemma DocumentedKeys()
    ensures BuildSequenceCode("tenant", "code", Some("scope")) == "tenant:code:scope_seq"
    ensures GlobalCode("tenant", "code") == BuildSequenceCode("tenant", "code", None) == "tenant:code_seq"
  {
  }

  lemma DocumentedNumbers()
    ensures Padded(42, 4) == "0042" && Padded(43, 4) == "0043"
  {
    assert Decimal(4) == [Digit(4)] == "4";
    assert Decimal(42) == Decimal(4) + [Digit(2)];
    assert Decimal(43) == Decimal(4) + [Digit(3)];
    assert Digit(2) == '2' && Digit(3) == '3';
    var a, b := Decimal(42), Decimal(43);
    assert a == "42" && b == "43";
    hide Decimal;
    assert Zeros(2) == Zeros(1) + "0" == "00";
  }

  lemma DocumentedCodes()
    ensures FormatCode("WO-", None, 4, 42) == "WO-0042"
    ensures FormatCode("WO-", Some("L-K92MXA"), 4, 43) == "WO-L-K92MXA-0043"
  {
    DocumentedNumbers();
    hide Padded, Decimal;
    assert Stem("WO-", Some("L-K92MXA")) == "WO-L-K92MXA-";
  }
}

/**
 Minting sequence codes: which counter a mint takes its number from, and what concurrent
 mints may do to one another.
 */
module Sequences {
  import opened Wrappers
  import opened Text
  import opened SequenceCodes

  datatype Resolution = Exactly | NearestRegistered

  /// The tenant's numbering policy, kept in the global row; an absent part falls back.
  datatype Policy = Policy(prefix: Option<string>, padding: Option<nat>, resolution: Option<Resolution>)

  datatype Config = Config(name: string, prefix: string, padding: nat, resolution: Resolution)

  /// One row of the registry. `current` is absent if it is missing or not a number.
  datatype Item = Item(current: Option<int>, policy: Policy)

  type Rows = map<string, Item>

  const I64_MIN: int := -0x8000_0000_0000_0000
  const I64_MAX: int := 0x7FFF_FFFF_FFFF_FFFF

  const U64_MAX: nat := 0xFFFF_FFFF_FFFF_FFFF

  /// A signed word read as an unsigned one.
  function AsU64(n: int): (u: nat)
    ensures u <= U64_MAX
  {
    n % 0x1_0000_0000_0000_0000
  }

  /// read_sequence: the value as an unsigned number, if there is one.
  function ReadSequence(rows: Rows, code: string): Option<nat> {
    if code in rows && rows[code].current.Some? && rows[code].current.value >= 0
    then Some(rows[code].current.value as nat) else None
  }

  predicate Active(rows: Rows, code: string) {
    ReadSequence(rows, code).Some?
  }

  function Current(rows: Rows, code: string): int {
    if code in rows && rows[code].current.Some? then rows[code].current.value else 0
  }

  /// The atomic increment; it creates the row if need be.
  function Increment(rows: Rows, code: string): Rows {
    rows[code := Item(Some(Current(rows, code) + 1),
                      if code in rows then rows[code].policy else Policy(None, None, None))]
  }

  /// What other mints do: a sequence of increments.
  function IncrementAll(rows: Rows, codes: seq<string>): Rows
    decreases |codes|
  {
    if codes == [] then rows else IncrementAll(Increment(rows, codes[0]), codes[1..])
  }

  // ---------------------------------------------------------------------------
  // Distinct numbers
  // ---------------------------------------------------------------------------

  /// One printed code, with the counter and the number behind it.
  datatype Mint = Mint(code: string, value: int, prefix: string, segment: Option<string>, padding: nat)

  function Printed(m: Mint): string {
    FormatCode(m.prefix, m.segment, m.padding, AsU64(m.value))
  }

  /// The mints that a sequence of increments makes.
  ghost predicate MintedBy(mints: seq<Mint>, rows: Rows) {
    forall n :: 0 <= n < |mints| ==>
      mints[n].value == Current(IncrementAll(rows, CodesOf(mints[..n])), mints[n].code) + 1
  }

  function CodesOf(mints: seq<Mint>): seq<string> {
    seq(|mints|, n requires 0 <= n < |mints| => mints[n].code)
  }

  lemma {:induction false} IncrementsJoin(rows: Rows, a: seq<string>, b: seq<string>)
    ensures IncrementAll(rows, a + b) == IncrementAll(IncrementAll(rows, a), b)
    decreases |a|
  {
    if a == [] {
      assert a + b == b;
    } else {
      assert (a + b)[1..] == a[1..] + b;
      IncrementsJoin(Increment(rows, a[0]), a[1..], b);
    }
  }

  lemma {:induction false} CountersNeverFall(rows: Rows, codes: seq<string>, code: string)
    ensures Current(IncrementAll(rows, codes), code) >= Current(rows, code)
    ensures code in codes ==> Current(IncrementAll(rows, codes), code) > Current(rows, code)
    ensures Active(rows, code) ==> Active(IncrementAll(rows, codes), code)
    decreases |codes|
  {
    if codes != [] {
      CountersNeverFall(Increment(rows, codes[0]), codes[1..], code);
    }
  }

  /// No number is minted twice on one counter, however mints interleave.
  lemma {:induction false} NumbersIncrease(mints: seq<Mint>, rows: Rows, m: nat, n: nat)
    requires MintedBy(mints, rows) && m < n < |mints| && mints[m].code == mints[n].code
    ensures mints[m].value < mints[n].value
  {
    var a := CodesOf(mints[..m]);
    var b := CodesOf(mints[m..n]);
    assert CodesOf(mints[..n]) == a + b;
    IncrementsJoin(rows, a, b);
    var mid := IncrementAll(rows, a);
    var after := Increment(mid, mints[m].code);
    assert b[0] == mints[m].code && IncrementAll(mid, b) == IncrementAll(after, b[1..]);
    CountersNeverFall(after, b[1..], mints[m].code);
  }

  ghost predicate InRange(mints: seq<Mint>) {
    forall n :: 0 <= n < |mints| ==> I64_MIN <= mints[n].value <= I64_MAX
  }

  function StemOf(m: Mint): string {
    Stem(m.prefix, m.segment)
  }

  /// Over any run of concurrent mints on one counter two printed codes differ, whatever
  /// paddings they were printed with, unless the stem of one is the other's with digits of
  /// positive value behind it, as long as the counter stays in its machine word.
  lemma CodesAreDistinct(mints: seq<Mint>, rows: Rows, m: nat, n: nat)
    requires MintedBy(mints, rows) && InRange(mints)
    requires m < |mints| && n < |mints| && m != n && mints[m].code == mints[n].code
    requires !RunsInto(StemOf(mints[m]), StemOf(mints[n]), U64_MAX) && !RunsInto(StemOf(mints[n]), StemOf(mints[m]), U64_MAX)
    ensures Printed(mints[m]) != Printed(mints[n])
  {
    hide RunsInto, Padded;
    if m < n {
      NumbersIncrease(mints, rows, m, n);
      DistinctWords(mints[m].value, mints[n].value);
    } else {
      NumbersIncrease(mints, rows, n, m);
      DistinctWords(mints[n].value, mints[m].value);
    }
    var a, b := mints[m], mints[n];
    if |StemOf(a)| <= |StemOf(b)| && Printed(a) == Printed(b) {
      CollisionRunsInto(StemOf(a), AsU64(a.value), a.padding, StemOf(b), AsU64(b.value), b.padding, U64_MAX);
    } else if Printed(a) == Printed(b) {
      CollisionRunsInto(StemOf(b), AsU64(b.value), b.padding, StemOf(a), AsU64(a.value), a.padding, U64_MAX);
    }
  }

  lemma {:induction false} CountedUp(rows: Rows, codes: seq<string>, code: string)
    requires forall n :: 0 <= n < |codes| ==> codes[n] == code
    ensures Current(IncrementAll(rows, codes), code) == Current(rows, code) + |codes|
    decreases |codes|
  {
    if codes != [] {
      CountedUp(Increment(rows, codes[0]), codes[1..], code);
    }
  }

  /// Mints that count one counter up from lo make a run.
  lemma CountingUpIsARun(mints: seq<Mint>, code: string, lo: int)
    requires forall k :: 0 <= k < |mints| ==> mints[k].code == code && mints[k].value == lo + k
    ensures MintedBy(mints, map[code := Item(Some(lo - 1), Policy(None, None, None))])
  {
    var rows: Rows := map[code := Item(Some(lo - 1), Policy(None, None, None))];
    forall k | 0 <= k < |mints| ensures mints[k].value == Current(IncrementAll(rows, CodesOf(mints[..k])), code) + 1 {
      CountedUp(rows, CodesOf(mints[..k]), code);
    }
  }

  /// Some run of mints on the counter prints the same code twice, once under each stem.
  ghost predicate CodesCanMeet(code: string, p1: string, s1: Option<string>, p2: string, s2: Option<string>) {
    exists mints: seq<Mint>, rows: Rows, m: nat, n: nat ::
      && MintedBy(mints, rows) && InRange(mints)
      && m < |mints| && n < |mints| && m != n && mints[m].code == mints[n].code == code
      && mints[m].prefix == p1 && mints[m].segment == s1 && mints[n].prefix == p2 && mints[n].segment == s2
      && Printed(mints[m]) == Printed(mints[n])
  }

  lemma TheyMeet(code: string, mints: seq<Mint>, rows: Rows, m: nat, n: nat)
    requires MintedBy(mints, rows) && InRange(mints) && m < |mints| && n < |mints| && m != n
    requires mints[m].code == mints[n].code == code && Printed(mints[m]) == Printed(mints[n])
    ensures CodesCanMeet(code, mints[m].prefix, mints[m].segment, mints[n].prefix, mints[n].segment)
    ensures CodesCanMeet(code, mints[n].prefix, mints[n].segment, mints[m].prefix, mints[m].segment)
  {
    hide MintedBy, InRange, Printed;
  }

  /// Mints that count a counter up from lo to hi, all alike but one.
  function CountingUp(lo: int, hi: int, odd: Mint, usual: Mint): seq<Mint>
    requires lo <= hi
  {
    seq(hi - lo + 1, k requires 0 <= k < hi - lo + 1 => if lo + k == odd.value then odd else usual.(value := lo + k))
  }

  lemma CountingUpMints(lo: int, hi: int, odd: Mint, usual: Mint)
    requires I64_MIN <= lo <= odd.value <= hi <= I64_MAX && odd.code == usual.code
    ensures InRange(CountingUp(lo, hi, odd, usual))
    ensures MintedBy(CountingUp(lo, hi, odd, usual), map[odd.code := Item(Some(lo - 1), Policy(None, None, None))])
    ensures CountingUp(lo, hi, odd, usual)[odd.value - lo] == odd
    ensures lo <= usual.value <= hi && usual.value != odd.value ==> CountingUp(lo, hi, odd, usual)[usual.value - lo] == usual
  {
    CountingUpIsARun(CountingUp(lo, hi, odd, usual), odd.code, lo);
  }

  lemma SamePrint(odd: Mint, usual: Mint, v: nat)
    requires v <= U64_MAX && odd.value == (if v <= I64_MAX then v else v - 0x1_0000_0000_0000_0000)
    requires usual.value == 0 && StemOf(odd) + Padded(v, odd.padding) == StemOf(usual) + Padded(0, usual.padding)
    ensures Printed(odd) == Printed(usual)
  {
    hide Padded, Stem;
    assert AsU64(odd.value) == v && AsU64(0) == 0;
  }

  lemma MeetingIsReached(code: string, p1: string, s1: Option<string>, p2: string, s2: Option<string>)
    requires RunsInto(Stem(p1, s1), Stem(p2, s2), U64_MAX)
    ensures CodesCanMeet(code, p1, s1, p2, s2) && CodesCanMeet(code, p2, s2, p1, s1)
  {
    var v, w := RunningIntoCollides(Stem(p1, s1), Stem(p2, s2), U64_MAX);
    hide RunsInto, Padded, Stem, CodesCanMeet, MintedBy, IncrementAll, CountingUp, InRange;
    var a := if v <= I64_MAX then v else v - 0x1_0000_0000_0000_0000;
    var lo, hi := if a < 0 then a else 0, if a < 0 then 0 else a;
    var odd, usual := Mint(code, a, p1, s1, w), Mint(code, 0, p2, s2, 1);
    SamePrint(odd, usual, v);
    hide Printed, AsU64;
    CountingUpMints(lo, hi, odd, usual);
    TheyMeet(code, CountingUp(lo, hi, odd, usual), map[code := Item(Some(lo - 1), Policy(None, None, None))], a - lo, 0 - lo);
  }

  /// The exact condition, over runs: codes of one counter can meet under two stems if and only
  /// if one stem runs into the other. It can be told before a prefix is changed.
  lemma CodesMeetExactly(code: string, p1: string, s1: Option<string>, p2: string, s2: Option<string>)
    ensures CodesCanMeet(code, p1, s1, p2, s2) <==>
            RunsInto(Stem(p1, s1), Stem(p2, s2), U64_MAX) || RunsInto(Stem(p2, s2), Stem(p1, s1), U64_MAX)
  {
    hide RunsInto, Printed, MintedBy, InRange;
    if CodesCanMeet(code, p1, s1, p2, s2) {
      var mints: seq<Mint>, rows: Rows, m: nat, n: nat :|
        && MintedBy(mints, rows) && InRange(mints)
        && m < |mints| && n < |mints| && m != n && mints[m].code == mints[n].code == code
        && mints[m].prefix == p1 && mints[m].segment == s1 && mints[n].prefix == p2 && mints[n].segment == s2
        && Printed(mints[m]) == Printed(mints[n]);
      if !RunsInto(Stem(p1, s1), Stem(p2, s2), U64_MAX) && !RunsInto(Stem(p2, s2), Stem(p1, s1), U64_MAX) {
        CodesAreDistinct(mints, rows, m, n);
      }
    }
    if RunsInto(Stem(p1, s1), Stem(p2, s2), U64_MAX) {
      MeetingIsReached(code, p1, s1, p2, s2);
    }
    if RunsInto(Stem(p2, s2), Stem(p1, s1), U64_MAX) {
      MeetingIsReached(code, p2, s2, p1, s1);
    }
  }

  lemma DistinctWords(a: int, b: int)
    requires I64_MIN <= a < b <= I64_MAX
    ensures AsU64(a) != AsU64(b)
  {
  }

  // ---------------------------------------------------------------------------
  // Choosing the counter
  // ---------------------------------------------------------------------------

  function Candidates(tenant: string, name: string, scope: Option<string>, ancestors: seq<string>): seq<string> {
    (if scope.Some? then [BuildSequenceCode(tenant, name, scope)] else [])
    + seq(|ancestors|, n requires 0 <= n < |ancestors| => BuildSequenceCode(tenant, name, Some(ancestors[n])))
  }

  ghost predicate NoneActive(seen: seq<Rows>, candidates: seq<string>) {
    |seen| <= |candidates| && forall n :: 0 <= n < |seen| ==> !Active(seen[n], candidates[n])
  }

  /// The choice of a mint that saw candidate n in the state seen[n]: the first that was
  /// active when it was read, else the global counter.
  ghost predicate Chosen(code: string, candidates: seq<string>, seen: seq<Rows>, global: string) {
    || (code == global && |seen| == |candidates| && NoneActive(seen, candidates))
    || (&& 0 < |seen| <= |candidates|
        && code == candidates[|seen| - 1] && Active(seen[|seen| - 1], code)
        && NoneActive(seen[..|seen| - 1], candidates))
  }

  /// The row holds a number that can be counted on.
  predicate HasNumber(rows: Rows, code: string) {
    code in rows && rows[code].current.Some? && rows[code].current.value >= 0
  }

  /// The own scope's counter, if a scope is given, and the first k ancestors' held no number
  /// when they were read.
  ghost predicate PassedOver(seen: seq<Rows>, tenant: string, name: string, scope: Option<string>, ancestors: seq<string>, k: nat) {
    var first := if scope.Some? then 1 else 0;
    && first + k <= |seen| && k <= |ancestors|
    && (scope.Some? ==> !HasNumber(seen[0], BuildSequenceCode(tenant, name, scope)))
    && forall m :: 0 <= m < k ==> !HasNumber(seen[first + m], BuildSequenceCode(tenant, name, Some(ancestors[m])))
  }

  /// The counter of a mint whose reads found these rows, one after the other: the own scope's
  /// if it held a number, else that of the nearest ancestor whose counter did, else the global
  /// one after all of them were read.
  ghost predicate NearestActive(code: string, seen: seq<Rows>, tenant: string, name: string, scope: Option<string>, ancestors: seq<string>) {
    var first := if scope.Some? then 1 else 0;
    || (scope.Some? && |seen| == 1 && code == BuildSequenceCode(tenant, name, scope) && HasNumber(seen[0], code))
    || (exists k :: 0 <= k < |ancestors| && |seen| == first + k + 1
                    && code == BuildSequenceCode(tenant, name, Some(ancestors[k])) && HasNumber(seen[first + k], code)
                    && PassedOver(seen, tenant, name, scope, ancestors, k))
    || (code == GlobalCode(tenant, name) && |seen| == first + |ancestors|
        && PassedOver(seen, tenant, name, scope, ancestors, |ancestors|))
  }

  lemma CandidatesInOrder(tenant: string, name: string, scope: Option<string>, ancestors: seq<string>)
    ensures var all, first := Candidates(tenant, name, scope, ancestors), if scope.Some? then 1 else 0;
            && |all| == first + |ancestors|
            && (scope.Some? ==> all[0] == BuildSequenceCode(tenant, name, scope))
            && forall k :: 0 <= k < |ancestors| ==> all[first + k] == BuildSequenceCode(tenant, name, Some(ancestors[k]))
  {
    hide BuildSequenceCode;
  }

  lemma ChosenIsNearest(code: string, seen: seq<Rows>, tenant: string, name: string, scope: Option<string>, ancestors: seq<string>)
    requires Chosen(code, Candidates(tenant, name, scope, ancestors), seen, GlobalCode(tenant, name))
    ensures NearestActive(code, seen, tenant, name, scope, ancestors)
  {
    hide BuildSequenceCode, GlobalCode, Candidates, HasNumber, Active;
    var all, first := Candidates(tenant, name, scope, ancestors), if scope.Some? then 1 else 0;
    CandidatesInOrder(tenant, name, scope, ancestors);
    forall rows, key ensures Active(rows, key) <==> HasNumber(rows, key) {
      ActiveHasNumber(rows, key);
    }
    var k := |seen| - 1 - first;
    if code == GlobalCode(tenant, name) && |seen| == |all| && NoneActive(seen, all) {
      assert forall m :: 0 <= m < |ancestors| ==> !HasNumber(seen[first + m], BuildSequenceCode(tenant, name, Some(ancestors[m])));
      assert PassedOver(seen, tenant, name, scope, ancestors, |ancestors|);
    } else if k >= 0 {
      var before := seen[..|seen| - 1];
      assert forall m :: 0 <= m < |before| ==> before[m] == seen[m] && !Active(before[m], all[m]);
      assert forall m :: 0 <= m < k ==> !HasNumber(before[first + m], BuildSequenceCode(tenant, name, Some(ancestors[m])));
      assert scope.Some? ==> before[0] == seen[0] && !Active(before[0], all[0]);
      assert PassedOver(seen, tenant, name, scope, ancestors, k);
      assert code == all[first + k];
    }
  }

  lemma ActiveHasNumber(rows: Rows, key: string)
    ensures Active(rows, key) <==> HasNumber(rows, key)
  {
  }

  lemma ReadFindsActive(rows: Rows, code: string)
    ensures ReadSequence(rows, code).Some? <==> Active(rows, code)
    ensures Active(rows, code) ==> code in rows
  {
  }

  lemma {:induction false} RowsStay(rows: Rows, codes: seq<string>)
    ensures rows.Keys <= IncrementAll(rows, codes).Keys
    decreases |codes|
  {
    if codes != [] {
      RowsStay(Increment(rows, codes[0]), codes[1..]);
    }
  }

  datatype StoreError = StoreError

  /// What others do before the first n calls.
  function Joined(others: nat -> seq<string>, n: nat): seq<string> {
    if n == 0 then [] else Joined(others, n - 1) + others(n - 1)
  }

  /// The rows that calls find which follow one another with others in between.
  function Seen(start: Rows, others: nat -> seq<string>, polled: nat): seq<Rows> {
    seq(polled, n requires 0 <= n < polled => IncrementAll(start, Joined(others, n + 1)))
  }

  /// The same calls, counted from the second one on.
  function Later(others: nat -> seq<string>): nat -> seq<string> {
    (n: nat) => others(n + 1)
  }

  lemma {:induction false} JoinedLater(others: nat -> seq<string>, n: nat)
    ensures Joined(others, n + 1) == others(0) + Joined(Later(others), n)
  {
    var later := Later(others);
    if n == 0 {
      assert Joined(others, 1) == Joined(others, 0) + others(0) == others(0);
      assert others(0) + [] == others(0);
    } else {
      JoinedLater(others, n - 1);
      assert later(n - 1) == others(n);
      var a, b, c := others(0), Joined(later, n - 1), others(n);
      assert Joined(others, n + 1) == Joined(others, n) + c;
      assert Joined(later, n) == b + c;
      hide Joined, Later;
      assert (a + b) + c == a + (b + c);
    }
  }

  lemma SeenLater(start: Rows, others: nat -> seq<string>, polled: nat)
    ensures Seen(IncrementAll(start, others(0)), Later(others), polled) == Seen(start, others, polled + 1)[1..]
  {
    hide IncrementAll;
    var all := Seen(start, others, polled + 1);
    forall n | 0 <= n < polled
      ensures IncrementAll(IncrementAll(start, others(0)), Joined(Later(others), n + 1)) == all[1..][n]
    {
      JoinedLater(others, n + 1);
      IncrementsJoin(start, others(0), Joined(Later(others), n + 1));
    }
  }

  /// What the search has decided on after n reads.
  ghost predicate Looked(start: Rows, others: nat -> seq<string>, candidates: seq<string>, n: nat, found: bool,
                         code: string, global: string) {
    var seen := Seen(start, others, n);
    && n <= |candidates|
    && (!found ==> code == global && NoneActive(seen, candidates))
    && (found ==> 0 < n && code == candidates[n - 1] && Active(seen[n - 1], code) && NoneActive(seen[..n - 1], candidates))
  }

  lemma LookingStarts(rows: Rows, others: nat -> seq<string>, candidates: seq<string>, global: string)
    ensures Looked(rows, others, candidates, 0, false, global, global)
    ensures IncrementAll(rows, Joined(others, 0)) == rows
  {
  }

  lemma LookOnce(start: Rows, others: nat -> seq<string>, candidates: seq<string>, n: nat, global: string)
    requires Looked(start, others, candidates, n, false, global, global) && n < |candidates|
    ensures var rows := IncrementAll(start, Joined(others, n + 1));
            if Active(rows, candidates[n]) then Looked(start, others, candidates, n + 1, true, candidates[n], global)
            else Looked(start, others, candidates, n + 1, false, global, global)
  {
    hide Active, IncrementAll;
    var seen, next := Seen(start, others, n), Seen(start, others, n + 1);
    assert next[..n] == seen;
    assert next[n] == IncrementAll(start, Joined(others, n + 1));
  }

  lemma LookingEnds(start: Rows, others: nat -> seq<string>, candidates: seq<string>, n: nat, found: bool,
                    code: string, global: string)
    requires Looked(start, others, candidates, n, found, code, global) && (found || n == |candidates|)
    ensures Chosen(code, candidates, Seen(start, others, n), global)
    ensures code in IncrementAll(start, Joined(others, n + 1)) || code == global
  {
    hide IncrementAll;
    if found {
      var rows := IncrementAll(start, Joined(others, n));
      assert Seen(start, others, n)[n - 1] == rows;
      RowsStay(rows, others(n));
      IncrementsJoin(start, Joined(others, n), others(n));
    }
  }

  class Registry {
    var rows: Rows

    constructor (rows: Rows)
      ensures this.rows == rows
    {
      this.rows := rows;
    }

    /// Other mints run.
    method Interfere(codes: seq<string>)
      modifies this
      ensures rows == IncrementAll(old(rows), codes)
    {
      var n := 0;
      assert codes[..0] == [];
      while n < |codes|
        invariant 0 <= n <= |codes|
        invariant rows == IncrementAll(old(rows), codes[..n])
      {
        assert codes[..n + 1] == codes[..n] + [codes[n]];
        IncrementsJoin(old(rows), codes[..n], [codes[n]]);
        assert [codes[n]][1..] == [];
        rows := Increment(rows, codes[n]);
        n := n + 1;
      }
      assert codes[..n] == codes;
    }

    /// sequence_increment
    method IncrementCounter(code: string) returns (value: int)
      modifies this
      ensures value == Current(old(rows), code) + 1 && rows == Increment(old(rows), code)
    {
      var current := 0;
      if code in rows && rows[code].current.Some? {
        current := rows[code].current.value;
      }
      value := current + 1;
      rows := rows[code := if code in rows then rows[code].(current := Some(value))
                           else Item(Some(value), Policy(None, None, None))];
    }

    /// next: read the candidates nearest first, take the first active counter or else the
    /// global one, increment it in one write, print. Other mints may run before each call,
    /// any call may fail, and an increment may apply while its answer is lost: `taken` says
    /// whether a number was used up. `polled` counts the candidates that were read.
    method Next(config: Config, scope: Option<string>, tenant: string, ancestors: seq<string>,
                segment: Option<string>, others: nat -> seq<string>, faults: nat -> Fault)
      returns (r: Result<string, StoreError>, ghost mint: Mint, ghost taken: bool, ghost polled: nat)
      modifies this
      ensures rows == IncrementAll(old(rows), Joined(others, polled + 1) + if taken then [mint.code] else [])
      ensures r.Ok? ==> taken && r.value == Printed(mint)
      ensures mint.prefix == config.prefix && mint.segment == segment && mint.padding == config.padding
      ensures taken ==>
                var found := IncrementAll(old(rows), Joined(others, polled + 1));
                && mint.value == Current(found, mint.code) + 1
                && NearestActive(mint.code, Seen(old(rows), others, polled), tenant, config.name, scope, ancestors)
                && (mint.code in found || mint.code == GlobalCode(tenant, config.name))
      ensures r.Err? ==> !faults(polled).Fine? || !faults(polled + 1).Fine?
      ensures polled <= |Candidates(tenant, config.name, scope, ancestors)|
    {
      hide Active, GlobalCode, Candidates, ReadSequence, BuildSequenceCode, FormatCode, Increment, Current;
      hide Looked, Chosen, NearestActive, Seen, IncrementAll;
      var candidates := Candidates(tenant, config.name, scope, ancestors);
      var global := GlobalCode(tenant, config.name);
      var code := global;
      var found := false;
      var n: nat := 0;
      ghost var start := rows;
      mint, taken, polled := Mint(global, 0, config.prefix, segment, config.padding), false, 0;
      LookingStarts(rows, others, candidates, global);
      while n < |candidates| && !found
        invariant 0 <= n <= |candidates|
        invariant rows == IncrementAll(start, Joined(others, n))
        invariant Looked(start, others, candidates, n, found, code, global)
        invariant !found ==> code == global
        decreases |candidates| - n, if found then 0 else 1
      {
        IncrementsJoin(start, Joined(others, n), others(n));
        Interfere(others(n));
        polled := n;
        if faults(n) != Fine {
          assert Joined(others, n + 1) + [] == Joined(others, n + 1);
          return Err(StoreError), mint, taken, polled;
        }
        ReadFindsActive(rows, candidates[n]);
        LookOnce(start, others, candidates, n, global);
        var value := ReadSequence(rows, candidates[n]);
        if value.Some? {
          code, found := candidates[n], true;
        }
        n := n + 1;
      }
      LookingEnds(start, others, candidates, n, found, code, global);
      ChosenIsNearest(code, Seen(start, others, n), tenant, config.name, scope, ancestors);
      IncrementsJoin(start, Joined(others, n), others(n));
      Interfere(others(n));
      polled := n;
      // The global counter is read for the log; a failed read aborts.
      if (!found && faults(n) != Fine) || faults(n + 1) == NotApplied {
        assert Joined(others, n + 1) + [] == Joined(others, n + 1);
        return Err(StoreError), mint, taken, polled;
      }
      IncrementsJoin(start, Joined(others, n + 1), [code]);
      OneIncrement(rows, code);
      var value := IncrementCounter(code);
      mint, taken := Mint(code, value, config.prefix, segment, config.padding), true;
      r := if faults(n + 1) == Fine then Ok(FormatCode(config.prefix, segment, config.padding, AsU64(value))) else Err(StoreError);
    }
  }

  lemma OneIncrement(rows: Rows, code: string)
    ensures IncrementAll(rows, [code]) == Increment(rows, code)
  {
    assert [code][1..] == [];
  }

  // ---------------------------------------------------------------------------
  // The set of counters
  // ---------------------------------------------------------------------------

  /// One mint adds no counter but the global one.
  lemma MintAddsAtMostTheGlobal(rows: Rows, code: string, global: string)
    requires code in rows || code == global
    ensures rows.Keys <= Increment(rows, code).Keys <= rows.Keys + {global}
    ensures Current(Increment(rows, code), code) == Current(rows, code) + 1
    ensures forall other :: other in rows && other != code ==> Increment(rows, code)[other] == rows[other]
  {
  }

  /// Nor does any run of mints.
  lemma {:induction false} MintsAddAtMostTheGlobal(rows: Rows, codes: seq<string>, global: string)
    requires forall n :: 0 <= n < |codes| ==> codes[n] in IncrementAll(rows, codes[..n]) || codes[n] == global
    ensures rows.Keys <= IncrementAll(rows, codes).Keys <= rows.Keys + {global}
  {
    if codes != [] {
      var n := |codes| - 1;
      assert forall k :: 0 <= k < n ==> codes[..n][..k] == codes[..k];
      MintsAddAtMostTheGlobal(rows, codes[..n], global);
      assert codes == codes[..n] + [codes[n]];
      IncrementsJoin(rows, codes[..n], [codes[n]]);
      assert [codes[n]][1..] == [];
      assert IncrementAll(rows, codes) == Increment(IncrementAll(rows, codes[..n]), codes[n]);
    }
  }
}

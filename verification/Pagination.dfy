/**
 Cursors that hold `offset:limit` in Base64, the page metadata, and the walk a client makes by
 following `next_cursor`.
 */
module Pagination {
  import opened Wrappers
  import opened Text
  import opened Bytes
  import opened Base64

  const USIZE_MAX: nat := 0xFFFF_FFFF_FFFF_FFFF

  /// Bytes of a text below code point 128.
  function BytesOf(s: string): seq<Byte>
    requires forall n :: 0 <= n < |s| ==> s[n] as int < 128
  {
    seq(|s|, n requires 0 <= n < |s| => s[n] as int)
  }

  /// What is known of the UTF-8 decoder: text below code point 128 stands for itself. Other
  /// byte strings may decode to anything or be refused.
  type Utf8 = seq<Byte> -> Option<string>

  ghost predicate ReadsAscii(utf8: Utf8) {
    forall s: string :: (forall n :: 0 <= n < |s| ==> s[n] as int < 128) ==> utf8(BytesOf(s)) == Some(s)
  }

  function CursorText(offset: nat, limit: nat): (s: string)
    ensures forall n :: 0 <= n < |s| ==> s[n] as int < 128
  {
    Decimal(offset) + ":" + Decimal(limit)
  }

  function EncodeCursor(offset: nat, limit: nat): string {
    EncodePadded(Standard, BytesOf(CursorText(offset, limit)))
  }

  function SplitColon(s: string): (string, Option<string>) {
    match Find(s, ':')
    case None => (s, None)
    case Some(colon) => (s[..colon], Some(s[colon + 1..]))
  }

  function OrElse(n: Option<nat>, default: nat): nat {
    if n.Some? then n.value else default
  }

  /// Anything unreadable falls back, each part for itself.
  function DecodeCursor(utf8: Utf8, cursor: Option<string>, fallback: nat): (r: (nat, nat))
    ensures r.0 <= USIZE_MAX
  {
    if cursor.None? || cursor.value == "" then (0, fallback)
    else
      match DecodePadded(Standard, cursor.value)
      case None => (0, fallback)
      case Some(bytes) =>
        var text := utf8(bytes);
        var (first, second) := SplitColon(if text.Some? then text.value else "");
        (OrElse(ParseUnsigned(first, USIZE_MAX), 0),
         if second.None? then fallback else OrElse(ParseUnsigned(second.value, USIZE_MAX), fallback))
  }

  lemma SplitsAtColon(offset: nat, limit: nat)
    ensures SplitColon(CursorText(offset, limit)) == (Decimal(offset), Some(Decimal(limit)))
  {
    hide Decimal;
    var a, b := Decimal(offset), Decimal(limit);
    assert ':' !in a;
    assert a + ":" + b == a + [':'] + b;
    FindAfterPrefix(a, ':', b);
    var s := CursorText(offset, limit);
    assert s[..|a|] == a && s[|a| + 1..] == b;
  }

  /// A cursor is read back as it was written, whatever the fallback.
  lemma CursorRoundTrip(utf8: Utf8, offset: nat, limit: nat, fallback: nat)
    requires ReadsAscii(utf8) && offset <= USIZE_MAX && limit <= USIZE_MAX
    ensures EncodeCursor(offset, limit) != ""
    ensures DecodeCursor(utf8, Some(EncodeCursor(offset, limit)), fallback) == (offset, limit)
  {
    hide EncodePadded, DecodePadded, Decimal;
    var s := CursorText(offset, limit);
    PaddedRoundTrip(Standard, BytesOf(s));
    SplitsAtColon(offset, limit);
    ParseOfDecimal(offset, USIZE_MAX);
    ParseOfDecimal(limit, USIZE_MAX);
    assert EncodeCursor(offset, limit) != "" by {
      assert |s| >= 1;
      if EncodePadded(Standard, BytesOf(s)) == "" {
        assert DecodePadded(Standard, "") == Some(BytesOf(s));
        EmptyDecodesToEmpty();
      }
    }
  }

  /// Other texts in a cursor: each part that is no number falls back for itself, and what is
  /// no Base64 at all falls back whole.
  lemma OtherCursorsFallBack(utf8: Utf8, a: string, b: string, fallback: nat)
    requires ReadsAscii(utf8) && ':' !in a && forall n :: 0 <= n < |a + b| ==> (a + b)[n] as int < 128
    ensures (forall n :: 0 <= n < |a| ==> a[n] as int < 128) && forall n :: 0 <= n < |a + ":" + b| ==> (a + ":" + b)[n] as int < 128
    ensures var whole := EncodePadded(Standard, BytesOf(a + ":" + b));
            var first, second := ParseUnsigned(a, USIZE_MAX), ParseUnsigned(b, USIZE_MAX);
            whole != "" ==> DecodeCursor(utf8, Some(whole), fallback) ==
                            (if first.Some? then first.value else 0, if second.Some? then second.value else fallback)
    ensures var part := EncodePadded(Standard, BytesOf(a));
            var first := ParseUnsigned(a, USIZE_MAX);
            part != "" ==> DecodeCursor(utf8, Some(part), fallback) == (if first.Some? then first.value else 0, fallback)
    ensures forall c :: DecodePadded(Standard, c).None? ==> DecodeCursor(utf8, Some(c), fallback) == (0, fallback)
    ensures DecodeCursor(utf8, None, fallback) == DecodeCursor(utf8, Some(""), fallback) == (0, fallback)
  {
    hide EncodePadded, DecodePadded, ParseUnsigned;
    var s := a + ":" + b;
    assert forall n :: 0 <= n < |a| ==> a[n] == (a + b)[n];
    assert forall n :: 0 <= n < |b| ==> b[n] == (a + b)[|a| + n];
    PaddedRoundTrip(Standard, BytesOf(s));
    PaddedRoundTrip(Standard, BytesOf(a));
    assert s == a + [':'] + b;
    FindAfterPrefix(a, ':', b);
    assert s[..|a|] == a && s[|a| + 1..] == b;
  }

  lemma EmptyDecodesToEmpty()
    ensures DecodePadded(Standard, "") == Some([])
  {
  }

  // ---------------------------------------------------------------------------
  // Pages
  // ---------------------------------------------------------------------------

  datatype Page = Page(size: nat, hasNext: bool, hasPrevious: bool, next: Option<string>, previous: Option<string>)

  /// build_pagination; the sum of offset and limit must fit the word.
  function BuildPagination(offset: nat, limit: nat, total: nat): Page
    requires offset + limit <= USIZE_MAX
  {
    var hasNext := offset + limit < total;
    Page(limit, hasNext, offset > 0,
         if hasNext then Some(EncodeCursor(offset + limit, limit)) else None,
         if offset > 0 then Some(EncodeCursor(if offset >= limit then offset - limit else 0, limit)) else None)
  }

  function PaginateRows<T>(rows: seq<T>, offset: nat, limit: nat): seq<T> {
    var skipped := if offset <= |rows| then rows[offset..] else [];
    if limit <= |skipped| then skipped[..limit] else skipped
  }

  /// A page holds the rows from its offset on, up to its limit.
  lemma PageIsWindow<T>(rows: seq<T>, offset: nat, limit: nat)
    ensures var page := PaginateRows(rows, offset, limit);
            && |page| == (if offset >= |rows| then 0 else if offset + limit <= |rows| then limit else |rows| - offset)
            && forall k :: 0 <= k < |page| ==> page[k] == rows[offset + k]
  {
  }

  /// The cursors of a page: on if there is more behind it, back unless it is the first, to the
  /// first one at most.
  lemma CursorsLead(utf8: Utf8, offset: nat, limit: nat, total: nat, fallback: nat)
    requires ReadsAscii(utf8) && offset + limit <= USIZE_MAX
    ensures var page := BuildPagination(offset, limit, total);
            && page.size == limit
            && (page.hasNext <==> offset + limit < total) && (page.next.Some? <==> page.hasNext)
            && (page.hasPrevious <==> offset > 0) && (page.previous.Some? <==> page.hasPrevious)
            && (page.hasNext ==> DecodeCursor(utf8, page.next, fallback) == (offset + limit, limit))
            && (page.hasPrevious ==>
                  DecodeCursor(utf8, page.previous, fallback) == (if offset < limit then 0 else offset - limit, limit))
  {
    hide DecodeCursor, EncodeCursor, ReadsAscii;
    CursorRoundTrip(utf8, offset + limit, limit, fallback);
    CursorRoundTrip(utf8, if offset < limit then 0 else offset - limit, limit, fallback);
  }

  /// One request: decode the cursor, cut the page, build the metadata.
  function Visit<T>(utf8: Utf8, rows: seq<T>, cursor: Option<string>, fallback: nat): (seq<T>, Option<string>) {
    var (offset, limit) := DecodeCursor(utf8, cursor, fallback);
    if offset + limit > USIZE_MAX then (PaginateRows(rows, offset, limit), None)
    else (PaginateRows(rows, offset, limit), BuildPagination(offset, limit, |rows|).next)
  }

  /// The pages of a client that makes at most `requests` requests, and the cursor it is left with.
  function Walk<T>(utf8: Utf8, rows: seq<T>, cursor: Option<string>, fallback: nat, requests: nat): (seq<seq<T>>, Option<string>)
    decreases requests
  {
    if requests == 0 then ([], cursor)
    else
      var (page, next) := Visit(utf8, rows, cursor, fallback);
      if next.None? then ([page], None)
      else
        var (pages, left) := Walk(utf8, rows, next, fallback, requests - 1);
        ([page] + pages, left)
  }

  function Concat<T>(pages: seq<seq<T>>): seq<T> {
    if pages == [] then [] else pages[0] + Concat(pages[1..])
  }

  /// No request of the walk overflows the word.
  ghost predicate StaysInWord(offset: nat, limit: nat, total: nat)
    requires limit > 0
    decreases total - offset
  {
    offset + limit <= USIZE_MAX && (offset + limit < total ==> StaysInWord(offset + limit, limit, total))
  }

  /// Requests it takes to finish from an offset.
  function Requests(offset: nat, limit: nat, total: nat): (n: nat)
    requires limit > 0
    ensures n > 0
    decreases total - offset
  {
    if offset + limit < total then 1 + Requests(offset + limit, limit, total) else 1
  }

  lemma ConcatMore<T>(page: seq<T>, pages: seq<seq<T>>)
    ensures Concat([page] + pages) == page + Concat(pages)
  {
    assert ([page] + pages)[1..] == pages;
  }

  /// What one request of a walk brings.
  lemma VisitFrom<T>(utf8: Utf8, rows: seq<T>, cursor: Option<string>, fallback: nat, offset: nat, limit: nat)
    requires offset <= |rows| && offset + limit <= USIZE_MAX && DecodeCursor(utf8, cursor, fallback) == (offset, limit)
    ensures Visit(utf8, rows, cursor, fallback) ==
            if offset + limit < |rows| then (rows[offset..offset + limit], Some(EncodeCursor(offset + limit, limit)))
            else (rows[offset..], None)
  {
    hide DecodeCursor, EncodeCursor;
    if offset + limit < |rows| {
      assert rows[offset..][..limit] == rows[offset..offset + limit];
    } else if limit <= |rows| - offset {
      assert rows[offset..][..limit] == rows[offset..];
    }
  }

  lemma {:induction false} WalkFrom<T>(utf8: Utf8, rows: seq<T>, cursor: Option<string>, fallback: nat, offset: nat, limit: nat, requests: nat)
    requires ReadsAscii(utf8) && limit > 0 && StaysInWord(offset, limit, |rows|)
    requires offset <= |rows| && DecodeCursor(utf8, cursor, fallback) == (offset, limit)
    requires requests >= Requests(offset, limit, |rows|)
    ensures var (pages, left) := Walk(utf8, rows, cursor, fallback, requests);
            Concat(pages) == rows[offset..] && left == None && |pages| == Requests(offset, limit, |rows|)
    decreases |rows| - offset
  {
    hide DecodeCursor, EncodeCursor, ReadsAscii, Visit, Concat;
    VisitFrom(utf8, rows, cursor, fallback, offset, limit);
    var (page, next) := Visit(utf8, rows, cursor, fallback);
    if offset + limit < |rows| {
      CursorRoundTrip(utf8, offset + limit, limit, fallback);
      WalkFrom(utf8, rows, next, fallback, offset + limit, limit, requests - 1);
      ConcatMore(page, Walk(utf8, rows, next, fallback, requests - 1).0);
      assert rows[offset..offset + limit] + rows[offset + limit..] == rows[offset..];
    } else {
      ConcatMore(page, []);
      NothingToConcat<T>();
      assert [page] + [] == [page] && page + [] == page;
    }
  }

  lemma NothingToConcat<T>()
    ensures Concat<T>([]) == []
  {
  }

  /// From the first page on, with any positive limit that never overflows, following the
  /// cursors ends, and the pages put together are the rows in order, each once.
  lemma WalkVisitsEveryRowOnce<T>(utf8: Utf8, rows: seq<T>, limit: nat, requests: nat)
    requires ReadsAscii(utf8) && limit > 0 && StaysInWord(0, limit, |rows|)
    requires requests >= Requests(0, limit, |rows|)
    ensures var (pages, left) := Walk(utf8, rows, None, limit, requests);
            Concat(pages) == rows && left == None && |pages| == Requests(0, limit, |rows|)
  {
    hide StaysInWord, Walk;
    WalkFrom(utf8, rows, None, limit, 0, limit, requests);
    assert rows[0..] == rows;
  }

  /// The number of pages is the number of rows over the limit, rounded up, and at least one.
  lemma {:induction false} RequestsRoundUp(offset: nat, limit: nat, total: nat)
    requires limit > 0
    ensures (Requests(offset, limit, total) - 1) * limit < total - offset || Requests(offset, limit, total) == 1
    ensures total - offset <= Requests(offset, limit, total) * limit
    decreases total - offset
  {
    if offset + limit < total {
      RequestsRoundUp(offset + limit, limit, total);
      var n := Requests(offset + limit, limit, total);
      assert (n + 1) * limit == n * limit + limit;
      assert n * limit == (n - 1) * limit + limit;
    }
  }

  /// With limit zero the walk never ends while any row is left: the limit must be positive.
  lemma {:induction false} ZeroLimitNeverEnds<T>(utf8: Utf8, rows: seq<T>, cursor: Option<string>, fallback: nat, offset: nat, requests: nat)
    requires ReadsAscii(utf8) && offset < |rows| && DecodeCursor(utf8, cursor, fallback) == (offset, 0)
    ensures var (pages, left) := Walk(utf8, rows, cursor, fallback, requests);
            Concat(pages) == [] && (requests > 0 ==> left.Some?)
    decreases requests
  {
    hide DecodeCursor, EncodeCursor, ReadsAscii, Visit, Concat;
    NothingToConcat<T>();
    if requests > 0 {
      CursorRoundTrip(utf8, offset, 0, fallback);
      VisitFrom(utf8, rows, cursor, fallback, offset, 0);
      assert rows[offset..offset] == [];
      var next := Visit(utf8, rows, cursor, fallback).1;
      ZeroLimitNeverEnds(utf8, rows, next, fallback, offset, requests - 1);
      ConcatMore([], Walk(utf8, rows, next, fallback, requests - 1).0);
    }
  }

  ghost predicate WalkEnds<T>(utf8: Utf8, rows: seq<T>, limit: nat) {
    exists requests: nat :: requests > 0 && Walk(utf8, rows, None, limit, requests).1 == None
  }

  /// Without overflow the walk from the first page on ends exactly when the limit is positive
  /// or there are no rows.
  lemma WalkEndsExactly<T>(utf8: Utf8, rows: seq<T>, limit: nat)
    requires ReadsAscii(utf8) && (limit > 0 ==> StaysInWord(0, limit, |rows|))
    ensures WalkEnds(utf8, rows, limit) <==> limit > 0 || rows == []
  {
    hide StaysInWord, ReadsAscii, EncodeCursor;
    if limit > 0 {
      WalkVisitsEveryRowOnce(utf8, rows, limit, Requests(0, limit, |rows|));
    } else if rows == [] {
      VisitFrom(utf8, rows, None, limit, 0, limit);
      assert Walk(utf8, rows, None, limit, 1).1 == None;
    } else {
      forall requests: nat | requests > 0 ensures Walk(utf8, rows, None, limit, requests).1 != None {
        ZeroLimitNeverEnds(utf8, rows, None, limit, 0, requests);
      }
    }
  }

  /// Going on and back again returns to the page one came from.
  lemma NextThenPrevious(utf8: Utf8, offset: nat, limit: nat, total: nat, fallback: nat)
    requires ReadsAscii(utf8) && limit > 0 && offset + 2 * limit <= USIZE_MAX && offset + limit < total
    ensures var next := BuildPagination(offset, limit, total).next;
            && DecodeCursor(utf8, next, fallback) == (offset + limit, limit)
            && DecodeCursor(utf8, BuildPagination(offset + limit, limit, total).previous, fallback) == (offset, limit)
  {
    hide DecodeCursor, EncodeCursor, ReadsAscii;
    var there, back := BuildPagination(offset, limit, total), BuildPagination(offset + limit, limit, total);
    assert there.next == Some(EncodeCursor(offset + limit, limit));
    assert back.previous == Some(EncodeCursor(offset, limit));
    hide BuildPagination;
    CursorRoundTrip(utf8, offset + limit, limit, fallback);
    CursorRoundTrip(utf8, offset, limit, fallback);
  }

  /// The documented second page: offset 10, limit 10.
  lemma DocumentedCursor()
    ensures EncodeCursor(10, 10) == "MTA6MTA="
  {
    assert Decimal(10 / 10) == [Digit(1)] == "1";
    assert Decimal(10) == [Digit(1)] + [Digit(0)] == "10";
    var b := BytesOf(CursorText(10, 10));
    assert CursorText(10, 10) == "10:10";
    assert b == [49, 48, 58, 49, 48];
    assert b[3..] == [49, 48];
    assert ToSextets(b[3..]) == [12, 19, 0];
    assert ToSextets(b) == [12, 19, 0, 58, 12, 19, 0];
    assert Encode(Standard, b) == "MTA6MTA";
  }
}

/**
 * Keyset pagination of matches: newest first, at most `limit` a page, and a cursor that carries
 * the last row's time and id. The table keeps microseconds, a cursor whole milliseconds.
 */
module Paging {
  import opened Seqs

  /** The ordering columns of a match: `entry_datetime` in microseconds, and `match_id`. */
  datatype Row = Row(at: int, id: int)

  datatype Cursor = Cursor(atMs: int, id: int)

  /** A decoded cursor payload, where either field may be missing or malformed. */
  datatype Payload = Payload(at: Option<int>, id: Option<int>)

  datatype Page = Page(rows: seq<Row>, next: Option<Payload>)

  /** `toISOString` keeps milliseconds. */
  function Encode(row: Row): Payload {
    Payload(Some(row.at / 1000), Some(row.id))
  }

  function Parse(p: Payload): Option<Cursor> {
    if p.id.None? || p.id.value <= 0 || p.at.None? then None else Some(Cursor(p.at.value, p.id.value))
  }

  /** `?limit=` of the recent-matches route. */
  function RecentLimit(requested: Option<int>): nat {
    if requested.Some? && requested.value > 0 then Min(requested.value, 100) else 20
  }

  /** `?limit=` of the queue route. */
  function QueueLimit(requested: Option<int>): nat {
    Min(Max(if requested.Some? && requested.value != 0 then requested.value else 20, 1), 100)
  }

  /** Both routes read a limit from 1 to 100, by default 20; they differ exactly on negative numbers. */
  lemma LimitsExactly(requested: Option<int>)
    ensures 1 <= RecentLimit(requested) <= 100 && 1 <= QueueLimit(requested) <= 100
    ensures RecentLimit(requested) == QueueLimit(requested) <==> requested.None? || requested.value >= 0
    ensures requested.Some? && 1 <= requested.value <= 100 ==> RecentLimit(requested) == requested.value
    ensures requested.Some? && requested.value > 100 ==> RecentLimit(requested) == 100
    ensures requested.None? || requested.value <= 0 ==> RecentLimit(requested) == 20
    ensures requested.Some? && requested.value < 0 ==> QueueLimit(requested) == 1
  {
  }

  /** `(entry_datetime, match_id) < (cursor.at, cursor.id)`. */
  predicate Below(c: Option<Cursor>, r: Row) {
    c.None? || r.at < 1000 * c.value.atMs || (r.at == 1000 * c.value.atMs && r.id < c.value.id)
  }

  predicate Newer(r: Row, q: Row) {
    r.at > q.at || (r.at == q.at && r.id > q.id)
  }

  /** The matching rows in query order, their keys distinct. */
  ghost predicate Descending(rows: seq<Row>) {
    forall i, j :: 0 <= i < j < |rows| ==> Newer(rows[i], rows[j])
  }

  function Query(rows: seq<Row>, c: Option<Cursor>, count: nat): seq<Row> {
    var found := Filter(rows, (r: Row) => Below(c, r));
    found[..Min(count, |found|)]
  }

  /** One request: one row more than the page is fetched to see whether there is another page. */
  function GetPage(rows: seq<Row>, c: Option<Cursor>, limit: nat): Page {
    var matches := Query(rows, c, limit + 1);
    var page := matches[..Min(limit, |matches|)];
    Page(page, if |matches| > limit && |page| > 0 then Some(Encode(page[|page| - 1])) else None)
  }

  /** Following cursors from `c` for at most `fuel` requests; a refused cursor ends the walk. */
  function Walk(rows: seq<Row>, c: Option<Cursor>, limit: nat, fuel: nat): seq<Row>
    decreases fuel
  {
    if fuel == 0 then []
    else
      var page := GetPage(rows, c, limit);
      if page.next.None? then page.rows
      else
        var parsed := Parse(page.next.value);
        if parsed.None? then page.rows else page.rows + Walk(rows, parsed, limit, fuel - 1)
  }

  /** A cursor comes back from encoding and parsing, to the millisecond, exactly when its id is positive. */
  lemma CursorRoundTrip(row: Row)
    ensures Parse(Encode(row)) == Some(Cursor(row.at / 1000, row.id)) <==> row.id > 0
    ensures Parse(Encode(row)).None? <==> row.id <= 0
    ensures row.id > 0 && row.at % 1000 == 0 ==>
              var c := Parse(Encode(row)); forall r :: Below(c, r) <==> Newer(row, r)
  {
    if row.id > 0 && row.at % 1000 == 0 {
      assert row.at == 1000 * (row.at / 1000);
    }
  }

  // ------------------------------------------------- a query is a suffix of the table

  /** The first position a cursor lets through. */
  ghost predicate StartsAt(rows: seq<Row>, c: Option<Cursor>, i: nat) {
    && i <= |rows|
    && (forall j :: 0 <= j < i ==> !Below(c, rows[j]))
    && (forall j :: i <= j < |rows| ==> Below(c, rows[j]))
  }

  lemma SuffixOf(rows: seq<Row>, c: Option<Cursor>, i: nat)
    requires StartsAt(rows, c, i)
    ensures Filter(rows, (r: Row) => Below(c, r)) == rows[i..]
  {
    hide Below;
    var keep := (r: Row) => Below(c, r);
    assert rows == rows[..i] + rows[i..];
    FilterConcat(rows[..i], rows[i..], keep);
    FilterNone(rows[..i], keep);
    FilterAll(rows[i..], keep);
  }

  lemma {:induction false} FilterAll(rows: seq<Row>, keep: Row -> bool)
    requires forall r :: r in rows ==> keep(r)
    ensures Filter(rows, keep) == rows
  {
    if rows == [] {
    } else {
      assert rows[|rows| - 1] in rows;
      FilterAll(rows[..|rows| - 1], keep);
      Snoc(rows);
    }
  }

  /** The row a cursor was taken from, and everything newer, is above the cursor. */
  lemma AboveCursor(row: Row, r: Row)
    requires row.id > 0 && (r == row || Newer(r, row))
    ensures !Below(Parse(Encode(row)), r)
  {
    assert 1000 * (row.at / 1000) <= row.at;
  }

  lemma BelowIsClosed(c: Option<Cursor>, r: Row, q: Row)
    requires Below(c, r) && Newer(r, q)
    ensures Below(c, q)
  {
  }

  /** A cursor taken from row `last` lets through a suffix that starts after it. */
  lemma CursorStart(rows: seq<Row>, last: nat) returns (i: nat)
    requires Descending(rows) && last < |rows| && rows[last].id > 0
    ensures last < i && StartsAt(rows, Parse(Encode(rows[last])), i)
    ensures i == last + 1 <==> last + 1 == |rows| || Below(Parse(Encode(rows[last])), rows[last + 1])
  {
    hide Parse, Encode, Below, Newer;
    var c := Parse(Encode(rows[last]));
    forall j | 0 <= j <= last
      ensures !Below(c, rows[j])
    {
      AboveCursor(rows[last], rows[j]);
    }
    i := last + 1;
    while i < |rows| && !Below(c, rows[i])
      invariant last < i <= |rows|
      invariant forall j :: 0 <= j < i ==> !Below(c, rows[j])
    {
      i := i + 1;
    }
    forall j | i <= j < |rows|
      ensures Below(c, rows[j])
    {
      if i < j {
        BelowIsClosed(c, rows[i], rows[j]);
      }
    }
  }

  /** What a request returns when its cursor lets through the rows from position `i`. */
  lemma PageAt(rows: seq<Row>, c: Option<Cursor>, i: nat, limit: nat)
    requires StartsAt(rows, c, i) && limit > 0
    ensures var end := Min(i + limit, |rows|);
            GetPage(rows, c, limit)
            == Page(rows[i..end], if i + limit < |rows| then Some(Encode(rows[end - 1])) else None)
  {
    hide Below, Encode;
    SuffixOf(rows, c, i);
    var rest := rows[i..];
    assert Query(rows, c, limit + 1) == rest[..Min(limit + 1, |rest|)];
    assert rest[..Min(limit + 1, |rest|)][..Min(limit, |rest|)] == rows[i..Min(i + limit, |rows|)];
  }

  // -------------------------------------------------------------------------- walking

  /** Where the walk goes from a page boundary on. */
  ghost predicate HandsOver(rows: seq<Row>, i: nat)
    requires 0 < i < |rows|
  {
    rows[i - 1].id > 0 && Below(Parse(Encode(rows[i - 1])), rows[i])
  }

  /** No page boundary from position `i` on loses a row. */
  ghost predicate NoLoss(rows: seq<Row>, i: nat, limit: nat)
    requires limit > 0
    decreases |rows| - i
  {
    i + limit >= |rows| || (HandsOver(rows, i + limit) && NoLoss(rows, i + limit, limit))
  }

  lemma WalkMeans(rows: seq<Row>, c: Option<Cursor>, limit: nat, fuel: nat)
    requires fuel > 0
    ensures var page := GetPage(rows, c, limit);
            Walk(rows, c, limit, fuel)
            == if page.next.None? || Parse(page.next.value).None? then page.rows
               else page.rows + Walk(rows, Parse(page.next.value), limit, fuel - 1)
  {
  }

  /** The last page, or one whose cursor is refused, ends the walk. */
  lemma WalkEnds(rows: seq<Row>, c: Option<Cursor>, i: nat, limit: nat, fuel: nat)
    requires Descending(rows) && StartsAt(rows, c, i) && limit > 0 && fuel > 0
    ensures i + limit >= |rows| ==> i <= |rows| && Walk(rows, c, limit, fuel) == rows[i..]
    ensures i + limit < |rows| && rows[i + limit - 1].id <= 0 ==> Walk(rows, c, limit, fuel) == rows[i..i + limit]
  {
    PageAt(rows, c, i, limit);
    WalkMeans(rows, c, limit, fuel);
    KIsInTable(rows, c, i);
    hide Walk, Below, GetPage, StartsAt, Descending, Encode, Parse;
    if i + limit < |rows| {
      CursorRoundTrip(rows[i + limit - 1]);
    } else {
      assert rows[i..|rows|] == rows[i..];
    }
  }

  /** Any other page is followed by the walk from where its cursor leads. */
  lemma WalkGoesOn(rows: seq<Row>, c: Option<Cursor>, i: nat, limit: nat, fuel: nat)
    requires Descending(rows) && StartsAt(rows, c, i) && limit > 0 && fuel > 0
    requires i + limit < |rows| && rows[i + limit - 1].id > 0
    ensures var next := Parse(Encode(rows[i + limit - 1]));
            Walk(rows, c, limit, fuel) == rows[i..i + limit] + Walk(rows, next, limit, fuel - 1)
  {
    PageAt(rows, c, i, limit);
    WalkMeans(rows, c, limit, fuel);
    CursorRoundTrip(rows[i + limit - 1]);
    hide Walk, Below, GetPage, StartsAt, Descending, Encode, Parse;
  }

  /** One page and then the rest. */
  lemma WalkStep(rows: seq<Row>, c: Option<Cursor>, i: nat, limit: nat, fuel: nat) returns (k: nat)
    requires Descending(rows) && StartsAt(rows, c, i) && limit > 0 && fuel > 0
    ensures i + limit >= |rows| ==> Walk(rows, c, limit, fuel) == rows[i..]
    ensures i + limit < |rows| && rows[i + limit - 1].id <= 0 ==> Walk(rows, c, limit, fuel) == rows[i..i + limit]
    ensures i + limit < |rows| && rows[i + limit - 1].id > 0 ==>
              var next := Parse(Encode(rows[i + limit - 1]));
              && i + limit <= k && StartsAt(rows, next, k)
              && (k == i + limit <==> HandsOver(rows, i + limit))
              && Walk(rows, c, limit, fuel) == rows[i..i + limit] + Walk(rows, next, limit, fuel - 1)
  {
    WalkEnds(rows, c, i, limit, fuel);
    hide Walk, Below, StartsAt, Descending, Encode, Parse;
    k := i;
    if i + limit < |rows| && rows[i + limit - 1].id > 0 {
      WalkGoesOn(rows, c, i, limit, fuel);
      k := CursorStart(rows, i + limit - 1);
    }
  }

  ghost predicate DrawnFrom(a: seq<Row>, b: seq<Row>) {
    forall r :: r in a ==> r in b
  }

  /** However the walk goes, it returns rows of the table, newest first and none twice. */
  lemma {:induction false} WalkInOrder(rows: seq<Row>, c: Option<Cursor>, i: nat, limit: nat, fuel: nat)
    requires Descending(rows) && StartsAt(rows, c, i) && limit > 0
    ensures DrawnFrom(Walk(rows, c, limit, fuel), rows[i..])
    ensures Descending(Walk(rows, c, limit, fuel))
    decreases fuel
  {
    hide Walk, Newer, Below, HandsOver;
    if fuel == 0 {
      NoWalk(rows, c, limit);
    } else {
      var k := WalkStep(rows, c, i, limit, fuel);
      if i + limit < |rows| && rows[i + limit - 1].id > 0 {
        var next := Parse(Encode(rows[i + limit - 1]));
        WalkInOrder(rows, next, k, limit, fuel - 1);
        Stitch(rows, i, i + limit, k, Walk(rows, next, limit, fuel - 1));
      } else if i + limit < |rows| {
        DescendingSlice(rows, i, i + limit);
      } else {
        DescendingSlice(rows, i, |rows|);
        assert rows[i..] == rows[i..|rows|];
      }
    }
  }

  lemma NoWalk(rows: seq<Row>, c: Option<Cursor>, limit: nat)
    ensures Walk(rows, c, limit, 0) == []
  {
  }

  lemma DescendingSlice(rows: seq<Row>, i: nat, j: nat)
    requires Descending(rows) && i <= j <= |rows|
    ensures Descending(rows[i..j]) && DrawnFrom(rows[i..j], rows[i..])
  {
    hide Newer;
  }

  lemma Stitch(rows: seq<Row>, i: nat, j: nat, k: nat, rest: seq<Row>)
    requires Descending(rows) && i <= j <= k <= |rows|
    requires Descending(rest) && DrawnFrom(rest, rows[k..])
    ensures Descending(rows[i..j] + rest) && DrawnFrom(rows[i..j] + rest, rows[i..])
  {
    hide Newer;
    var all := rows[i..j] + rest;
    forall p, q | 0 <= p < q < |all|
      ensures Newer(all[p], all[q])
    {
      if q >= j - i {
        assert all[q] in rest;
        var m :| 0 <= m < |rows[k..]| && rows[k..][m] == all[q];
        assert rows[k + m] == all[q];
        if p >= j - i {
          assert Newer(rest[p - (j - i)], rest[q - (j - i)]);
        } else {
          assert Newer(rows[i + p], rows[k + m]);
        }
      }
    }
    forall r | r in rest
      ensures r in rows[i..]
    {
      var m :| 0 <= m < |rows[k..]| && rows[k..][m] == r;
      assert rows[i..][k + m - i] == r;
    }
  }

  /** Once a boundary does not hand over, the walk has lost a row for good. */
  lemma LossIsFinal(rows: seq<Row>, c: Option<Cursor>, i: nat, limit: nat, fuel: nat)
    requires Descending(rows) && StartsAt(rows, c, i) && limit > 0 && fuel > 0
    requires i + limit < |rows| && !HandsOver(rows, i + limit)
    ensures Walk(rows, c, limit, fuel) != rows[i..]
  {
    hide Walk, Newer, Below, HandsOver, StartsAt, Descending, DrawnFrom, Parse, Encode;
    var k := WalkStep(rows, c, i, limit, fuel);
    SplitAt(rows, i, i + limit);
    if rows[i + limit - 1].id > 0 {
      var next := Parse(Encode(rows[i + limit - 1]));
      var rest := Walk(rows, next, limit, fuel - 1);
      KIsInTable(rows, next, k);
      WalkInOrder(rows, next, k, limit, fuel - 1);
      LostRow(rows, i + limit, k, rest);
      SameTail(rows[i..i + limit], rest, rows[i + limit..]);
    } else {
      assert |rows[i..i + limit]| < |rows[i..]|;
    }
  }

  lemma SplitAt(rows: seq<Row>, i: nat, j: nat)
    requires i <= j <= |rows|
    ensures rows[i..] == rows[i..j] + rows[j..]
  {
  }

  lemma NoLossMeans(rows: seq<Row>, i: nat, limit: nat)
    requires limit > 0
    ensures NoLoss(rows, i, limit)
            <==> i + limit >= |rows| || (HandsOver(rows, i + limit) && NoLoss(rows, i + limit, limit))
  {
  }

  /** A walk that loses nothing is exactly the rest of the table; any loss is final. */
  lemma {:induction false} WalkFromExactly(rows: seq<Row>, c: Option<Cursor>, i: nat, limit: nat, fuel: nat)
    requires Descending(rows) && StartsAt(rows, c, i) && limit > 0 && fuel > |rows| - i >= 0
    ensures Walk(rows, c, limit, fuel) == rows[i..] <==> NoLoss(rows, i, limit)
    decreases fuel
  {
    hide Walk, Newer, Below, HandsOver, StartsAt, Descending, DrawnFrom, Parse, Encode, NoLoss;
    if i + limit >= |rows| {
      NoLossMeans(rows, i, limit);
      WalkLastPage(rows, c, i, limit, fuel);
    } else if HandsOver(rows, i + limit) {
      var next := Parse(Encode(rows[i + limit - 1]));
      WalkOn(rows, c, i, limit, fuel);
      WalkFromExactly(rows, next, i + limit, limit, fuel - 1);
      WalkOnExactly(rows, c, i, limit, fuel);
    } else {
      NoLossMeans(rows, i, limit);
      LossIsFinal(rows, c, i, limit, fuel);
    }
  }

  lemma WalkOnExactly(rows: seq<Row>, c: Option<Cursor>, i: nat, limit: nat, fuel: nat)
    requires Descending(rows) && StartsAt(rows, c, i) && limit > 0 && fuel > 0
    requires i + limit < |rows| && HandsOver(rows, i + limit)
    requires var next := Parse(Encode(rows[i + limit - 1]));
             Walk(rows, next, limit, fuel - 1) == rows[i + limit..] <==> NoLoss(rows, i + limit, limit)
    ensures Walk(rows, c, limit, fuel) == rows[i..] <==> NoLoss(rows, i, limit)
  {
    hide Walk, Newer, Below, HandsOver, StartsAt, Descending, DrawnFrom, Parse, Encode, NoLoss;
    var next := Parse(Encode(rows[i + limit - 1]));
    NoLossMeans(rows, i, limit);
    WalkOn(rows, c, i, limit, fuel);
    WalkSplit(rows, i, i + limit, Walk(rows, c, limit, fuel), Walk(rows, next, limit, fuel - 1));
  }

  lemma WalkSplit(rows: seq<Row>, i: nat, j: nat, all: seq<Row>, rest: seq<Row>)
    requires i <= j <= |rows| && all == rows[i..j] + rest
    ensures all == rows[i..] <==> rest == rows[j..]
  {
    SplitAt(rows, i, j);
    SameTail(rows[i..j], rest, rows[j..]);
  }

  lemma WalkLastPage(rows: seq<Row>, c: Option<Cursor>, i: nat, limit: nat, fuel: nat)
    requires Descending(rows) && StartsAt(rows, c, i) && limit > 0 && fuel > 0
    ensures i + limit >= |rows| ==> Walk(rows, c, limit, fuel) == rows[i..]
  {
    var k := WalkStep(rows, c, i, limit, fuel);
  }

  lemma WalkOn(rows: seq<Row>, c: Option<Cursor>, i: nat, limit: nat, fuel: nat)
    requires Descending(rows) && StartsAt(rows, c, i) && limit > 0 && fuel > 0
    requires i + limit < |rows| && HandsOver(rows, i + limit)
    ensures var next := Parse(Encode(rows[i + limit - 1]));
            && StartsAt(rows, next, i + limit)
            && Walk(rows, c, limit, fuel) == rows[i..i + limit] + Walk(rows, next, limit, fuel - 1)
  {
    hide Walk, Newer, Below, StartsAt, Descending, Parse, Encode;
    var k := WalkStep(rows, c, i, limit, fuel);
  }

  lemma KIsInTable(rows: seq<Row>, c: Option<Cursor>, k: nat)
    requires StartsAt(rows, c, k)
    ensures k <= |rows|
  {
  }

  lemma SameTail(a: seq<Row>, b: seq<Row>, c: seq<Row>)
    ensures a + b == a + c <==> b == c
  {
    if a + b == a + c {
      assert b == (a + b)[|a|..] && c == (a + c)[|a|..];
    }
  }

  lemma LostRow(rows: seq<Row>, j: nat, k: nat, rest: seq<Row>)
    requires Descending(rows) && j < k <= |rows| && DrawnFrom(rest, rows[k..])
    ensures rest != rows[j..]
  {
    forall m | 0 <= m < |rows[k..]|
      ensures rows[k..][m] != rows[j]
    {
      assert Newer(rows[j], rows[k + m]);
    }
    assert rows[j] !in rows[k..];
    assert rows[j..][0] == rows[j];
  }

  // -------------------------------------------------------------------------- results

  lemma FirstPage(rows: seq<Row>)
    ensures StartsAt(rows, None, 0)
  {
  }

  lemma {:induction false} EnoughRequests(rows: seq<Row>, c: Option<Cursor>, i: nat, limit: nat, fuel: nat)
    requires Descending(rows) && StartsAt(rows, c, i) && limit > 0 && fuel > |rows| - i >= 0
    ensures Walk(rows, c, limit, fuel) == Walk(rows, c, limit, fuel + 1)
    decreases fuel
  {
    hide Walk, Newer, Below, HandsOver, StartsAt, Descending, Parse, Encode;
    var k := WalkStep(rows, c, i, limit, fuel);
    var j := WalkStep(rows, c, i, limit, fuel + 1);
    if i + limit < |rows| && rows[i + limit - 1].id > 0 {
      var next := Parse(Encode(rows[i + limit - 1]));
      KIsInTable(rows, next, k);
      EnoughRequests(rows, next, k, limit, fuel - 1);
    }
  }

  /** Every walk stops: after as many requests as there are rows and one more, further ones add nothing. */
  lemma {:induction false} WalkStops(rows: seq<Row>, limit: nat, fuel: nat)
    requires Descending(rows) && limit > 0 && fuel > |rows|
    ensures Walk(rows, None, limit, fuel) == Walk(rows, None, limit, |rows| + 1)
    decreases fuel
  {
    if fuel == |rows| + 1 {
    } else {
      hide Walk, Descending;
      WalkStops(rows, limit, fuel - 1);
      FirstPage(rows);
      EnoughRequests(rows, None, 0, limit, fuel - 1);
    }
  }

  /** The boundary conditions, one per page but the last. */
  ghost predicate EveryBoundaryHandsOver(rows: seq<Row>, limit: nat)
    requires limit > 0
  {
    NoLoss(rows, 0, limit)
  }

  /**
   * Following cursors from the first page enumerates the table exactly when every page boundary
   * hands over.
   */
  lemma WalkExactly(rows: seq<Row>, limit: nat, fuel: nat)
    requires Descending(rows) && limit > 0 && fuel > |rows|
    ensures Walk(rows, None, limit, fuel) == rows <==> EveryBoundaryHandsOver(rows, limit)
  {
    hide Walk, NoLoss, Descending;
    FirstPage(rows);
    WalkFromExactly(rows, None, 0, limit, fuel);
    assert rows[0..] == rows;
  }

  lemma {:induction false} AlignedHandsOver(rows: seq<Row>, i: nat, limit: nat)
    requires Descending(rows) && limit > 0
    requires forall r :: r in rows ==> r.at % 1000 == 0 && r.id > 0
    ensures NoLoss(rows, i, limit)
    decreases |rows| - i
  {
    hide Parse, Encode, Below;
    if i + limit < |rows| {
      var last := rows[i + limit - 1];
      assert last in rows;
      CursorRoundTrip(last);
      assert Newer(last, rows[i + limit]);
      AlignedHandsOver(rows, i + limit, limit);
    }
  }

  /** With whole-millisecond times and positive ids, every row is visited exactly once, in order. */
  lemma AlignedTablesAreEnumerated(rows: seq<Row>, limit: nat, fuel: nat)
    requires Descending(rows) && limit > 0 && fuel > |rows|
    requires forall r :: r in rows ==> r.at % 1000 == 0 && r.id > 0
    ensures Walk(rows, None, limit, fuel) == rows
  {
    AlignedHandsOver(rows, 0, limit);
    WalkExactly(rows, limit, fuel);
  }

  /**
   * A boundary hands over exactly when the next row is in an earlier millisecond, or opens the same
   * one with a smaller id.
   */
  lemma HandsOverExactly(rows: seq<Row>, i: nat)
    requires Descending(rows) && 0 < i < |rows|
    ensures HandsOver(rows, i)
            <==> rows[i - 1].id > 0
                 && (rows[i].at / 1000 < rows[i - 1].at / 1000
                     || (&& rows[i].at / 1000 == rows[i - 1].at / 1000
                         && rows[i].at % 1000 == 0
                         && rows[i].id < rows[i - 1].id))
  {
    assert Newer(rows[i - 1], rows[i]);
    assert rows[i].at == 1000 * (rows[i].at / 1000) + rows[i].at % 1000;
    assert rows[i - 1].at == 1000 * (rows[i - 1].at / 1000) + rows[i - 1].at % 1000;
  }

  /** Two matches half a millisecond apart, one a page: the second page is empty. */
  lemma MicrosecondsLoseARow()
    ensures var rows := [Row(1000900, 2), Row(1000400, 1)];
            Descending(rows) && forall fuel :: fuel > 2 ==> Walk(rows, None, 1, fuel) != rows
  {
    var rows := [Row(1000900, 2), Row(1000400, 1)];
    HandsOverExactly(rows, 1);
    forall fuel: nat | fuel > 2
      ensures Walk(rows, None, 1, fuel) != rows
    {
      WalkExactly(rows, 1, fuel);
    }
  }
}

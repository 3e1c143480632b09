/**
 Snapshot keyset pagination (backend/src/controllers/indexerController.ts, `getBorrowerEvents`,
 `getLoanEvents`, `getRecentEvents`). A client follows `next_cursor` from page to page, echoing
 the `snapshot_seq` of the first response, while other writers append rows before any of the
 statements a request sends.
 */
module KeysetWalk {
  import opened Wrappers
  import opened EventQuery

  // ----- what the database does with a statement

  function Filter(rows: seq<Row>, p: Row -> bool): seq<Row> {
    if rows == [] then []
    else if p(rows[0]) then [rows[0]] + Filter(rows[1..], p)
    else Filter(rows[1..], p)
  }

  /** `a` comes strictly before `b` in ORDER BY created_at DESC, seq DESC. */
  predicate Precedes(a: Row, b: Row) {
    a.createdAt > b.createdAt || (a.createdAt == b.createdAt && a.seqNo > b.seqNo)
  }

  function InsertSorted(x: Row, rows: seq<Row>): seq<Row> {
    if rows == [] then [x]
    else if Precedes(rows[0], x) then [rows[0]] + InsertSorted(x, rows[1..])
    else [x] + rows
  }

  /** ORDER BY created_at DESC, seq DESC */
  function OrderRows(rows: seq<Row>): seq<Row> {
    if rows == [] then [] else InsertSorted(rows[0], OrderRows(rows[1..]))
  }

  function Take(rows: seq<Row>, n: int): seq<Row> {
    if n <= 0 then [] else if n <= |rows| then rows[..n] else rows
  }

  /** SELECT MAX(seq), or 0 on an empty table. */
  function MaxSeq(rows: seq<Row>): int {
    if rows == [] then 0
    else if |rows| == 1 then rows[0].seqNo
    else
      var m := MaxSeq(rows[1..]);
      if rows[0].seqNo > m then rows[0].seqNo else m
  }

  /** No row of the table has a larger sequence number, and one has this one; an empty table gives 0. */
  ghost predicate IsLargestSeq(rows: seq<Row>, n: int) {
    && (forall i :: 0 <= i < |rows| ==> rows[i].seqNo <= n)
    && (if rows == [] then n == 0 else exists i :: 0 <= i < |rows| && rows[i].seqNo == n)
  }

  lemma {:induction false} MaxSeqIsLargest(rows: seq<Row>)
    ensures IsLargestSeq(rows, MaxSeq(rows))
  {
    if |rows| <= 1 {
    } else {
      var rest := rows[1..];
      MaxSeqIsLargest(rest);
      assert forall i :: 0 <= i < |rest| ==> rest[i] == rows[i + 1];
      var j :| 0 <= j < |rest| && rest[j].seqNo == MaxSeq(rest);
      assert rows[j + 1].seqNo == MaxSeq(rest);
    }
  }

  function RunPage(table: seq<Row>, q: PageQuery): seq<Row> {
    match Argument(q.params, q.limit)
    case Some(Whole(n)) =>
      Take(OrderRows(Filter(table, row => Satisfies(q.clause, q.params, row) == Some(true))), n)
    case _ => []
  }

  function RunCount(table: seq<Row>, s: Statement): nat {
    |Filter(table, row => Satisfies(s.clause, s.params, row) == Some(true))|
  }

  // ----- one request

  datatype Request = Request(base: Base, filters: Filters)

  /** The fields of a response body; a missing cursor is the end of the list. */
  datatype Response = Response(items: seq<Row>, nextCursor: Option<Cursor>, snapshot: int, total: nat)

  /** A timestamp of whole microseconds, as the column holds it, cut to the milliseconds of a JavaScript date. */
  function Millis(t: int): int {
    t - t % 1000
  }

  /** The cursor that continues after `row`. */
  function KeyOf(row: Row): Cursor {
    Cursor(Millis(row.createdAt), row.seqNo)
  }

  /** The snapshot's rows in order: what a complete walk has to return. */
  function Snapshot(table: seq<Row>, q: Request, snapshot: int): seq<Row> {
    OrderRows(Filter(table, row => InSnapshot(q.base, q.filters, snapshot, row)))
  }

  function PageRows(table: seq<Row>, q: Request, snapshot: int, cursor: Option<Cursor>): seq<Row> {
    OrderRows(Filter(table, row => OnPage(q.base, q.filters, snapshot, cursor, row)))
  }

  /** The response when the pinning, page and count statements find the tables `pinned`, `paged` and `counted`. */
  function Respond(pinned: seq<Row>, paged: seq<Row>, counted: seq<Row>, q: Request,
                   snapshotParam: int, cursor: Option<Cursor>, limit: nat): Response
  {
    var snapshot := if snapshotParam == 0 then MaxSeq(pinned) else snapshotParam;
    var rows := Take(PageRows(paged, q, snapshot, cursor), limit + 1);
    var hasNext := |rows| > limit;
    var items := if hasNext then rows[..limit] else rows;
    var nextCursor := if hasNext && |items| > 0 then Some(KeyOf(items[|items| - 1])) else None;
    Response(items, nextCursor, snapshot, |Snapshot(counted, q, snapshot)|)
  }

  method GetEvents(pinned: seq<Row>, paged: seq<Row>, counted: seq<Row>, q: Request,
                   snapshotParam: int, cursor: Option<Cursor>, limit: nat)
    returns (r: Response)
    ensures r == Respond(pinned, paged, counted, q, snapshotParam, cursor, limit)
    ensures if snapshotParam == 0 then IsLargestSeq(pinned, r.snapshot) else r.snapshot == snapshotParam
  {
    MaxSeqIsLargest(pinned);
    hide RunPage, RunCount, PageRows, Snapshot, Satisfies, OnPage, InSnapshot, Argument, Placeholders, Numbered;
    var snapshot := snapshotParam;
    if snapshot == 0 {
      snapshot := MaxSeq(pinned);
    }
    var page, count := BuildQueries(q.base, q.filters, snapshot, cursor, limit);
    PageStatement(paged, page, q, snapshot, cursor, limit);
    CountStatement(counted, count, q, snapshot);
    var rows := RunPage(paged, page);
    var hasNext := |rows| > limit;
    var events := if hasNext then rows[..limit] else rows;
    var nextCursor: Option<Cursor> := None;
    if hasNext && |events| > 0 {
      nextCursor := Some(KeyOf(events[|events| - 1]));
    }
    var total := RunCount(counted, count);
    r := Response(events, nextCursor, snapshot, total);
  }

  lemma {:induction false} PageStatement(table: seq<Row>, page: PageQuery, q: Request, snapshot: int,
                                         cursor: Option<Cursor>, limit: nat)
    requires Argument(page.params, page.limit) == Some(Whole(limit + 1))
    requires forall row :: Satisfies(page.clause, page.params, row) == Some(OnPage(q.base, q.filters, snapshot, cursor, row))
    ensures RunPage(table, page) == Take(PageRows(table, q, snapshot, cursor), limit + 1)
  {
    hide Satisfies, OnPage;
    FilterSame(table, row => Satisfies(page.clause, page.params, row) == Some(true),
               row => OnPage(q.base, q.filters, snapshot, cursor, row));
  }

  lemma {:induction false} CountStatement(table: seq<Row>, count: Statement, q: Request, snapshot: int)
    requires forall row :: Satisfies(count.clause, count.params, row) == Some(InSnapshot(q.base, q.filters, snapshot, row))
    ensures RunCount(table, count) == |Snapshot(table, q, snapshot)|
  {
    hide Satisfies, InSnapshot;
    FilterSame(table, row => Satisfies(count.clause, count.params, row) == Some(true),
               row => InSnapshot(q.base, q.filters, snapshot, row));
    OrderLength(Filter(table, row => InSnapshot(q.base, q.filters, snapshot, row)));
  }

  // ----- filtering and ordering

  lemma {:induction false} FilterSame(rows: seq<Row>, p: Row -> bool, p': Row -> bool)
    requires forall row :: p(row) == p'(row)
    ensures Filter(rows, p) == Filter(rows, p')
  {
    if rows == [] {
    } else {
      FilterSame(rows[1..], p, p');
    }
  }

  lemma {:induction false} FilterSameOn(rows: seq<Row>, p: Row -> bool, p': Row -> bool)
    requires forall i :: 0 <= i < |rows| ==> p(rows[i]) == p'(rows[i])
    ensures Filter(rows, p) == Filter(rows, p')
  {
    if rows == [] {
    } else {
      assert forall i :: 0 <= i < |rows[1..]| ==> rows[1..][i] == rows[i + 1];
      FilterSameOn(rows[1..], p, p');
    }
  }

  lemma {:induction false} FilterHead(rows: seq<Row>, p: Row -> bool)
    requires rows != []
    ensures Filter(rows, p) == (if p(rows[0]) then [rows[0]] else []) + Filter(rows[1..], p)
  {
  }

  lemma {:induction false} FilterAppend(a: seq<Row>, b: seq<Row>, p: Row -> bool)
    ensures Filter(a + b, p) == Filter(a, p) + Filter(b, p)
  {
    if a == [] {
      assert a + b == b;
    } else {
      FilterHead(a, p);
      FilterHead(a + b, p);
      hide Filter;
      FilterAppend(a[1..], b, p);
      assert (a + b)[1..] == a[1..] + b && (a + b)[0] == a[0];
    }
  }

  lemma {:induction false} FilterNone(rows: seq<Row>, p: Row -> bool)
    requires forall i :: 0 <= i < |rows| ==> !p(rows[i])
    ensures Filter(rows, p) == []
  {
    if rows == [] {
    } else {
      FilterNone(rows[1..], p);
    }
  }

  lemma {:induction false} FilterAll(rows: seq<Row>, p: Row -> bool)
    requires forall i :: 0 <= i < |rows| ==> p(rows[i])
    ensures Filter(rows, p) == rows
  {
    if rows == [] {
    } else {
      FilterAll(rows[1..], p);
    }
  }

  lemma {:induction false} FilterBoth(rows: seq<Row>, p: Row -> bool, p': Row -> bool, both: Row -> bool)
    requires forall row :: both(row) == (p(row) && p'(row))
    ensures Filter(rows, both) == Filter(Filter(rows, p), p')
  {
    if rows == [] {
    } else {
      FilterBoth(rows[1..], p, p', both);
      assert [rows[0]][1..] == [];
    }
  }

  lemma {:induction false} InsertLength(x: Row, rows: seq<Row>)
    ensures |InsertSorted(x, rows)| == |rows| + 1
    ensures multiset(InsertSorted(x, rows)) == multiset(rows) + multiset{x}
  {
    if rows != [] && Precedes(rows[0], x) {
      InsertLength(x, rows[1..]);
      assert rows == [rows[0]] + rows[1..];
    }
  }

  lemma {:induction false} OrderLength(rows: seq<Row>)
    ensures |OrderRows(rows)| == |rows|
    ensures multiset(OrderRows(rows)) == multiset(rows)
  {
    hide InsertSorted;
    if rows == [] {
    } else {
      OrderLength(rows[1..]);
      InsertLength(rows[0], OrderRows(rows[1..]));
      assert rows == [rows[0]] + rows[1..];
    }
  }

  /** No row is preceded by a later one. */
  predicate Ordered(rows: seq<Row>) {
    forall i, j :: 0 <= i < j < |rows| ==> !Precedes(rows[j], rows[i])
  }

  /** Ordered with distinct keys. */
  predicate StrictlyOrdered(rows: seq<Row>) {
    forall i, j :: 0 <= i < j < |rows| ==> Precedes(rows[i], rows[j])
  }

  lemma {:induction false} InsertOrdered(x: Row, rows: seq<Row>)
    requires Ordered(rows)
    ensures Ordered(InsertSorted(x, rows))
  {
    if rows != [] && Precedes(rows[0], x) {
      InsertOrdered(x, rows[1..]);
      InsertMembers(x, rows[1..]);
      var s := InsertSorted(x, rows[1..]);
      assert forall j :: 0 <= j < |s| ==> s[j] == x || s[j] in rows[1..];
    }
  }

  lemma {:induction false} InsertMembers(x: Row, rows: seq<Row>)
    ensures forall r :: r in InsertSorted(x, rows) <==> r == x || r in rows
  {
    if rows != [] && Precedes(rows[0], x) {
      InsertMembers(x, rows[1..]);
    }
  }

  lemma {:induction false} OrderOrdered(rows: seq<Row>)
    ensures Ordered(OrderRows(rows))
  {
    if rows == [] {
    } else {
      OrderOrdered(rows[1..]);
      InsertOrdered(rows[0], OrderRows(rows[1..]));
    }
  }

  /** Filtering before or after ordering is the same. */
  lemma {:induction false} FilterInsert(x: Row, rows: seq<Row>, p: Row -> bool)
    requires Ordered(rows)
    ensures Filter(InsertSorted(x, rows), p) == if p(x) then InsertSorted(x, Filter(rows, p)) else Filter(rows, p)
  {
    if rows == [] {
    } else {
      if Precedes(rows[0], x) {
        FilterInsert(x, rows[1..], p);
      } else if p(x) {
        FilterNotBefore(x, rows, p);
      }
    }
  }

  lemma {:induction false} FilterNotBefore(x: Row, rows: seq<Row>, p: Row -> bool)
    requires Ordered(rows) && (rows != [] ==> !Precedes(rows[0], x))
    ensures InsertSorted(x, Filter(rows, p)) == [x] + Filter(rows, p)
  {
    if rows != [] && !p(rows[0]) {
      assert rows[1..] != [] ==> !Precedes(rows[1], rows[0]);
      FilterNotBefore(x, rows[1..], p);
    }
  }

  lemma {:induction false} FilterOrder(rows: seq<Row>, p: Row -> bool)
    ensures OrderRows(Filter(rows, p)) == Filter(OrderRows(rows), p)
  {
    if rows == [] {
    } else {
      FilterOrder(rows[1..], p);
      OrderOrdered(rows[1..]);
      FilterInsert(rows[0], OrderRows(rows[1..]), p);
      assert p(rows[0]) ==> Filter(rows, p)[1..] == Filter(rows[1..], p);
    }
  }

  // ----- a page is a slice of the snapshot

  /** Rows above the snapshot change neither its rows nor any of its pages. */
  lemma {:induction false} LaterRowsInvisible(table: seq<Row>, more: seq<Row>, q: Request, snapshot: int)
    requires forall i :: 0 <= i < |more| ==> more[i].seqNo > snapshot
    ensures Snapshot(table + more, q, snapshot) == Snapshot(table, q, snapshot)
  {
    var p := row => InSnapshot(q.base, q.filters, snapshot, row);
    FilterAppend(table, more, p);
    FilterNone(more, p);
    assert Filter(table, p) + [] == Filter(table, p);
  }

  lemma {:induction false} FirstPage(table: seq<Row>, q: Request, snapshot: int)
    ensures PageRows(table, q, snapshot, None) == Snapshot(table, q, snapshot)
  {
    FilterSame(table, row => OnPage(q.base, q.filters, snapshot, None, row),
               row => InSnapshot(q.base, q.filters, snapshot, row));
  }

  /** The cursor of `a` lets `b` through. */
  predicate Follows(a: Row, b: Row) {
    PastCursor(KeyOf(a), b)
  }

  /** Two rows are tied when neither one's cursor lets the other through. */
  predicate Apart(a: Row, b: Row) {
    Follows(a, b) || Follows(b, a)
  }

  /** Rows are apart in different milliseconds, and in the same one if the lower sequence number is at its very start. */
  lemma {:induction false} ApartIff(a: Row, b: Row)
    ensures Apart(a, b)
       <==> || Millis(a.createdAt) != Millis(b.createdAt)
            || (a.seqNo < b.seqNo && a.createdAt == Millis(a.createdAt))
            || (b.seqNo < a.seqNo && b.createdAt == Millis(b.createdAt))
  {
    assert Millis(a.createdAt) <= a.createdAt && Millis(b.createdAt) <= b.createdAt;
    assert a.createdAt < Millis(b.createdAt) <==> Millis(a.createdAt) < Millis(b.createdAt);
    assert b.createdAt < Millis(a.createdAt) <==> Millis(b.createdAt) < Millis(a.createdAt);
  }

  /** Being let through is stricter than coming later, and both compose. */
  lemma {:induction false} FollowsFacts(a: Row, b: Row, c: Row)
    ensures Follows(a, b) ==> Precedes(a, b)
    ensures Follows(a, b) && !Precedes(c, b) ==> Follows(a, c)
    ensures Follows(a, b) && Follows(b, c) ==> Follows(a, c)
    ensures Apart(a, b) && !Precedes(b, a) ==> Follows(a, b)
  {
    assert Millis(a.createdAt) <= a.createdAt && Millis(b.createdAt) <= b.createdAt;
    assert b.createdAt < a.createdAt ==> Millis(b.createdAt) <= Millis(a.createdAt);
  }

  /** No tie is split at position n. */
  predicate Untied(s: seq<Row>, n: nat) {
    0 < n < |s| ==> Follows(s[n - 1], s[n])
  }

  /** Past the cursor of row n - 1 lie exactly the rows from n on, when no tie is split there. */
  lemma {:induction false} LaterPage(table: seq<Row>, q: Request, snapshot: int, n: nat)
    requires var s := Snapshot(table, q, snapshot); 0 < n <= |s| && Untied(s, n)
    ensures var s := Snapshot(table, q, snapshot);
            PageRows(table, q, snapshot, Some(KeyOf(s[n - 1]))) == s[n..]
  {
    var s := Snapshot(table, q, snapshot);
    var cursor := KeyOf(s[n - 1]);
    PastCursorPage(table, q, snapshot, cursor);
    OrderOrdered(Filter(table, row => InSnapshot(q.base, q.filters, snapshot, row)));
    var past := row => PastCursor(cursor, row);
    assert s == s[..n] + s[n..];
    FilterAppend(s[..n], s[n..], past);
    forall i | 0 <= i < n
      ensures !past(s[..n][i])
    {
      FollowsFacts(s[n - 1], s[i], s[i]);
      assert i < n - 1 ==> !Precedes(s[n - 1], s[i]);
    }
    FilterNone(s[..n], past);
    forall i | 0 <= i < |s[n..]|
      ensures past(s[n..][i])
    {
      FollowsFacts(s[n - 1], s[n], s[n + i]);
      assert i > 0 ==> !Precedes(s[n + i], s[n]);
    }
    FilterAll(s[n..], past);
  }

  /** A later page is the snapshot filtered by the cursor, distinct keys or not. */
  lemma {:induction false} PastCursorPage(table: seq<Row>, q: Request, snapshot: int, cursor: Cursor)
    ensures PageRows(table, q, snapshot, Some(cursor))
         == Filter(Snapshot(table, q, snapshot), row => PastCursor(cursor, row))
  {
    var inSnapshot := row => InSnapshot(q.base, q.filters, snapshot, row);
    var past := row => PastCursor(cursor, row);
    FilterBoth(table, inSnapshot, past, row => OnPage(q.base, q.filters, snapshot, Some(cursor), row));
    FilterOrder(Filter(table, inSnapshot), past);
  }

  // ----- the walk

  /** One turn: the rows other writers append before each of the request's statements, and the page size. */
  datatype Turn = Turn(beforePin: seq<Row>, beforePage: seq<Row>, beforeCount: seq<Row>, limit: nat)

  /** The table, and the client: what it echoes, what it has collected, and the totals it was told. */
  datatype Walk = Walk(table: seq<Row>, snapshot: int, cursor: Option<Cursor>,
                       collected: seq<Row>, totals: seq<nat>, finished: bool)

  function Start(table: seq<Row>): Walk {
    Walk(table, 0, None, [], [], false)
  }

  function Pinned(w: Walk, t: Turn): seq<Row> {
    w.table + t.beforePin
  }

  function Advance(w: Walk, t: Turn, q: Request): Walk {
    if w.finished then w
    else
      var pinned := Pinned(w, t);
      var paged := pinned + t.beforePage;
      var counted := paged + t.beforeCount;
      var r := Respond(pinned, paged, counted, q, w.snapshot, w.cursor, t.limit);
      Walk(counted, r.snapshot, r.nextCursor, w.collected + r.items, w.totals + [r.total], r.nextCursor.None?)
  }

  function Run(w: Walk, turns: seq<Turn>, q: Request): Walk
    decreases turns
  {
    if turns == [] then w else Run(Advance(w, turns[0], q), turns[1..], q)
  }

  predicate AllAbove(rows: seq<Row>, seqNo: int) {
    forall i :: 0 <= i < |rows| ==> rows[i].seqNo > seqNo
  }

  /** Rows are appended with sequence numbers above the snapshot in force, and pages hold at least one row. */
  predicate LegalTurn(t: Turn, snapshot: int) {
    t.limit >= 1 && AllAbove(t.beforePage, snapshot) && AllAbove(t.beforeCount, snapshot)
  }

  predicate LaterTurns(turns: seq<Turn>, snapshot: int) {
    forall i :: 0 <= i < |turns| ==> LegalTurn(turns[i], snapshot) && AllAbove(turns[i].beforePin, snapshot)
  }

  function Limits(turns: seq<Turn>): nat {
    if turns == [] then 0 else turns[0].limit + Limits(turns[1..])
  }

  function Min(a: int, b: int): int {
    if a <= b then a else b
  }

  /** The client holds the first n rows of the snapshot `s`, and knows how to go on or that it is done. */
  ghost predicate Midway(w: Walk, q: Request, snapshot: int, s: seq<Row>) {
    var n := |w.collected|;
    && w.snapshot == snapshot
    && Snapshot(w.table, q, snapshot) == s
    && n <= |s| && w.collected == s[..n]
    && (w.finished ==> n == |s|)
    && (!w.finished ==> 0 < n < |s| && w.cursor == Some(KeyOf(s[n - 1])))
    && forall i :: 0 <= i < |w.totals| ==> w.totals[i] == |s|
  }

  lemma {:induction false} SnapshotOfTurn(w: Walk, t: Turn, q: Request, snapshot: int)
    requires LegalTurn(t, snapshot)
    ensures Snapshot(Pinned(w, t) + t.beforePage, q, snapshot) == Snapshot(Pinned(w, t), q, snapshot)
    ensures Snapshot(Pinned(w, t) + t.beforePage + t.beforeCount, q, snapshot) == Snapshot(Pinned(w, t), q, snapshot)
  {
    LaterRowsInvisible(Pinned(w, t), t.beforePage, q, snapshot);
    LaterRowsInvisible(Pinned(w, t) + t.beforePage, t.beforeCount, q, snapshot);
  }

  /** A request that finds the rows of `s` from n on hands over the next min(limit, |s| - n) of them. */
  lemma {:induction false} Hand(pinned: seq<Row>, paged: seq<Row>, counted: seq<Row>, q: Request, param: int, snapshot: int,
                                cursor: Option<Cursor>, limit: nat, s: seq<Row>, n: nat)
    requires limit >= 1 && snapshot == (if param == 0 then MaxSeq(pinned) else param)
    requires n <= |s| && PageRows(paged, q, snapshot, cursor) == s[n..] && Snapshot(counted, q, snapshot) == s
    ensures var r := Respond(pinned, paged, counted, q, param, cursor, limit);
            var m := Min(n + limit, |s|);
            r == Response(s[n..m], if m < |s| then Some(KeyOf(s[m - 1])) else None, snapshot, |s|)
  {
    hide PageRows, Snapshot, MaxSeq, Millis;
    var rows := Take(s[n..], limit + 1);
    if |rows| > limit {
      assert rows[..limit] == s[n..n + limit];
      assert rows[..limit][limit - 1] == s[n + limit - 1];
    } else {
      assert rows == s[n..];
    }
  }

  /** A turn that finds the rows of `s` from the collected ones on collects the next min(limit, |s| - n) of them. */
  lemma {:induction false} Collects(w: Walk, t: Turn, q: Request, snapshot: int, s: seq<Row>, pinned: seq<Row>,
                                    paged: seq<Row>, counted: seq<Row>)
    requires !w.finished && t.limit >= 1 && |w.collected| <= |s| && w.collected == s[..|w.collected|]
    requires pinned == Pinned(w, t) && paged == pinned + t.beforePage && counted == paged + t.beforeCount
    requires snapshot == (if w.snapshot == 0 then MaxSeq(pinned) else w.snapshot)
    requires PageRows(paged, q, snapshot, w.cursor) == s[|w.collected|..] && Snapshot(counted, q, snapshot) == s
    requires forall i :: 0 <= i < |w.totals| ==> w.totals[i] == |s|
    ensures var w' := Advance(w, t, q);
            && Midway(w', q, snapshot, s)
            && |w'.collected| == Min(|w.collected| + t.limit, |s|)
            && (w'.finished <==> |w.collected| + t.limit >= |s|)
  {
    hide Snapshot, PageRows, Advance, MaxSeq, Millis, Pinned;
    var n := |w.collected|;
    var m := Min(n + t.limit, |s|);
    HandedOver(w, t, q, snapshot, s, pinned, paged, counted);
    SliceJoin(s, n, m);
  }

  lemma {:induction false} HandedOver(w: Walk, t: Turn, q: Request, snapshot: int, s: seq<Row>, pinned: seq<Row>,
                                      paged: seq<Row>, counted: seq<Row>)
    requires !w.finished && t.limit >= 1 && |w.collected| <= |s|
    requires pinned == Pinned(w, t) && paged == pinned + t.beforePage && counted == paged + t.beforeCount
    requires snapshot == (if w.snapshot == 0 then MaxSeq(pinned) else w.snapshot)
    requires PageRows(paged, q, snapshot, w.cursor) == s[|w.collected|..] && Snapshot(counted, q, snapshot) == s
    ensures var m := Min(|w.collected| + t.limit, |s|);
            Advance(w, t, q) == Walk(counted, snapshot, if m < |s| then Some(KeyOf(s[m - 1])) else None,
                                     w.collected + s[|w.collected|..m], w.totals + [|s|], m == |s|)
  {
    Hand(pinned, paged, counted, q, w.snapshot, snapshot, w.cursor, t.limit, s, |w.collected|);
    hide Snapshot, PageRows, Respond, MaxSeq, KeyOf;
  }

  /** The first turn pins the snapshot and collects the first page. */
  lemma {:induction false} FirstTurn(table: seq<Row>, t: Turn, q: Request)
    requires LegalTurn(t, MaxSeq(Pinned(Start(table), t)))
    ensures var pinned := Pinned(Start(table), t);
            var s := Snapshot(pinned, q, MaxSeq(pinned));
            var w := Advance(Start(table), t, q);
            && Midway(w, q, MaxSeq(pinned), s)
            && |w.collected| == Min(t.limit, |s|)
            && (w.finished <==> t.limit >= |s|)
  {
    var pinned := Pinned(Start(table), t);
    var snapshot := MaxSeq(pinned);
    var s := Snapshot(pinned, q, snapshot);
    var paged := pinned + t.beforePage;
    SnapshotOfTurn(Start(table), t, q, snapshot);
    FirstPage(paged, q, snapshot);
    assert s[0..] == s;
    hide Snapshot, PageRows, MaxSeq, Midway, Advance, LegalTurn;
    Collects(Start(table), t, q, snapshot, s, pinned, paged, paged + t.beforeCount);
  }

  /** Every later turn collects the next page of the same snapshot. */
  lemma {:induction false} NextTurn(w: Walk, t: Turn, q: Request, snapshot: int, s: seq<Row>)
    requires Midway(w, q, snapshot, s) && Untied(s, |w.collected|) && snapshot != 0
    requires LegalTurn(t, snapshot) && AllAbove(t.beforePin, snapshot)
    ensures var w' := Advance(w, t, q);
            && Midway(w', q, snapshot, s)
            && |w'.collected| == Min(|w.collected| + t.limit, |s|)
            && (w'.finished <==> |w.collected| + t.limit >= |s|)
  {
    if !w.finished {
      var n := |w.collected|;
      var pinned := Pinned(w, t);
      var paged := pinned + t.beforePage;
      NextTables(w, t, q, snapshot, s);
      hide Snapshot, PageRows, Advance, Untied, MaxSeq, AllAbove;
      Collects(w, t, q, snapshot, s, pinned, paged, paged + t.beforeCount);
    }
  }

  lemma {:induction false} SliceJoin(s: seq<Row>, n: nat, m: nat)
    requires n <= m <= |s|
    ensures s[..n] + s[n..m] == s[..m]
  {
  }

  lemma {:induction false} NextTables(w: Walk, t: Turn, q: Request, snapshot: int, s: seq<Row>)
    requires Midway(w, q, snapshot, s) && Untied(s, |w.collected|) && !w.finished
    requires LegalTurn(t, snapshot) && AllAbove(t.beforePin, snapshot)
    ensures PageRows(Pinned(w, t) + t.beforePage, q, snapshot, w.cursor) == s[|w.collected|..]
    ensures Snapshot(Pinned(w, t) + t.beforePage + t.beforeCount, q, snapshot) == s
  {
    hide Snapshot, PageRows, Untied;
    LaterRowsInvisible(w.table, t.beforePin, q, snapshot);
    SnapshotOfTurn(w, t, q, snapshot);
    LaterPage(Pinned(w, t) + t.beforePage, q, snapshot, |w.collected|);
  }

  /** With the first page starting at row n, no page starts between two rows with the same key. */
  predicate PageEndsUntied(s: seq<Row>, n: nat, turns: seq<Turn>)
    decreases turns
  {
    turns != [] ==> Untied(s, n) && PageEndsUntied(s, n + turns[0].limit, turns[1..])
  }

  lemma {:induction false} UntiedPastEnd(s: seq<Row>, n: nat, turns: seq<Turn>)
    requires n >= |s|
    ensures PageEndsUntied(s, n, turns)
    decreases turns
  {
    if turns == [] {
    } else {
      UntiedPastEnd(s, n + turns[0].limit, turns[1..]);
    }
  }

  /** Every row's cursor lets all the later rows through. */
  predicate CursorOrdered(s: seq<Row>) {
    forall i, j :: 0 <= i < j < |s| ==> Follows(s[i], s[j])
  }

  lemma {:induction false} CursorOrderedIsStrict(s: seq<Row>)
    requires CursorOrdered(s)
    ensures StrictlyOrdered(s)
  {
    forall i, j | 0 <= i < j < |s| ensures Precedes(s[i], s[j]) {
      FollowsFacts(s[i], s[j], s[j]);
    }
  }

  lemma {:induction false} CursorOrderedIsUntied(s: seq<Row>, n: nat, turns: seq<Turn>)
    requires CursorOrdered(s)
    ensures PageEndsUntied(s, n, turns)
    decreases turns
  {
    if turns == [] {
    } else {
      assert 0 < n < |s| ==> Follows(s[n - 1], s[n]);
      CursorOrderedIsUntied(s, n + turns[0].limit, turns[1..]);
    }
  }

  lemma {:induction false} LaterTurnsCollect(w: Walk, turns: seq<Turn>, q: Request, snapshot: int, s: seq<Row>)
    requires Midway(w, q, snapshot, s) && PageEndsUntied(s, |w.collected|, turns) && snapshot != 0
    requires LaterTurns(turns, snapshot)
    ensures var w' := Run(w, turns, q);
            && Midway(w', q, snapshot, s)
            && |w'.collected| == Min(|w.collected| + Limits(turns), |s|)
            && (turns != [] ==> (w'.finished <==> |w.collected| + Limits(turns) >= |s|))
    decreases turns
  {
    hide Midway, Untied, Advance, LegalTurn;
    MidwayBounds(w, q, snapshot, s);
    if turns == [] {
      assert Limits(turns) == 0 && Run(w, turns, q) == w;
    } else {
      var next := Advance(w, turns[0], q);
      NextTurn(w, turns[0], q, snapshot, s);
      MidwayBounds(next, q, snapshot, s);
      if |w.collected| + turns[0].limit > |s| {
        UntiedPastEnd(s, |s|, turns[1..]);
      }
      LaterTurnsCollect(next, turns[1..], q, snapshot, s);
      assert Run(w, turns, q) == Run(next, turns[1..], q);
      assert Limits(turns) == turns[0].limit + Limits(turns[1..]);
      if turns[1..] == [] {
        assert Limits(turns[1..]) == 0 && Run(next, turns[1..], q) == next;
      }
    }
  }

  lemma {:induction false} MidwayBounds(w: Walk, q: Request, snapshot: int, s: seq<Row>)
    requires Midway(w, q, snapshot, s)
    ensures |w.collected| <= |s| && (w.finished ==> |w.collected| == |s|)
  {
  }

  // ----- main results

  /** No two rows are tied. */
  predicate AllApart(rows: seq<Row>) {
    forall i, j :: 0 <= i < j < |rows| ==> Apart(rows[i], rows[j])
  }

  lemma {:induction false} InsertApart(x: Row, rows: seq<Row>)
    requires CursorOrdered(rows) && forall r :: r in rows ==> Apart(r, x)
    ensures CursorOrdered(InsertSorted(x, rows))
  {
    if rows == [] {
    } else {
      assert rows[0] in rows;
      FollowsFacts(rows[0], x, x);
      FollowsFacts(x, rows[0], x);
      if Precedes(rows[0], x) {
        InsertApart(x, rows[1..]);
        InsertMembers(x, rows[1..]);
        var s := InsertSorted(x, rows[1..]);
        hide Follows, InsertSorted, Apart;
        assert forall j :: 0 <= j < |s| ==> s[j] == x || s[j] in rows[1..];
      } else {
        forall j | 0 <= j < |rows| ensures Follows(x, rows[j]) {
          FollowsFacts(x, rows[0], rows[j]);
        }
      }
    }
  }

  lemma {:induction false} OrderMembers(rows: seq<Row>)
    ensures forall r :: r in OrderRows(rows) <==> r in rows
  {
    if rows == [] {
    } else {
      OrderMembers(rows[1..]);
      InsertMembers(rows[0], OrderRows(rows[1..]));
    }
  }

  lemma {:induction false} ApartOrder(rows: seq<Row>)
    requires AllApart(rows)
    ensures CursorOrdered(OrderRows(rows))
  {
    if rows == [] {
    } else {
      ApartOrder(rows[1..]);
      OrderMembers(rows[1..]);
      forall r | r in OrderRows(rows[1..]) ensures Apart(r, rows[0]) {
        assert r in rows[1..];
        var j :| 0 <= j < |rows[1..]| && rows[1..][j] == r;
        assert Apart(rows[0], rows[j + 1]);
      }
      hide Apart, Follows;
      InsertApart(rows[0], OrderRows(rows[1..]));
    }
  }

  predicate PositiveSeqs(rows: seq<Row>) {
    forall i :: 0 <= i < |rows| ==> rows[i].seqNo >= 1
  }

  lemma {:induction false} RunFinished(w: Walk, turns: seq<Turn>, q: Request)
    requires w.finished
    ensures Run(w, turns, q) == w
  {
    if turns == [] {
    } else {
      RunFinished(w, turns[1..], q);
    }
  }

  /** What a request asks for, with no snapshot. */
  predicate Requested(q: Request, row: Row) {
    BaseHolds(q.base, row) && FiltersHold(q.filters, row)
  }

  /** The rows of the table that a request asks for. */
  function Matching(table: seq<Row>, q: Request): seq<Row> {
    Filter(table, row => Requested(q, row))
  }

  /** A walk that other writers may interleave with at any statement, under the stated assumptions. */
  ghost predicate LegalWalk(table: seq<Row>, turns: seq<Turn>, q: Request) {
    LegalTurns(table, turns) && AllApart(Matching(Pinned(Start(table), turns[0]), q))
  }

  /** Rows that were appended after all of `pinned`. */
  predicate Appended(rows: seq<Row>, pinned: seq<Row>) {
    && PositiveSeqs(rows)
    && forall i, j :: 0 <= i < |rows| && 0 <= j < |pinned| ==> rows[i].seqNo > pinned[j].seqNo
  }

  /** The same walk over a table in which keys may repeat. */
  ghost predicate LegalTurns(table: seq<Row>, turns: seq<Turn>) {
    && turns != []
    && var pinned := Pinned(Start(table), turns[0]);
    && PositiveSeqs(pinned)
    && forall i :: 0 <= i < |turns| ==>
         && turns[i].limit >= 1
         && Appended(turns[i].beforePage, pinned)
         && Appended(turns[i].beforeCount, pinned)
         && (i > 0 ==> Appended(turns[i].beforePin, pinned))
  }

  lemma {:induction false} AppendedIsAbove(rows: seq<Row>, pinned: seq<Row>)
    requires Appended(rows, pinned)
    ensures AllAbove(rows, MaxSeq(pinned))
  {
    MaxSeqIsLargest(pinned);
  }

  /** The snapshot that the first turn pins bounds exactly the rows that were there. */
  lemma {:induction false} PinnedBound(table: seq<Row>, turns: seq<Turn>, q: Request)
    requires LegalTurns(table, turns)
    ensures var pinned := Pinned(Start(table), turns[0]);
            && LegalTurn(turns[0], MaxSeq(pinned))
            && LaterTurns(turns[1..], MaxSeq(pinned))
            && Snapshot(pinned, q, MaxSeq(pinned)) == OrderRows(Matching(pinned, q))
            && (MaxSeq(pinned) == 0 ==> Matching(pinned, q) == [])
  {
    var pinned := Pinned(Start(table), turns[0]);
    MaxSeqIsLargest(pinned);
    FilterSameOn(pinned, row => InSnapshot(q.base, q.filters, MaxSeq(pinned), row), row => Requested(q, row));
    hide MaxSeq, InSnapshot, Requested, Filter, OrderRows;
    forall i | 0 <= i < |turns|
      ensures LegalTurn(turns[i], MaxSeq(pinned)) && (i > 0 ==> AllAbove(turns[i].beforePin, MaxSeq(pinned)))
    {
      AppendedIsAbove(turns[i].beforePage, pinned);
      AppendedIsAbove(turns[i].beforeCount, pinned);
      if i > 0 {
        AppendedIsAbove(turns[i].beforePin, pinned);
      }
    }
    assert forall i :: 0 <= i < |turns[1..]| ==> turns[1..][i] == turns[i + 1];
    assert MaxSeq(pinned) == 0 ==> pinned == [];
  }

  /**
   After any number of turns the client holds exactly the first rows of the pinned snapshot, as many
   as it asked for, when no page so far ended inside a tie.
   */
  lemma {:induction false} UntiedWalkCollectsPrefix(table: seq<Row>, turns: seq<Turn>, q: Request)
    requires LegalTurns(table, turns)
    requires PageEndsUntied(OrderRows(Matching(Pinned(Start(table), turns[0]), q)), 0, turns)
    ensures var s := OrderRows(Matching(Pinned(Start(table), turns[0]), q));
            var w := Run(Start(table), turns, q);
            && w.collected == s[..Min(Limits(turns), |s|)]
            && (w.finished <==> Limits(turns) >= |s|)
            && (forall i :: 0 <= i < |w.totals| ==> w.totals[i] == |s|)
  {
    var pinned := Pinned(Start(table), turns[0]);
    PinnedBound(table, turns, q);
    assert MaxSeq(pinned) == 0 ==> OrderRows(Matching(pinned, q)) == [];
    FirstTurn(table, turns[0], q);
    hide Snapshot, OrderRows, MaxSeq, Advance, PositiveSeqs, LegalTurn, Matching, Appended;
    AfterFirstTurn(Advance(Start(table), turns[0], q), turns, q, MaxSeq(pinned), Snapshot(pinned, q, MaxSeq(pinned)));
  }

  /** With no two rows tied that is so whatever the page sizes. */
  lemma {:induction false} WalkCollectsPrefix(table: seq<Row>, turns: seq<Turn>, q: Request)
    requires LegalWalk(table, turns, q)
    ensures var s := OrderRows(Matching(Pinned(Start(table), turns[0]), q));
            var w := Run(Start(table), turns, q);
            && w.collected == s[..Min(Limits(turns), |s|)]
            && (w.finished <==> Limits(turns) >= |s|)
            && (forall i :: 0 <= i < |w.totals| ==> w.totals[i] == |s|)
  {
    var rows := Matching(Pinned(Start(table), turns[0]), q);
    ApartOrder(rows);
    CursorOrderedIsUntied(OrderRows(rows), 0, turns);
    UntiedWalkCollectsPrefix(table, turns, q);
  }

  lemma {:induction false} AfterFirstTurn(w: Walk, turns: seq<Turn>, q: Request, snapshot: int, s: seq<Row>)
    requires turns != [] && Midway(w, q, snapshot, s) && PageEndsUntied(s, 0, turns)
    requires LaterTurns(turns[1..], snapshot) && (snapshot == 0 ==> s == [])
    requires |w.collected| == Min(turns[0].limit, |s|) && (w.finished <==> turns[0].limit >= |s|)
    ensures var w' := Run(w, turns[1..], q);
            && w'.collected == s[..Min(Limits(turns), |s|)]
            && (w'.finished <==> Limits(turns) >= |s|)
            && (forall i :: 0 <= i < |w'.totals| ==> w'.totals[i] == |s|)
  {
    hide Snapshot, Untied, LegalTurn;
    if w.finished {
      RunFinished(w, turns[1..], q);
    } else {
      LaterTurnsCollect(w, turns[1..], q, snapshot, s);
    }
  }

  /**
   A finished walk has returned every matching row of the snapshot exactly once, strictly descending,
   as many as the reported total.
   */
  lemma {:induction false} FinishedWalkIsComplete(table: seq<Row>, turns: seq<Turn>, q: Request)
    requires LegalWalk(table, turns, q) && Run(Start(table), turns, q).finished
    ensures var rows := Matching(Pinned(Start(table), turns[0]), q);
            var w := Run(Start(table), turns, q);
            && multiset(w.collected) == multiset(rows)
            && StrictlyOrdered(w.collected)
            && forall i :: 0 <= i < |w.totals| ==> w.totals[i] == |w.collected|
  {
    var rows := Matching(Pinned(Start(table), turns[0]), q);
    WalkCollectsPrefix(table, turns, q);
    ApartOrder(rows);
    CursorOrderedIsStrict(OrderRows(rows));
    OrderLength(rows);
    hide Run, OrderRows, StrictlyOrdered, LegalWalk, Matching;
    var s := OrderRows(rows);
    assert s[..|s|] == s;
  }

  // ----- a tie at a page end loses rows

  lemma {:induction false} FilterLength(rows: seq<Row>, p: Row -> bool)
    ensures |Filter(rows, p)| <= |rows|
  {
    if rows == [] {
    } else {
      FilterLength(rows[1..], p);
    }
  }

  function Past(cursor: Cursor): Row -> bool {
    row => PastCursor(cursor, row)
  }

  /** When the cursor of row m - 1 does not let row n - 1 through, no more than the rows from n on are past it. */
  lemma {:induction false} PastIsAfter(s: seq<Row>, m: nat, n: nat)
    requires Ordered(s) && 0 < m <= n <= |s| && !Follows(s[m - 1], s[n - 1])
    ensures |Filter(s, Past(KeyOf(s[m - 1])))| <= |s| - n
  {
    var past := Past(KeyOf(s[m - 1]));
    assert s == s[..n] + s[n..];
    FilterAppend(s[..n], s[n..], past);
    forall i | 0 <= i < n
      ensures !past(s[..n][i])
    {
      FollowsFacts(s[m - 1], s[i], s[n - 1]);
      assert i < n - 1 ==> !Precedes(s[n - 1], s[i]);
    }
    FilterNone(s[..n], past);
    FilterLength(s[n..], past);
  }

  /** How many rows of the snapshot a client may still be handed. */
  function Pending(w: Walk, s: seq<Row>): nat {
    if w.finished then 0
    else if w.cursor == None then |s|
    else |Filter(s, Past(w.cursor.value))|
  }

  ghost predicate Underway(w: Walk, q: Request, snapshot: int, s: seq<Row>) {
    w.snapshot == snapshot && Snapshot(w.table, q, snapshot) == s && (!w.finished ==> w.cursor.Some?)
  }

  /** Ties or not, what a turn hands over is no longer pending after it. */
  lemma {:induction false} PendingFalls(w: Walk, t: Turn, q: Request, snapshot: int, s: seq<Row>)
    requires Underway(w, q, snapshot, s) && snapshot != 0 && Ordered(s)
    requires LegalTurn(t, snapshot) && AllAbove(t.beforePin, snapshot)
    ensures var w' := Advance(w, t, q);
            && Underway(w', q, snapshot, s)
            && |w'.collected| + Pending(w', s) <= |w.collected| + Pending(w, s)
            && (!w'.finished ==> Pending(w', s) < Pending(w, s) && Pending(w, s) >= 2)
  {
    if !w.finished {
      PendingPage(w, t, q, snapshot, s);
      var page := PageRows(Pinned(w, t) + t.beforePage, q, snapshot, w.cursor);
      hide PageRows, Snapshot, MaxSeq, Ordered, Past, Filter;
      if |page| > t.limit {
        assert Take(page, t.limit + 1)[..t.limit] == page[..t.limit];
        NextPending(s, w.cursor.value, page, t.limit);
      } else {
        assert Take(page, t.limit + 1) == page;
      }
    }
  }

  lemma {:induction false} PendingPage(w: Walk, t: Turn, q: Request, snapshot: int, s: seq<Row>)
    requires Underway(w, q, snapshot, s) && !w.finished
    requires LegalTurn(t, snapshot) && AllAbove(t.beforePin, snapshot)
    ensures var page := PageRows(Pinned(w, t) + t.beforePage, q, snapshot, w.cursor);
            Ordered(page) && page == Filter(s, Past(w.cursor.value))
    ensures Snapshot(Pinned(w, t) + t.beforePage + t.beforeCount, q, snapshot) == s
  {
    var paged := Pinned(w, t) + t.beforePage;
    LaterRowsInvisible(w.table, t.beforePin, q, snapshot);
    SnapshotOfTurn(w, t, q, snapshot);
    PastCursorPage(paged, q, snapshot, w.cursor.value);
    OrderOrdered(Filter(paged, row => OnPage(q.base, q.filters, snapshot, w.cursor, row)));
    FilterSame(s, Past(w.cursor.value), row => PastCursor(w.cursor.value, row));
  }

  lemma {:induction false} NextPending(s: seq<Row>, cursor: Cursor, page: seq<Row>, limit: nat)
    requires Ordered(page) && page == Filter(s, Past(cursor)) && 1 <= limit < |page|
    ensures |Filter(s, Past(KeyOf(page[limit - 1])))| <= |page| - limit
  {
    var next := KeyOf(page[limit - 1]);
    FilterMembers(s, Past(cursor));
    assert Past(cursor)(page[limit - 1]) && Millis(page[limit - 1].createdAt) <= page[limit - 1].createdAt;
    FilterBoth(s, Past(cursor), Past(next), Past(next));
    PastIsAfter(page, limit, limit);
  }

  lemma {:induction false} RunPending(w: Walk, turns: seq<Turn>, q: Request, snapshot: int, s: seq<Row>)
    requires Underway(w, q, snapshot, s) && snapshot != 0 && Ordered(s) && LaterTurns(turns, snapshot)
    ensures |Run(w, turns, q).collected| <= |w.collected| + Pending(w, s)
    decreases turns
  {
    if turns == [] {
    } else {
      PendingFalls(w, turns[0], q, snapshot, s);
      hide Advance, Underway, Pending, LegalTurn, Ordered;
      RunPending(Advance(w, turns[0], q), turns[1..], q, snapshot, s);
    }
  }

  lemma {:induction false} FinishesWithin(w: Walk, turns: seq<Turn>, q: Request, snapshot: int, s: seq<Row>)
    requires Underway(w, q, snapshot, s) && snapshot != 0 && Ordered(s) && LaterTurns(turns, snapshot)
    requires |turns| >= 1 && |turns| >= Pending(w, s)
    ensures Run(w, turns, q).finished
    decreases turns
  {
    var next := Advance(w, turns[0], q);
    PendingFalls(w, turns[0], q, snapshot, s);
    hide Advance, Underway, Pending, LegalTurn, Ordered;
    if next.finished {
      RunFinished(next, turns[1..], q);
    } else {
      FinishesWithin(next, turns[1..], q, snapshot, s);
    }
  }

  /** Tied rows or not, every walk finishes within as many turns as there are rows (one, if there are none). */
  lemma {:induction false} WalkTerminates(table: seq<Row>, turns: seq<Turn>, q: Request)
    requires LegalTurns(table, turns)
    requires |turns| >= |Matching(Pinned(Start(table), turns[0]), q)|
    ensures Run(Start(table), turns, q).finished
  {
    var pinned := Pinned(Start(table), turns[0]);
    var s := OrderRows(Matching(pinned, q));
    var first := Advance(Start(table), turns[0], q);
    PinnedBound(table, turns, q);
    OrderOrdered(Matching(pinned, q));
    OrderLength(Matching(pinned, q));
    FirstTurn(table, turns[0], q);
    assert MaxSeq(pinned) == 0 ==> s == [];
    hide Snapshot, OrderRows, MaxSeq, Advance, PositiveSeqs, LegalTurn, LegalTurns, Matching, Appended, Ordered;
    FinishesAfter(first, turns, q, MaxSeq(pinned), s);
  }

  lemma {:induction false} FinishesAfter(w: Walk, turns: seq<Turn>, q: Request, snapshot: int, s: seq<Row>)
    requires turns != [] && |turns| >= |s| && Ordered(s) && (snapshot == 0 ==> s == [])
    requires Midway(w, q, snapshot, s) && |w.collected| == Min(turns[0].limit, |s|)
    requires w.finished <==> turns[0].limit >= |s|
    requires LaterTurns(turns[1..], snapshot)
    ensures Run(w, turns[1..], q).finished
  {
    hide Snapshot, LaterTurns, Ordered;
    if w.finished {
      RunFinished(w, turns[1..], q);
    } else {
      PastIsAfter(s, |w.collected|, |w.collected|);
      FinishesWithin(w, turns[1..], q, snapshot, s);
    }
  }

  lemma {:induction false} TieHereLoses(w: Walk, turns: seq<Turn>, q: Request, snapshot: int, s: seq<Row>)
    requires Midway(w, q, snapshot, s) && snapshot != 0 && Ordered(s) && LaterTurns(turns, snapshot)
    requires !Untied(s, |w.collected|)
    ensures |Run(w, turns, q).collected| < |s|
  {
    hide Snapshot, Ordered, LegalTurn, PastCursor;
    PastIsAfter(s, |w.collected|, |w.collected| + 1);
    RunPending(w, turns, q, snapshot, s);
  }

  lemma {:induction false} TiedTurnsLose(w: Walk, turns: seq<Turn>, q: Request, snapshot: int, s: seq<Row>)
    requires Midway(w, q, snapshot, s) && snapshot != 0 && Ordered(s) && LaterTurns(turns, snapshot)
    requires !PageEndsUntied(s, |w.collected|, turns)
    ensures |Run(w, turns, q).collected| < |s|
    decreases turns
  {
    hide Midway, Untied, Advance, LegalTurn, Ordered;
    var n := |w.collected|;
    if !Untied(s, n) {
      TieHereLoses(w, turns, q, snapshot, s);
    } else {
      NextTurn(w, turns[0], q, snapshot, s);
      if n + turns[0].limit >= |s| {
        UntiedPastEnd(s, n + turns[0].limit, turns[1..]);
      }
      TiedTurnsLose(Advance(w, turns[0], q), turns[1..], q, snapshot, s);
    }
  }

  lemma {:induction false} TiedWalkLoses(table: seq<Row>, turns: seq<Turn>, q: Request)
    requires LegalTurns(table, turns)
    requires !PageEndsUntied(OrderRows(Matching(Pinned(Start(table), turns[0]), q)), 0, turns)
    ensures |Run(Start(table), turns, q).collected| < |Matching(Pinned(Start(table), turns[0]), q)|
  {
    var pinned := Pinned(Start(table), turns[0]);
    var s := OrderRows(Matching(pinned, q));
    PinnedBound(table, turns, q);
    OrderOrdered(Matching(pinned, q));
    OrderLength(Matching(pinned, q));
    FirstTurn(table, turns[0], q);
    if s == [] || turns[0].limit >= |s| {
      UntiedPastEnd(s, turns[0].limit, turns[1..]);
    }
    assert MaxSeq(pinned) != 0;
    hide Snapshot, OrderRows, MaxSeq, Advance, PositiveSeqs, LegalTurn, Matching, Appended, Ordered, Midway;
    TiedTurnsLose(Advance(Start(table), turns[0], q), turns[1..], q, MaxSeq(pinned), s);
  }

  /**
   With keys that may repeat, pages of any sizes and writers interleaved as before: a walk that asks
   for enough rows returns all of the snapshot exactly when none of its pages ends inside a tie.
   */
  lemma {:induction false} CompleteIffUntied(table: seq<Row>, turns: seq<Turn>, q: Request)
    requires LegalTurns(table, turns)
    requires Limits(turns) >= |Matching(Pinned(Start(table), turns[0]), q)|
    ensures var rows := Matching(Pinned(Start(table), turns[0]), q);
            multiset(Run(Start(table), turns, q).collected) == multiset(rows)
            <==> PageEndsUntied(OrderRows(rows), 0, turns)
  {
    var rows := Matching(Pinned(Start(table), turns[0]), q);
    var collected := Run(Start(table), turns, q).collected;
    OrderLength(rows);
    if PageEndsUntied(OrderRows(rows), 0, turns) {
      UntiedWalkCollectsPrefix(table, turns, q);
      assert collected == OrderRows(rows);
    } else {
      TiedWalkLoses(table, turns, q);
      assert |multiset(collected)| < |multiset(rows)|;
    }
  }

  /** Two tied rows, read one by one: the second is never seen. */
  lemma {:induction false} TiedPairIsLost(a: Row, b: Row, q: Request)
    requires a.seqNo >= 1 && b.seqNo >= 1 && !Apart(a, b)
    requires Matching([a, b], q) == [a, b]
    ensures |Run(Start([a, b]), QuietTurns(2), q).collected| < 2
  {
    var turns, rows := QuietTurns(2), [a, b];
    assert Pinned(Start(rows), turns[0]) == rows;
    var s := OrderRows(rows);
    assert rows[1..] == [b] && [b][1..] == [];
    assert OrderRows([b]) == [b] && s == InsertSorted(a, [b]);
    assert InsertSorted(a, []) == [a];
    assert s == if Precedes(b, a) then [b] + [a] else [a] + [b];
    assert !Untied(s, 1) && turns[1..] != [];
    assert !PageEndsUntied(s, 1, turns[1..]);
    TiedWalkLoses(rows, turns, q);
  }

  /**
   The migration that adds `seq` numbers existing rows by a row_number() over one row each, so all of
   them get 1: two of them in one millisecond are a tie.
   */
  lemma {:induction false} BackfilledTieIsLost(a: Row, b: Row, q: Request)
    requires a.seqNo == 1 && b.seqNo == 1 && Millis(a.createdAt) == Millis(b.createdAt)
    requires Matching([a, b], q) == [a, b]
    ensures |Run(Start([a, b]), QuietTurns(2), q).collected| < 2
  {
    ApartIff(a, b);
    TiedPairIsLost(a, b, q);
  }

  /** Distinct keys do not help: two rows inside one millisecond, whatever their sequence numbers, are a tie. */
  lemma {:induction false} SameMillisecondIsLost(a: Row, b: Row, q: Request)
    requires a.seqNo >= 1 && b.seqNo >= 1
    requires Millis(a.createdAt) == Millis(b.createdAt) < a.createdAt < b.createdAt
    requires Matching([a, b], q) == [a, b]
    ensures |Run(Start([a, b]), QuietTurns(2), q).collected| < 2
  {
    ApartIff(a, b);
    TiedPairIsLost(a, b, q);
  }

  // ----- reading row by row

  lemma {:induction false} FilterMembers(rows: seq<Row>, p: Row -> bool)
    ensures forall i :: 0 <= i < |Filter(rows, p)| ==> p(Filter(rows, p)[i])
  {
    if rows == [] {
    } else {
      FilterMembers(rows[1..], p);
    }
  }

  /** With one row per page the next row always lies past the last one's cursor, whatever the table holds. */
  lemma {:induction false} OneRowTurn(w: Walk, t: Turn, q: Request)
    requires t.limit == 1 && CursorOrdered(w.collected)
    requires !w.finished && w.collected != [] ==> w.cursor == Some(KeyOf(w.collected[|w.collected| - 1]))
    ensures var w' := Advance(w, t, q);
            && CursorOrdered(w'.collected)
            && (!w'.finished && w'.collected != [] ==> w'.cursor == Some(KeyOf(w'.collected[|w'.collected| - 1])))
  {
    if !w.finished {
      OneRowHanded(w, t, q);
      var w' := Advance(w, t, q);
      if w'.collected != w.collected {
        AppendFollowing(w.collected, w'.collected[|w.collected|]);
      }
    }
  }

  lemma {:induction false} OneRowHanded(w: Walk, t: Turn, q: Request)
    requires t.limit == 1 && !w.finished
    requires w.collected != [] ==> w.cursor == Some(KeyOf(w.collected[|w.collected| - 1]))
    ensures var w' := Advance(w, t, q);
            && (w'.collected != w.collected ==>
                  && |w'.collected| == |w.collected| + 1
                  && w'.collected == w.collected + [w'.collected[|w.collected|]]
                  && (w.collected != [] ==> Follows(w.collected[|w.collected| - 1], w'.collected[|w.collected|])))
            && (!w'.finished ==> w'.collected != w.collected
                                 && w'.cursor == Some(KeyOf(w'.collected[|w'.collected| - 1])))
  {
    var pinned := Pinned(w, t);
    var snapshot := if w.snapshot == 0 then MaxSeq(pinned) else w.snapshot;
    var page := PageRows(pinned + t.beforePage, q, snapshot, w.cursor);
    if w.collected != [] {
      var cursor := w.cursor.value;
      PastCursorPage(pinned + t.beforePage, q, snapshot, cursor);
      FilterMembers(Snapshot(pinned + t.beforePage, q, snapshot), row => PastCursor(cursor, row));
      assert page != [] ==> PastCursor(cursor, page[0]);
    }
    hide PageRows, Snapshot, MaxSeq, PastCursor;
    assert Take(page, 2) == if |page| >= 2 then page[..2] else page;
  }

  lemma {:induction false} AppendFollowing(s: seq<Row>, x: Row)
    requires CursorOrdered(s) && (s != [] ==> Follows(s[|s| - 1], x))
    ensures CursorOrdered(s + [x])
  {
    forall i | 0 <= i < |s| ensures Follows(s[i], x) {
      FollowsFacts(s[i], s[|s| - 1], x);
    }
  }

  lemma {:induction false} OneRowPages(w: Walk, turns: seq<Turn>, q: Request)
    requires CursorOrdered(w.collected)
    requires !w.finished && w.collected != [] ==> w.cursor == Some(KeyOf(w.collected[|w.collected| - 1]))
    requires forall i :: 0 <= i < |turns| ==> turns[i].limit == 1
    ensures CursorOrdered(Run(w, turns, q).collected)
    decreases turns
  {
    if turns == [] {
    } else {
      OneRowTurn(w, turns[0], q);
      hide Advance, CursorOrdered;
      OneRowPages(Advance(w, turns[0], q), turns[1..], q);
    }
  }

  /** Read one by one, rows come strictly descending, and each past the cursor of all before it. */
  lemma {:induction false} OneRowPagesAreStrict(table: seq<Row>, turns: seq<Turn>, q: Request)
    requires forall i :: 0 <= i < |turns| ==> turns[i].limit == 1
    ensures CursorOrdered(Run(Start(table), turns, q).collected)
    ensures StrictlyOrdered(Run(Start(table), turns, q).collected)
  {
    OneRowPages(Start(table), turns, q);
    CursorOrderedIsStrict(Run(Start(table), turns, q).collected);
  }

  function QuietTurns(n: nat): seq<Turn> {
    seq(n, i => Turn([], [], [], 1))
  }

  /** Paging a quiet table row by row returns the whole snapshot exactly when no two matching rows are tied. */
  lemma {:induction false} CompleteIffApart(table: seq<Row>, q: Request, n: nat)
    requires PositiveSeqs(table) && n >= 1 && n >= |Matching(table, q)|
    ensures multiset(Run(Start(table), QuietTurns(n), q).collected) == multiset(Matching(table, q))
       <==> AllApart(Matching(table, q))
  {
    var turns, rows := QuietTurns(n), Matching(table, q);
    assert Pinned(Start(table), turns[0]) == table;
    if AllApart(rows) {
      WalkTerminates(table, turns, q);
      FinishedWalkIsComplete(table, turns, q);
    } else {
      OneRowPagesAreStrict(table, turns, q);
      var collected := Run(Start(table), turns, q).collected;
      if multiset(collected) == multiset(rows) {
        OrderedIsApart(collected, rows);
      }
    }
  }

  /** Being apart is a property of the multiset of rows. */
  lemma {:induction false} OrderedIsApart(a: seq<Row>, b: seq<Row>)
    requires CursorOrdered(a) && multiset(a) == multiset(b)
    ensures AllApart(b)
  {
    forall i, j | 0 <= i < j < |b|
      ensures Apart(b[i], b[j])
    {
      TwoOccurrences(a, b, i, j);
    }
  }

  lemma {:induction false} TwoOccurrences(a: seq<Row>, b: seq<Row>, i: nat, j: nat)
    requires CursorOrdered(a) && multiset(a) == multiset(b) && i < j < |b|
    ensures Apart(b[i], b[j])
  {
    var x, y := b[i], b[j];
    assert x in multiset(b) && y in multiset(b);
    assert x in a && y in a;
    var p :| 0 <= p < |a| && a[p] == x;
    var r :| 0 <= r < |a| && a[r] == y;
    CursorOrderedIsStrict(a);
    StrictOccursOnce(a, p);
    RepeatCounts(b, i, j);
    assert p < r ==> Follows(x, y);
    assert r < p ==> Follows(y, x);
  }

  lemma {:induction false} RepeatCounts(b: seq<Row>, i: nat, j: nat)
    requires i < j < |b|
    ensures b[i] == b[j] ==> multiset(b)[b[i]] >= 2
  {
    assert b == b[..i] + [b[i]] + b[i + 1..j] + [b[j]] + b[j + 1..];
  }

  lemma {:induction false} StrictOccursOnce(a: seq<Row>, p: nat)
    requires StrictlyOrdered(a) && p < |a|
    ensures multiset(a)[a[p]] == 1
  {
    assert a == a[..p] + [a[p]] + a[p + 1..];
    assert a[p] !in a[..p] && a[p] !in a[p + 1..];
  }
}

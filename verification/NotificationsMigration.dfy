/**
 Replacing `notifications.read` by `notifications.read_at`: the expand migration
 (backend/migrations/1806000000000_notifications-read-at-expand.js), whose trigger keeps the two
 columns in step while old and new writers run side by side, and the contract migration
 (backend/migrations-contract/1806100000000_notifications-drop-read.js), whose gate decides when
 the boolean may be dropped and whose `down` derives it again.
 */
module NotificationsMigration {
  import opened Wrappers

  type Id = nat
  type Time = int

  /** A stored row. A column that does not exist holds nothing: `read` is then false, `readAt` None. */
  datatype Row = Row(createdAt: Time, read: bool, readAt: Option<Time>)

  /** The row a statement wants to store; `read` is SQL's three-valued boolean. */
  datatype NewRow = NewRow(createdAt: Time, read: Option<bool>, readAt: Option<Time>)

  datatype SqlError =
    | NullRead | DuplicateId | NoSuchRow
    | NotExpanded | Unbackfilled | NoReadColumn | ColumnExists

  datatype Table = Table(rows: map<Id, Row>, hasRead: bool, hasReadAt: bool, triggerLive: bool)

  /** A one-row statement of some application version; `now` is its transaction's clock. */
  datatype Write =
    | Insert(id: Id, row: NewRow, now: Time)
    | Update(id: Id, row: NewRow, now: Time)
    | Delete(id: Id)

  // ----- the trigger

  function OnInsert(n: NewRow, now: Time): NewRow {
    if n.readAt.Some? then n.(read := Some(true))
    else if n.read == Some(true) then n.(readAt := Some(now))
    else n
  }

  function OnUpdate(previous: Row, n: NewRow, now: Time): NewRow {
    if n.readAt != previous.readAt then n.(read := Some(n.readAt.Some?))
    else if n.read != Some(previous.read) then
      n.(readAt := if n.read == Some(true) then (if previous.readAt.Some? then previous.readAt else Some(now)) else None)
    else n
  }

  predicate Agrees(r: Row) {
    r.read <==> r.readAt.Some?
  }

  /** What no trigger-protected write ever breaks, backfilled or not. */
  predicate DatedIsRead(r: Row) {
    r.readAt.Some? ==> r.read
  }

  /** The rows the backfill selects and the gate refuses. */
  predicate Undated(r: Row) {
    r.read && r.readAt == None
  }

  // ----- statements

  /** The NOT NULL check, and the columns that are there. */
  function Store(t: Table, n: NewRow): Result<Row, SqlError> {
    if t.hasRead && n.read == None then Err(NullRead)
    else Ok(Row(n.createdAt, t.hasRead && n.read == Some(true), if t.hasReadAt then n.readAt else None))
  }

  function Execute(t: Table, w: Write): Result<Table, SqlError> {
    match w
    case Insert(id, n, now) =>
      if id in t.rows then Err(DuplicateId)
      else Put(t, id, Store(t, if t.triggerLive then OnInsert(n, now) else n))
    case Update(id, n, now) =>
      if id !in t.rows then Err(NoSuchRow)
      else Put(t, id, Store(t, if t.triggerLive then OnUpdate(t.rows[id], n, now) else n))
    case Delete(id) =>
      if id !in t.rows then Err(NoSuchRow) else Ok(t.(rows := t.rows - {id}))
  }

  function Put(t: Table, id: Id, stored: Result<Row, SqlError>): Result<Table, SqlError> {
    match stored
    case Err(e) => Err(e)
    case Ok(r) => Ok(t.(rows := t.rows[id := r]))
  }

  /** A statement that fails changes nothing. */
  function After(t: Table, w: Write): Table {
    if Execute(t, w).Ok? then Execute(t, w).value else t
  }

  /** The backfill's UPDATE of one row, if it still matches when its turn comes. */
  function BackfillRow(t: Table, id: Id, now: Time): Table {
    if id in t.rows && Undated(t.rows[id])
    then After(t, Update(id, NewRow(t.rows[id].createdAt, Some(true), Some(t.rows[id].createdAt)), now))
    else t
  }

  function WithoutDate(r: Row): Row {
    r.(readAt := None)
  }

  function Dated(r: Row): Row {
    if Undated(r) then r.(readAt := Some(r.createdAt)) else r
  }

  function WithoutRead(r: Row): Row {
    r.(read := false)
  }

  function Derived(r: Row): Row {
    r.(read := r.readAt.Some?)
  }

  function AddReadAt(t: Table): Table {
    Table(map id | id in t.rows :: WithoutDate(t.rows[id]), t.hasRead, true, true)
  }

  /** After an undisturbed expand phase: read rows are dated by their creation, the others are not. */
  function Expanded(t: Table): Table {
    Table(map id | id in t.rows :: Dated(WithoutDate(t.rows[id])), t.hasRead, true, true)
  }

  function DropRead(t: Table): Table {
    Table(map id | id in t.rows :: WithoutRead(t.rows[id]), false, t.hasReadAt, false)
  }

  function RestoreRead(t: Table): Table {
    Table(map id | id in t.rows :: Derived(t.rows[id]), true, t.hasReadAt, t.triggerLive)
  }

  predicate Gate(t: Table) {
    t.hasReadAt && t.hasRead && forall id <- t.rows :: !Undated(t.rows[id])
  }

  // ----- the table

  class NotificationsTable {
    var rows: map<Id, Row>
    var hasRead: bool
    var hasReadAt: bool
    var triggerLive: bool

    ghost function Contents(): Table
      reads this
    {
      Table(rows, hasRead, hasReadAt, triggerLive)
    }

    /** The table as the application before the expand phase left it. */
    constructor (existing: map<Id, (Time, bool)>)
      ensures Contents() == Before(existing)
    {
      rows := map id | id in existing :: Row(existing[id].0, existing[id].1, None);
      hasRead, hasReadAt, triggerLive := true, false, false;
    }

    /** The BEFORE trigger assigns to the fields of NEW. */
    method SyncRead(isInsert: bool, id: Id, n: NewRow, now: Time) returns (r: NewRow)
      requires !isInsert ==> id in rows
      ensures r == if isInsert then OnInsert(n, now) else OnUpdate(rows[id], n, now)
    {
      r := n;
      if isInsert {
        if r.readAt.Some? {
          r := r.(read := Some(true));
        } else if r.read == Some(true) {
          r := r.(readAt := Some(now));
        }
      } else {
        var previous := rows[id];
        if r.readAt != previous.readAt {
          r := r.(read := Some(r.readAt.Some?));
        } else if r.read != Some(previous.read) {
          if r.read == Some(true) {
            r := r.(readAt := if previous.readAt.Some? then previous.readAt else Some(now));
          } else {
            r := r.(readAt := None);
          }
        }
      }
    }

    method Run(w: Write) returns (error: Option<SqlError>)
      modifies this
      ensures Contents() == After(old(Contents()), w)
      ensures error == match Execute(old(Contents()), w) { case Ok(_) => None case Err(e) => Some(e) }
    {
      if w.Delete? {
        if w.id !in rows {
          return Some(NoSuchRow);
        }
        rows := rows - {w.id};
        return None;
      }
      if w.Insert? && w.id in rows {
        return Some(DuplicateId);
      }
      if w.Update? && w.id !in rows {
        return Some(NoSuchRow);
      }
      var n := w.row;
      if triggerLive {
        n := SyncRead(w.Insert?, w.id, n, w.now);
      }
      if hasRead && n.read == None {
        return Some(NullRead);
      }
      var stored := Row(n.createdAt, hasRead && n.read == Some(true), if hasReadAt then n.readAt else None);
      rows := rows[w.id := stored];
      return None;
    }

    /** One row of the backfill's UPDATE, which goes through the live trigger. */
    method Backfill(id: Id, now: Time)
      requires id in rows && hasRead && hasReadAt && triggerLive
      modifies this
      ensures Contents() == BackfillRow(old(Contents()), id, now)
      ensures rows == old(rows)[id := Dated(old(rows)[id])] && hasRead && hasReadAt && triggerLive
    {
      if rows[id].read && rows[id].readAt == None {
        var error := Run(Update(id, NewRow(rows[id].createdAt, Some(true), Some(rows[id].createdAt)), now));
      }
    }

    /**
     Expand `up`, one transaction: the column, then the trigger, then the backfill of every row that
     needs it. It fails on a column that exists already, and in the backfill when `read` is gone.
     */
    method Expand(now: Time) returns (error: Option<SqlError>)
      modifies this
      ensures error == if old(hasReadAt) then Some(ColumnExists) else if !old(hasRead) then Some(NoReadColumn) else None
      ensures Contents() == if error == None then Expanded(old(Contents())) else old(Contents())
    {
      if hasReadAt {
        return Some(ColumnExists);
      }
      if !hasRead {
        return Some(NoReadColumn);
      }
      rows := map id | id in rows :: rows[id].(readAt := None);
      hasReadAt, triggerLive := true, true;
      BackfillAll(now);
      return None;
    }

    /** UPDATE notifications SET read_at = created_at WHERE read = true AND read_at IS NULL. */
    method BackfillAll(now: Time)
      requires hasRead && hasReadAt && triggerLive
      modifies this
      ensures hasRead && hasReadAt && triggerLive && rows.Keys == old(rows).Keys
      ensures forall id <- rows :: rows[id] == Dated(old(rows)[id])
    {
      ghost var was := rows;
      var pending := rows.Keys;
      while pending != {}
        invariant pending <= rows.Keys == was.Keys
        invariant hasRead && hasReadAt && triggerLive
        invariant forall id <- was :: rows[id] == if id in pending then was[id] else Dated(was[id])
        decreases |pending|
      {
        var id :| id in pending;
        Backfill(id, now);
        pending := pending - {id};
      }
    }

    /** Contract `up`: the gate, then the column and its trigger go. */
    method ContractUp() returns (error: Option<SqlError>)
      modifies this
      ensures error == None <==> Gate(old(Contents()))
      ensures Contents() == if error == None then DropRead(old(Contents())) else old(Contents())
      ensures error == Some(NotExpanded) <==> !old(hasReadAt)
      ensures error == Some(Unbackfilled) ==> exists id <- rows :: Undated(rows[id])
    {
      if !hasReadAt {
        return Some(NotExpanded);
      }
      if !hasRead {
        return Some(NoReadColumn);
      }
      if exists id <- rows :: rows[id].read && rows[id].readAt == None {
        return Some(Unbackfilled);
      }
      triggerLive := false;
      rows := map id | id in rows :: Row(rows[id].createdAt, false, rows[id].readAt);
      hasRead := false;
      return None;
    }

    /** UPDATE notifications SET read = (read_at IS NOT NULL). */
    method DeriveAll()
      modifies this`rows
      ensures rows.Keys == old(rows).Keys
      ensures forall id <- rows :: rows[id] == Derived(old(rows)[id])
    {
      ghost var was := rows;
      var pending := rows.Keys;
      while pending != {}
        invariant pending <= rows.Keys == was.Keys
        invariant forall id <- was :: rows[id] == if id in pending then was[id] else Derived(was[id])
        decreases |pending|
      {
        var id :| id in pending;
        rows := rows[id := rows[id].(read := rows[id].readAt.Some?)];
        pending := pending - {id};
      }
    }

    /** Contract `down`: the column with its default, which must not exist yet, then the UPDATE of every row. */
    method ContractDown() returns (error: Option<SqlError>)
      modifies this
      ensures error == if old(hasRead) then Some(ColumnExists) else if !old(hasReadAt) then Some(NotExpanded) else None
      ensures Contents() == if error == None then RestoreRead(old(Contents())) else old(Contents())
    {
      if hasRead {
        return Some(ColumnExists);
      }
      if !hasReadAt {
        return Some(NotExpanded);
      }
      rows := map id | id in rows :: rows[id].(read := false);
      hasRead := true;
      DeriveAll();
      return None;
    }
  }

  function Before(existing: map<Id, (Time, bool)>): Table {
    Table(map id | id in existing :: Row(existing[id].0, existing[id].1, None), true, false, false)
  }

  // ----- what the trigger keeps

  predicate BothColumns(t: Table) {
    t.hasRead && t.hasReadAt && t.triggerLive
  }

  ghost predicate AllAgree(t: Table) {
    forall id <- t.rows :: Agrees(t.rows[id])
  }

  ghost predicate AllDatedAreRead(t: Table) {
    forall id <- t.rows :: DatedIsRead(t.rows[id])
  }

  /** Whatever a write through the trigger sets, the columns agree afterwards if it changed either of them. */
  lemma {:induction false} WritesAgree(t: Table, w: Write)
    requires BothColumns(t) && !w.Delete? && Execute(t, w).Ok?
    ensures var after := After(t, w).rows;
            && w.id in after
            && (Agrees(after[w.id])
                || (w.Update? && after[w.id].read == t.rows[w.id].read && after[w.id].readAt == t.rows[w.id].readAt))
  {
    var n := if w.Insert? then OnInsert(w.row, w.now) else OnUpdate(t.rows[w.id], w.row, w.now);
    assert After(t, w).rows[w.id] == Row(n.createdAt, n.read == Some(true), n.readAt);
  }

  /**
   An old writer's change of `read` dates the row or clears its date; a new writer's change of the date
   sets `read`.
   */
  lemma {:induction false} WritersAreTranslated(t: Table, id: Id, createdAt: Time, read: bool, readAt: Option<Time>,
                                                now: Time)
    requires BothColumns(t) && id in t.rows && Agrees(t.rows[id])
    ensures var was := t.rows[id];
            var byOld := After(t, Update(id, NewRow(createdAt, Some(read), was.readAt), now)).rows[id];
            var byNew := After(t, Update(id, NewRow(createdAt, Some(was.read), readAt), now)).rows[id];
            && byOld.read == read
            && byOld.readAt == (if !read then None else if was.read then was.readAt else Some(now))
            && byNew.readAt == readAt && byNew.read == readAt.Some?
  {
    var was := t.rows[id];
    var n := OnUpdate(was, NewRow(createdAt, Some(read), was.readAt), now);
    assert n.read == Some(read);
    var m := OnUpdate(was, NewRow(createdAt, Some(was.read), readAt), now);
    assert m.readAt == readAt;
  }

  /**
   The row an insert stores: read when the writer says so or gives a date; dated with the given date,
   else now when read. It fails exactly when `read` is NULL and no date is given.
   */
  lemma {:induction false} InsertStores(t: Table, id: Id, n: NewRow, now: Time)
    requires BothColumns(t) && id !in t.rows
    ensures Execute(t, Insert(id, n, now))
         == if n.read == None && n.readAt == None then Err(NullRead)
            else
              var read := n.read == Some(true) || n.readAt != None;
              var date := if n.readAt != None then n.readAt else if read then Some(now) else None;
              Ok(t.(rows := t.rows[id := Row(n.createdAt, read, date)]))
  {
  }

  /**
   The row an update stores over any earlier one: a changed date decides; else a changed flag, setting
   it keeps a date there was and clearing it removes it; else both stay. It fails exactly when `read`
   is set to NULL and the date is left alone.
   */
  lemma {:induction false} UpdateStores(t: Table, id: Id, n: NewRow, now: Time)
    requires BothColumns(t) && id in t.rows
    ensures var was := t.rows[id];
            Execute(t, Update(id, n, now))
            == if n.readAt != was.readAt then
                 Ok(t.(rows := t.rows[id := Row(n.createdAt, n.readAt != None, n.readAt)]))
               else if n.read == None then Err(NullRead)
               else if n.read.value == was.read then
                 Ok(t.(rows := t.rows[id := Row(n.createdAt, was.read, was.readAt)]))
               else if was.read then
                 Ok(t.(rows := t.rows[id := Row(n.createdAt, false, None)]))
               else
                 Ok(t.(rows := t.rows[id := Row(n.createdAt, true, if was.readAt == None then Some(now) else was.readAt)]))
  {
    var was := t.rows[id];
    if n.readAt == was.readAt && n.read.Some? {
      assert n.read != Some(was.read) <==> n.read.value != was.read;
    }
  }

  /** The backfill dates the row it visits by its creation, and leaves every other row alone. */
  lemma {:induction false} VisitDates(t: Table, id: Id, now: Time)
    requires BothColumns(t)
    ensures BackfillRow(t, id, now)
         == if id in t.rows && t.rows[id].read && t.rows[id].readAt == None
            then t.(rows := t.rows[id := Row(t.rows[id].createdAt, true, Some(t.rows[id].createdAt))])
            else t
  {
    if id in t.rows && Undated(t.rows[id]) {
      UpdateStores(t, id, NewRow(t.rows[id].createdAt, Some(true), Some(t.rows[id].createdAt)), now);
    }
  }

  /** An undisturbed expand phase keeps every row's creation time and flag, and dates the read ones by their creation. */
  lemma {:induction false} ExpandDates(t: Table, id: Id)
    ensures Expanded(t).rows.Keys == t.rows.Keys && Expanded(t).hasReadAt && Expanded(t).triggerLive
    ensures id in t.rows ==>
              var was, now := t.rows[id], Expanded(t).rows[id];
              && now.createdAt == was.createdAt && now.read == was.read
              && now.readAt == if was.read then Some(was.createdAt) else None
  {
  }

  // ----- runs of the expand phase

  /** The backfill reaches its rows one by one while other sessions keep writing. */
  datatype Event = Statement(w: Write) | Visit(id: Id, now: Time)

  function Step(t: Table, e: Event): Table {
    match e
    case Statement(w) => After(t, w)
    case Visit(id, now) => BackfillRow(t, id, now)
  }

  function RunAll(t: Table, events: seq<Event>): Table
    decreases |events|
  {
    if events == [] then t else RunAll(Step(t, events[0]), events[1..])
  }

  /** A row the backfill no longer has to visit: gone, or its columns agree. */
  predicate Settled(t: Table, id: Id) {
    id in t.rows ==> Agrees(t.rows[id])
  }

  lemma {:induction false} StepKeepsColumns(t: Table, e: Event)
    requires BothColumns(t)
    ensures BothColumns(Step(t, e))
  {
  }

  lemma {:induction false} StepKeepsSettled(t: Table, e: Event, id: Id)
    requires BothColumns(t) && Settled(t, id)
    ensures Settled(Step(t, e), id)
  {
    var w := if e.Statement? then e.w
             else Update(e.id, NewRow(if e.id in t.rows then t.rows[e.id].createdAt else 0, Some(true),
                                      if e.id in t.rows then Some(t.rows[e.id].createdAt) else None), e.now);
    if w.id == id && !w.Delete? && Execute(t, w).Ok? {
      WritesAgree(t, w);
    }
  }

  lemma {:induction false} StepKeepsDated(t: Table, e: Event)
    requires BothColumns(t) && AllDatedAreRead(t)
    ensures AllDatedAreRead(Step(t, e))
  {
    var after := Step(t, e);
    forall id <- after.rows ensures DatedIsRead(after.rows[id]) {
      if id in t.rows && after.rows[id] == t.rows[id] {
      } else {
        var w := if e.Statement? then e.w
                 else Update(id, NewRow(t.rows[id].createdAt, Some(true), Some(t.rows[id].createdAt)), e.now);
        assert after == After(t, w) && w.id == id;
        WritesAgree(t, w);
      }
    }
  }

  /** In every state old and new writers and the backfill can reach, a dated row is read. */
  lemma {:induction false} DatedRowsAreRead(t: Table, events: seq<Event>)
    requires BothColumns(t) && AllDatedAreRead(t)
    ensures BothColumns(RunAll(t, events)) && AllDatedAreRead(RunAll(t, events))
    decreases |events|
  {
    if events == [] {
    } else {
      StepKeepsColumns(t, events[0]);
      StepKeepsDated(t, events[0]);
      DatedRowsAreRead(Step(t, events[0]), events[1..]);
    }
  }

  /** Once a row's columns agree they do forever, through any deletion and reinsertion. */
  lemma {:induction false} SettledForever(t: Table, events: seq<Event>, id: Id)
    requires BothColumns(t) && Settled(t, id)
    ensures Settled(RunAll(t, events), id)
    decreases |events|
  {
    if events == [] {
    } else {
      StepKeepsColumns(t, events[0]);
      StepKeepsSettled(t, events[0], id);
      SettledForever(Step(t, events[0]), events[1..], id);
    }
  }

  /** A row is settled by its visit, whatever happened to it before. */
  lemma {:induction false} VisitSettles(t: Table, events: seq<Event>, id: Id, k: nat)
    requires BothColumns(t) && AllDatedAreRead(t)
    requires k < |events| && events[k].Visit? && events[k].id == id
    ensures Settled(RunAll(t, events), id)
    decreases |events|
  {
    StepKeepsColumns(t, events[0]);
    StepKeepsDated(t, events[0]);
    if k == 0 {
      assert Settled(Step(t, events[0]), id) by {
        if id in t.rows && Undated(t.rows[id]) {
          WritesAgree(t, Update(id, NewRow(t.rows[id].createdAt, Some(true), Some(t.rows[id].createdAt)), events[0].now));
        }
      }
      SettledForever(Step(t, events[0]), events[1..], id);
    } else {
      VisitSettles(Step(t, events[0]), events[1..], id, k - 1);
    }
  }

  /** The backfill visits every row that its WHERE clause selected when it started. */
  ghost predicate VisitsAll(t: Table, events: seq<Event>) {
    forall id <- t.rows :: t.rows[id].read ==> exists k: nat :: k < |events| && events[k].Visit? && events[k].id == id
  }

  /** After the backfill, with writers interleaved anywhere, `read` and `read_at` are equivalent; and so they stay. */
  lemma {:induction false} BackfillAgrees(t: Table, events: seq<Event>, later: seq<Event>)
    requires t.hasRead && VisitsAll(t, events)
    ensures AllAgree(RunAll(AddReadAt(t), events))
    ensures AllAgree(RunAll(RunAll(AddReadAt(t), events), later))
  {
    var start := AddReadAt(t);
    var after := RunAll(start, events);
    DatedRowsAreRead(start, events);
    forall id: Id ensures Settled(after, id) && Settled(RunAll(after, later), id) {
      if id in t.rows && t.rows[id].read {
        var k: nat :| k < |events| && events[k].Visit? && events[k].id == id;
        VisitSettles(start, events, id, k);
      } else {
        SettledForever(start, events, id);
      }
      SettledForever(after, later, id);
    }
    assert forall id <- after.rows :: Settled(after, id);
    assert forall id <- RunAll(after, later).rows :: Settled(RunAll(after, later), id);
  }

  // ----- the contract phase

  /** On what the trigger lets through, the gate passes exactly when the columns are equivalent. */
  lemma {:induction false} GateIffAgree(t: Table)
    requires BothColumns(t) && AllDatedAreRead(t)
    ensures Gate(t) <==> AllAgree(t)
  {
    if Gate(t) {
      forall id <- t.rows ensures Agrees(t.rows[id]) {
        assert !Undated(t.rows[id]) && DatedIsRead(t.rows[id]);
      }
    }
    if AllAgree(t) {
      forall id <- t.rows ensures !Undated(t.rows[id]) {
        assert Agrees(t.rows[id]);
      }
    }
  }

  function RunWrites(t: Table, ws: seq<Write>): Table
    decreases |ws|
  {
    if ws == [] then t else RunWrites(After(t, ws[0]), ws[1..])
  }

  lemma {:induction false} UntouchedRow(t: Table, ws: seq<Write>, id: Id)
    requires id in t.rows && forall w <- ws :: w.id != id
    ensures id in RunWrites(t, ws).rows && RunWrites(t, ws).rows[id] == t.rows[id]
    decreases |ws|
  {
    if ws == [] {
    } else {
      assert ws[0].id != id;
      UntouchedRow(After(t, ws[0]), ws[1..], id);
    }
  }

  /** Dropping the boolean and deriving it again restores it on a row nobody wrote, exactly when that row agreed. */
  lemma {:induction false} DerivedIffAgreed(t: Table, ws: seq<Write>, id: Id)
    requires id in t.rows && forall w <- ws :: w.id != id
    ensures var down := RestoreRead(RunWrites(DropRead(t), ws));
            && id in down.rows
            && (down.rows[id].read == t.rows[id].read <==> Agrees(t.rows[id]))
            && (down.rows[id] == t.rows[id] <==> Agrees(t.rows[id]))
  {
    UntouchedRow(DropRead(t), ws, id);
  }

  /**
   The whole route: expand under load, run on, contract, run on without the boolean, contract down.
   The gate passes, every row ends with its columns in agreement, and every row left alone since
   the drop has the boolean it had.
   */
  lemma {:induction false} ExpandContractRoundTrip(t: Table, events: seq<Event>, later: seq<Event>, ws: seq<Write>)
    requires t.hasRead && VisitsAll(t, events)
    ensures var full := RunAll(RunAll(AddReadAt(t), events), later);
            var down := RestoreRead(RunWrites(DropRead(full), ws));
            && Gate(full)
            && AllAgree(down)
            && (forall id <- full.rows :: (forall w <- ws :: w.id != id) ==>
                                            id in down.rows && down.rows[id] == full.rows[id])
  {
    var half := RunAll(AddReadAt(t), events);
    var full := RunAll(half, later);
    var down := RestoreRead(RunWrites(DropRead(full), ws));
    BackfillAgrees(t, events, later);
    DatedRowsAreRead(AddReadAt(t), events);
    DatedRowsAreRead(half, later);
    GateIffAgree(full);
    forall id <- full.rows | forall w <- ws :: w.id != id
      ensures id in down.rows && down.rows[id] == full.rows[id]
    {
      DerivedIffAgreed(full, ws, id);
    }
  }

  /**
   The gate by itself is not enough, since `down` leaves no trigger behind. Contract a table that went
   through the expand phase, go back, let an old writer mark a read row unread, and contract again: the
   gate lets the row through, and the next `down` brings it back read.
   */
  lemma {:induction false} GateAloneIsNotEnough(id: Id, createdAt: Time, now: Time)
    ensures var expanded := Expanded(Before(map[id := (createdAt, true)]));
            var back := RestoreRead(DropRead(expanded));
            var marked := After(back, Update(id, NewRow(createdAt, Some(false), Some(createdAt)), now));
            && Gate(expanded) && id in back.rows && id in marked.rows
            && Execute(back, Update(id, NewRow(createdAt, Some(false), Some(createdAt)), now)).Ok?
            && !marked.rows[id].read
            && Gate(marked) && RestoreRead(DropRead(marked)).rows[id].read
  {
    var expanded := Expanded(Before(map[id := (createdAt, true)]));
    assert expanded.rows == map[id := Row(createdAt, true, Some(createdAt))];
    var back := RestoreRead(DropRead(expanded));
    assert back.rows == map[id := Row(createdAt, true, Some(createdAt))] && !back.triggerLive;
    var marked := After(back, Update(id, NewRow(createdAt, Some(false), Some(createdAt)), now));
    assert marked.rows == map[id := Row(createdAt, false, Some(createdAt))];
  }

  /**
   Contract `down` leaves no trigger behind: from then on a write keeps a row's columns in agreement
   exactly when it sets both of them alike.
   */
  lemma {:induction false} DownLeavesNoTrigger(t: Table, w: Write)
    requires t.hasReadAt && !w.Delete? && Execute(RestoreRead(DropRead(t)), w).Ok?
    ensures Agrees(After(RestoreRead(DropRead(t)), w).rows[w.id]) <==> w.row.read == Some(w.row.readAt.Some?)
  {
    var down := RestoreRead(DropRead(t));
    assert w.row.read.Some?;
    assert After(down, w).rows[w.id] == Row(w.row.createdAt, w.row.read.value, w.row.readAt);
  }
}

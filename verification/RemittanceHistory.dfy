/**
 The monthly repayment history of a borrower
 (backend/src/controllers/simulationController.ts, `getRemittanceHistory`): events are folded into
 months, in insertion order, and the streak counts back from the last month. A month is a number
 that stands for its "month year" label; `monthOf` maps a ledger close time to it.
 */
module RemittanceHistory {
  import opened Wrappers
  import opened EventAmount
  import DecimalText

  datatype EventKind = LoanRepaid | LoanDefaulted | OtherEvent
  datatype Event = Event(kind: EventKind, amount: Option<string>, closedAt: int)

  datatype Status = Completed | Defaulted
  datatype Month = Month(key: int, amountStroops: int, status: Status)
  datatype ShownMonth = ShownMonth(key: int, amount: string, status: Status)

  type Months = seq<Month>

  // ----- the fold

  /** The position of `key` in the map, or its size. */
  function Position(months: Months, key: int): (i: nat)
    ensures i <= |months|
    ensures i < |months| ==> months[i].key == key
    ensures forall j :: 0 <= j < i ==> months[j].key != key
  {
    if months == [] || months[0].key == key then 0 else 1 + Position(months[1..], key)
  }

  function AddRepayment(months: Months, key: int, stroops: int): Months {
    var i := Position(months, key);
    if i < |months| then months[i := months[i].(amountStroops := months[i].amountStroops + stroops)]
    else months + [Month(key, stroops, Completed)]
  }

  function AddDefault(months: Months, key: int): Months {
    var i := Position(months, key);
    if i < |months| then months[i := months[i].(status := Defaulted)]
    else months + [Month(key, 0, Defaulted)]
  }

  function Record(months: Months, e: Event, monthOf: int -> int): Result<Months, AmountError> {
    match e.kind
    case LoanRepaid =>
      (match ParseEventAmount(e.amount)
       case Err(error) => Err(error)
       case Ok(stroops) => Ok(AddRepayment(months, monthOf(e.closedAt), stroops)))
    case LoanDefaulted => Ok(AddDefault(months, monthOf(e.closedAt)))
    case OtherEvent => Ok(months)
  }

  /** The first amount that does not parse throws. */
  function Grouped(events: seq<Event>, monthOf: int -> int): Result<Months, AmountError> {
    if events == [] then Ok([])
    else match Grouped(events[..|events| - 1], monthOf)
         case Err(error) => Err(error)
         case Ok(months) => Record(months, events[|events| - 1], monthOf)
  }

  /** The number of completed months since the last defaulted one. */
  function Streak(months: Months): (n: nat)
    ensures n <= |months|
  {
    if months == [] || months[|months| - 1].status == Defaulted then 0
    else 1 + Streak(months[..|months| - 1])
  }

  function Show(m: Month): ShownMonth {
    ShownMonth(m.key, DecimalText.FromStroops(m.amountStroops), m.status)
  }

  /** The month itself, its status, and an amount whose text is parsed back, in every mode, to its stroops. */
  ghost predicate Shows(shown: ShownMonth, m: Month) {
    && shown.key == m.key && shown.status == m.status
    && forall mode :: DecimalText.ToStroops(shown.amount, mode) == Ok(m.amountStroops)
  }

  lemma {:induction false} ShowIsExact(m: Month)
    ensures Shows(Show(m), m)
  {
    forall mode ensures DecimalText.ToStroops(Show(m).amount, mode) == Ok(m.amountStroops) {
      DecimalText.ParseAfterPrint(m.amountStroops, mode);
    }
  }

  // ----- the handler's loops

  method GroupByMonth(events: seq<Event>, monthOf: int -> int) returns (r: Result<Months, AmountError>)
    ensures r == Grouped(events, monthOf)
  {
    hide ParseEventAmount, Position;
    var months: Months := [];
    for k := 0 to |events|
      invariant Grouped(events[..k], monthOf) == Ok(months)
    {
      var e := events[k];
      assert events[..k + 1][..k] == events[..k];
      var existing := Position(months, monthOf(e.closedAt));
      if e.kind == LoanRepaid {
        var parsed := ParseEventAmount(e.amount);
        if parsed.Err? {
          ErrorStays(events, k + 1, monthOf);
          return Err(parsed.error);
        }
        if existing < |months| {
          months := months[existing := months[existing].(amountStroops := months[existing].amountStroops + parsed.value)];
        } else {
          months := months + [Month(monthOf(e.closedAt), parsed.value, Completed)];
        }
      } else if e.kind == LoanDefaulted {
        if existing < |months| {
          months := months[existing := months[existing].(status := Defaulted)];
        } else {
          months := months + [Month(monthOf(e.closedAt), 0, Defaulted)];
        }
      }
    }
    assert events[..|events|] == events;
    return Ok(months);
  }

  lemma {:induction false} ErrorStays(events: seq<Event>, k: nat, monthOf: int -> int)
    requires k <= |events| && Grouped(events[..k], monthOf).Err?
    ensures Grouped(events, monthOf) == Grouped(events[..k], monthOf)
    decreases |events| - k
  {
    if k == |events| {
      assert events[..k] == events;
    } else {
      assert events[..k + 1][..k] == events[..k];
      ErrorStays(events, k + 1, monthOf);
    }
  }

  method CountStreak(months: Months) returns (streak: nat)
    ensures streak == Streak(months)
  {
    streak := 0;
    var i := |months|;
    assert months[..i] == months;
    while i > 0
      invariant 0 <= i <= |months|
      invariant streak == |months| - i
      invariant Streak(months) == streak + Streak(months[..i])
    {
      assert months[..i][..i - 1] == months[..i - 1];
      if months[i - 1].status == Completed {
        streak := streak + 1;
      } else {
        break;
      }
      i := i - 1;
    }
  }

  method GetRemittanceHistory(events: seq<Event>, monthOf: int -> int)
    returns (r: Result<(nat, seq<ShownMonth>), AmountError>)
    ensures match Grouped(events, monthOf)
            case Err(error) => r == Err(error)
            case Ok(months) =>
              && r.Ok? && r.value.0 == Streak(months)
              && var shown := r.value.1;
                 && |shown| == (if |months| < 6 then |months| else 6)
                 && forall i :: 0 <= i < |shown| ==> Shows(shown[i], months[|months| - |shown| + i])
  {
    var grouped := GroupByMonth(events, monthOf);
    if grouped.Err? {
      return Err(grouped.error);
    }
    var months := grouped.value;
    var streak := CountStreak(months);
    var from := if |months| < 6 then 0 else |months| - 6;
    var shown := seq(|months| - from, i requires 0 <= i < |months| - from => Show(months[from + i]));
    forall i | 0 <= i < |shown| ensures Shows(shown[i], months[|months| - |shown| + i]) {
      ShowIsExact(months[|months| - |shown| + i]);
    }
    return Ok((streak, shown));
  }

  // ----- what a history means, event by event

  /** The stroops an event repays; an event of another kind repays none. */
  function Repaid(e: Event): int {
    if e.kind == LoanRepaid && ParseEventAmount(e.amount).Ok? then ParseEventAmount(e.amount).value else 0
  }

  function MonthTotal(events: seq<Event>, monthOf: int -> int, key: int): int {
    if events == [] then 0
    else MonthTotal(events[..|events| - 1], monthOf, key)
         + var e := events[|events| - 1]; if monthOf(e.closedAt) == key then Repaid(e) else 0
  }

  function Total(events: seq<Event>): int {
    if events == [] then 0 else Total(events[..|events| - 1]) + Repaid(events[|events| - 1])
  }

  function SumOfMonths(months: Months): int {
    if months == [] then 0 else SumOfMonths(months[..|months| - 1]) + months[|months| - 1].amountStroops
  }

  predicate Counts(e: Event) {
    e.kind != OtherEvent
  }

  ghost predicate HasEvent(events: seq<Event>, monthOf: int -> int, key: int) {
    exists e <- events :: Counts(e) && monthOf(e.closedAt) == key
  }

  ghost predicate HasDefault(events: seq<Event>, monthOf: int -> int, key: int) {
    exists e <- events :: e.kind == LoanDefaulted && monthOf(e.closedAt) == key
  }

  /** One entry per month with an event, holding exactly that month's repayments and whether it saw a default. */
  ghost predicate Summarises(months: Months, events: seq<Event>, monthOf: int -> int) {
    && (forall i, j :: 0 <= i < j < |months| ==> months[i].key != months[j].key)
    && (forall key :: HasEvent(events, monthOf, key) <==> Position(months, key) < |months|)
    && (forall m <- months :: m.amountStroops == MonthTotal(events, monthOf, m.key))
    && (forall m <- months :: m.status == Defaulted <==> HasDefault(events, monthOf, m.key))
  }

  ghost predicate AllParse(events: seq<Event>) {
    forall e <- events :: e.kind == LoanRepaid ==> ParseEventAmount(e.amount).Ok?
  }

  // ----- one event

  /** What both kinds of event do to the map. */
  function Upsert(months: Months, key: int, amount: int, defaulted: bool): Months {
    var i := Position(months, key);
    if i < |months|
    then months[i := Month(key, months[i].amountStroops + amount, if defaulted then Defaulted else months[i].status)]
    else months + [Month(key, amount, if defaulted then Defaulted else Completed)]
  }

  lemma {:induction false} RecordIsUpsert(months: Months, e: Event, monthOf: int -> int)
    requires Counts(e) && Record(months, e, monthOf).Ok?
    ensures Record(months, e, monthOf).value
         == Upsert(months, monthOf(e.closedAt), Repaid(e), e.kind == LoanDefaulted)
  {
    var i := Position(months, monthOf(e.closedAt));
    if i < |months| && e.kind == LoanDefaulted {
      assert months[i].(status := Defaulted) == Month(months[i].key, months[i].amountStroops + 0, Defaulted);
    }
  }

  lemma {:induction false} NoEventNoTotal(events: seq<Event>, monthOf: int -> int, key: int)
    requires !HasEvent(events, monthOf, key)
    ensures MonthTotal(events, monthOf, key) == 0 && !HasDefault(events, monthOf, key)
  {
    if events == [] {
    } else {
      var rest, e := events[..|events| - 1], events[|events| - 1];
      assert e in events;
      assert forall x <- rest :: x in events;
      NoEventNoTotal(rest, monthOf, key);
      if e.kind == LoanRepaid {
        assert Counts(e);
      }
      forall x <- events ensures !(x.kind == LoanDefaulted && monthOf(x.closedAt) == key) {
        assert Counts(x) && monthOf(x.closedAt) == key ==> HasEvent(events, monthOf, key);
      }
    }
  }

  lemma {:induction false} OneMore(events: seq<Event>, e: Event, monthOf: int -> int, key: int)
    ensures var here := monthOf(e.closedAt) == key;
            && (HasEvent(events + [e], monthOf, key) <==> HasEvent(events, monthOf, key) || (here && Counts(e)))
            && (HasDefault(events + [e], monthOf, key)
                <==> HasDefault(events, monthOf, key) || (here && e.kind == LoanDefaulted))
            && MonthTotal(events + [e], monthOf, key)
               == MonthTotal(events, monthOf, key) + (if here then Repaid(e) else 0)
  {
    var all := events + [e];
    assert all[..|all| - 1] == events && all[|all| - 1] == e;
    assert forall x :: x in all <==> x in events || x == e;
    if HasEvent(events, monthOf, key) {
      var x :| x in events && Counts(x) && monthOf(x.closedAt) == key;
      assert x in all;
    }
    if HasDefault(events, monthOf, key) {
      var x :| x in events && x.kind == LoanDefaulted && monthOf(x.closedAt) == key;
      assert x in all;
    }
    assert e in all;
  }

  lemma {:induction false} PositionIs(months: Months, i: nat)
    requires i < |months|
    requires forall i, j :: 0 <= i < j < |months| ==> months[i].key != months[j].key
    ensures Position(months, months[i].key) == i
  {
    var p := Position(months, months[i].key);
    assert p <= i && months[p].key == months[i].key;
  }

  ghost predicate Fits(m: Month, events: seq<Event>, monthOf: int -> int) {
    && m.amountStroops == MonthTotal(events, monthOf, m.key)
    && (m.status == Defaulted <==> HasDefault(events, monthOf, m.key))
  }

  lemma {:induction false} UpsertFits(months: Months, events: seq<Event>, e: Event, monthOf: int -> int)
    requires Summarises(months, events, monthOf) && Counts(e)
    ensures var next := Upsert(months, monthOf(e.closedAt), Repaid(e), e.kind == LoanDefaulted);
            forall j :: 0 <= j < |next| ==> Fits(next[j], events + [e], monthOf)
  {
    var key := monthOf(e.closedAt);
    var i := Position(months, key);
    var next := Upsert(months, key, Repaid(e), e.kind == LoanDefaulted);
    forall j | 0 <= j < |next| ensures Fits(next[j], events + [e], monthOf) {
      OneMore(events, e, monthOf, next[j].key);
      if j < |months| {
        assert months[j] in months;
        if i < |months| && j != i {
          assert months[i].key == key && months[j].key != key;
        }
      } else {
        assert !HasEvent(events, monthOf, key);
        NoEventNoTotal(events, monthOf, key);
      }
    }
  }

  lemma {:induction false} UpsertKeys(months: Months, key: int, amount: int, defaulted: bool, k: int)
    ensures Position(Upsert(months, key, amount, defaulted), k) < |Upsert(months, key, amount, defaulted)|
       <==> Position(months, k) < |months| || k == key
  {
    var next, i := Upsert(months, key, amount, defaulted), Position(months, key);
    assert forall j :: 0 <= j < |months| ==> next[j].key == months[j].key;
    var p, q := Position(months, k), Position(next, k);
    if p < |months| {
      assert next[p].key == k;
    }
    if k == key {
      assert next[i].key == k;
    }
    if q < |next| {
      assert next[q].key == k;
    }
  }

  lemma {:induction false} UpsertSummarises(months: Months, events: seq<Event>, e: Event, monthOf: int -> int)
    requires Summarises(months, events, monthOf) && Counts(e)
    ensures Summarises(Upsert(months, monthOf(e.closedAt), Repaid(e), e.kind == LoanDefaulted), events + [e], monthOf)
  {
    var key := monthOf(e.closedAt);
    var next := Upsert(months, key, Repaid(e), e.kind == LoanDefaulted);
    assert forall j :: 0 <= j < |months| ==> next[j].key == months[j].key;
    UpsertFits(months, events, e, monthOf);
    forall m <- next ensures Fits(m, events + [e], monthOf) {
      var j :| 0 <= j < |next| && next[j] == m;
    }
    forall k: int
      ensures HasEvent(events + [e], monthOf, k) <==> Position(next, k) < |next|
    {
      OneMore(events, e, monthOf, k);
      UpsertKeys(months, key, Repaid(e), e.kind == LoanDefaulted, k);
    }
  }

  lemma {:induction false} SumAfterUpdate(months: Months, i: nat, m: Month)
    requires i < |months|
    ensures SumOfMonths(months[i := m]) == SumOfMonths(months) - months[i].amountStroops + m.amountStroops
  {
    var n := |months| - 1;
    var rest := months[..n];
    if i == n {
      assert months[i := m][..n] == rest;
    } else {
      SumAfterUpdate(rest, i, m);
      assert months[i := m][..n] == rest[i := m];
    }
  }

  lemma {:induction false} UpsertAdds(months: Months, key: int, amount: int, defaulted: bool)
    ensures SumOfMonths(Upsert(months, key, amount, defaulted)) == SumOfMonths(months) + amount
  {
    var next, i := Upsert(months, key, amount, defaulted), Position(months, key);
    if i < |months| {
      SumAfterUpdate(months, i, next[i]);
    } else {
      assert next[..|next| - 1] == months;
    }
  }

  // ----- a whole history

  lemma {:induction false} OtherEventIsIgnored(months: Months, events: seq<Event>, e: Event, monthOf: int -> int)
    requires Summarises(months, events, monthOf) && !Counts(e)
    ensures Summarises(months, events + [e], monthOf)
  {
    forall m <- months ensures Fits(m, events + [e], monthOf) {
      OneMore(events, e, monthOf, m.key);
    }
    forall k: int
      ensures HasEvent(events + [e], monthOf, k) <==> Position(months, k) < |months|
    {
      OneMore(events, e, monthOf, k);
    }
  }

  /**
   For events in any order, each month of the history has exactly its own repayments and defaults, and
   the totals add up.
   */
  lemma {:induction false} HistorySummarises(events: seq<Event>, monthOf: int -> int)
    requires Grouped(events, monthOf).Ok?
    ensures Summarises(Grouped(events, monthOf).value, events, monthOf)
    ensures SumOfMonths(Grouped(events, monthOf).value) == Total(events)
  {
    if events == [] {
    } else {
      var rest, e := events[..|events| - 1], events[|events| - 1];
      assert rest + [e] == events;
      HistorySummarises(rest, monthOf);
      var months := Grouped(rest, monthOf).value;
      if Counts(e) {
        RecordIsUpsert(months, e, monthOf);
        UpsertSummarises(months, rest, e, monthOf);
        UpsertAdds(months, monthOf(e.closedAt), Repaid(e), e.kind == LoanDefaulted);
      } else {
        OtherEventIsIgnored(months, rest, e, monthOf);
      }
    }
  }

  /** Event `k` is a repayment whose amount fails to parse with this error, and the first one that fails. */
  ghost predicate FirstBad(events: seq<Event>, k: nat, error: AmountError) {
    && k < |events| && AllParse(events[..k])
    && events[k].kind == LoanRepaid && ParseEventAmount(events[k].amount) == Err(error)
  }

  /** It fails exactly when some repayment's amount does not parse, with the error of the first such one. */
  lemma {:induction false} FailsOnFirstBadAmount(events: seq<Event>, monthOf: int -> int)
    ensures Grouped(events, monthOf).Ok? <==> AllParse(events)
    ensures Grouped(events, monthOf).Err? ==> exists k: nat :: FirstBad(events, k, Grouped(events, monthOf).error)
  {
    if events == [] {
    } else {
      var n := |events| - 1;
      var rest := events[..n];
      FailsOnFirstBadAmount(rest, monthOf);
      hide ParseEventAmount;
      assert events == rest + [events[n]];
      assert events[n] in events;
      if Grouped(rest, monthOf).Err? {
        var error := Grouped(rest, monthOf).error;
        var k: nat :| FirstBad(rest, k, error);
        assert rest[..k] == events[..k] && events[k] in events;
        assert FirstBad(events, k, error);
      } else if Grouped(events, monthOf).Err? {
        assert FirstBad(events, n, Grouped(events, monthOf).error);
      }
    }
  }

  // ----- events in time order

  ghost predicate TimeOrdered(events: seq<Event>) {
    forall i, j :: 0 <= i < j < |events| ==> events[i].closedAt <= events[j].closedAt
  }

  ghost predicate Monotone(monthOf: int -> int) {
    forall s, t :: s <= t ==> monthOf(s) <= monthOf(t)
  }

  ghost predicate Ascending(months: Months) {
    forall i, j :: 0 <= i < j < |months| ==> months[i].key < months[j].key
  }

  lemma {:induction false} LatestKey(months: Months, rest: seq<Event>, e: Event, monthOf: int -> int, i: nat)
    requires Summarises(months, rest, monthOf) && Monotone(monthOf) && i < |months|
    requires forall x <- rest :: x.closedAt <= e.closedAt
    ensures months[i].key <= monthOf(e.closedAt)
  {
    PositionIs(months, i);
    assert HasEvent(rest, monthOf, months[i].key);
    var x :| x in rest && Counts(x) && monthOf(x.closedAt) == months[i].key;
    assert x.closedAt <= e.closedAt;
  }

  lemma {:induction false} UpsertAscends(months: Months, key: int, amount: int, defaulted: bool)
    requires Ascending(months) && forall i :: 0 <= i < |months| ==> months[i].key <= key
    ensures Ascending(Upsert(months, key, amount, defaulted))
  {
    var next := Upsert(months, key, amount, defaulted);
    assert forall i :: 0 <= i < |months| ==> next[i].key == months[i].key;
    if Position(months, key) == |months| {
      assert forall i :: 0 <= i < |months| ==> months[i].key < key;
    }
  }

  /** The months then come in calendar order, so the last six entries are the six latest months with an event. */
  lemma {:induction false} MonthsAscend(events: seq<Event>, monthOf: int -> int)
    requires Grouped(events, monthOf).Ok? && TimeOrdered(events) && Monotone(monthOf)
    ensures Ascending(Grouped(events, monthOf).value)
  {
    if events == [] {
    } else {
      var rest, e := events[..|events| - 1], events[|events| - 1];
      MonthsAscend(rest, monthOf);
      HistorySummarises(rest, monthOf);
      var months := Grouped(rest, monthOf).value;
      if Counts(e) {
        RecordIsUpsert(months, e, monthOf);
        forall i | 0 <= i < |months| ensures months[i].key <= monthOf(e.closedAt) {
          LatestKey(months, rest, e, monthOf, i);
        }
        UpsertAscends(months, monthOf(e.closedAt), Repaid(e), e.kind == LoanDefaulted);
      }
    }
  }

  lemma {:induction false} StreakIsLongest(months: Months)
    ensures var n := Streak(months);
            && (forall j :: |months| - n <= j < |months| ==> months[j].status == Completed)
            && (n < |months| ==> months[|months| - n - 1].status == Defaulted)
  {
    if months != [] && months[|months| - 1].status != Defaulted {
      var rest := months[..|months| - 1];
      StreakIsLongest(rest);
      assert forall j :: 0 <= j < |rest| ==> months[j] == rest[j];
    }
  }

  /** Where an event that counts is found in the history, and what a default there did. */
  lemma {:induction false} EventPosition(months: Months, events: seq<Event>, monthOf: int -> int, e: Event)
    requires Summarises(months, events, monthOf) && e in events && Counts(e)
    ensures var p := Position(months, monthOf(e.closedAt));
            && p < |months| && months[p].key == monthOf(e.closedAt)
            && (e.kind == LoanDefaulted ==> months[p].status == Defaulted)
  {
    assert HasEvent(events, monthOf, monthOf(e.closedAt));
    var p := Position(months, monthOf(e.closedAt));
    assert months[p] in months;
    if e.kind == LoanDefaulted {
      assert HasDefault(events, monthOf, months[p].key);
    }
  }

  /** The month before position `from` is the latest one with a default, and there is one unless `from` is 0. */
  ghost predicate DefaultsEndBefore(months: Months, events: seq<Event>, monthOf: int -> int, from: nat)
    requires from <= |months|
  {
    && (from > 0 ==> HasDefault(events, monthOf, months[from - 1].key))
    && (forall e <- events :: e.kind == LoanDefaulted ==> from > 0 && monthOf(e.closedAt) <= months[from - 1].key)
  }

  /** The entries from position `from` on are exactly the later months with an event. */
  ghost predicate HoldsLaterMonths(months: Months, events: seq<Event>, monthOf: int -> int, from: nat)
    requires from <= |months|
  {
    forall key :: (exists i :: from <= i < |months| && months[i].key == key)
                  <==> HasEvent(events, monthOf, key) && (from > 0 ==> key > months[from - 1].key)
  }

  /**
   The streak read off the events: the month before it is the latest one with a default, if there
   was any default at all, and the streak holds exactly the later months with an event.
   */
  lemma {:induction false} StreakCountsSinceLastDefault(events: seq<Event>, monthOf: int -> int)
    requires Grouped(events, monthOf).Ok? && TimeOrdered(events) && Monotone(monthOf)
    ensures var months := Grouped(events, monthOf).value;
            var from := |months| - Streak(months);
            DefaultsEndBefore(months, events, monthOf, from) && HoldsLaterMonths(months, events, monthOf, from)
  {
    hide HoldsLaterMonths, DefaultsEndBefore, Summarises, Ascending, TimeOrdered, Monotone, SumOfMonths, Total;
    HistorySummarises(events, monthOf);
    MonthsAscend(events, monthOf);
    StreakOfSummary(Grouped(events, monthOf).value, events, monthOf);
  }

  lemma {:induction false} StreakOfSummary(months: Months, events: seq<Event>, monthOf: int -> int)
    requires Summarises(months, events, monthOf) && Ascending(months)
    ensures var from := |months| - Streak(months);
            DefaultsEndBefore(months, events, monthOf, from) && HoldsLaterMonths(months, events, monthOf, from)
  {
    hide *;
    DefaultsAreEarlier(months, events, monthOf);
    AllLaterMonths(months, events, monthOf, |months| - Streak(months));
  }

  lemma {:induction false} DefaultsAreEarlier(months: Months, events: seq<Event>, monthOf: int -> int)
    requires Summarises(months, events, monthOf) && Ascending(months)
    ensures DefaultsEndBefore(months, events, monthOf, |months| - Streak(months))
  {
    hide Summarises, Ascending, HasDefault, Streak;
    var from := |months| - Streak(months);
    forall e <- events | e.kind == LoanDefaulted
      ensures from > 0 && monthOf(e.closedAt) <= months[from - 1].key
    {
      DefaultIsEarlier(months, events, monthOf, e);
    }
    if from > 0 {
      StreakIsLongest(months);
      DefaultedMonth(months, events, monthOf, from - 1);
    }
  }

  lemma {:induction false} DefaultIsEarlier(months: Months, events: seq<Event>, monthOf: int -> int, e: Event)
    requires Summarises(months, events, monthOf) && Ascending(months) && e in events && e.kind == LoanDefaulted
    ensures var from := |months| - Streak(months); from > 0 && monthOf(e.closedAt) <= months[from - 1].key
  {
    hide Summarises, Ascending, Streak, Position;
    EventPosition(months, events, monthOf, e);
    DefaultedBefore(months, Position(months, monthOf(e.closedAt)));
  }

  lemma {:induction false} DefaultedMonth(months: Months, events: seq<Event>, monthOf: int -> int, p: nat)
    requires Summarises(months, events, monthOf) && p < |months| && months[p].status == Defaulted
    ensures HasDefault(events, monthOf, months[p].key)
  {
    hide MonthTotal, HasDefault, HasEvent, SumOfMonths, Total;
    assert months[p] in months;
  }

  lemma {:induction false} DefaultedBefore(months: Months, p: nat)
    requires Ascending(months) && p < |months| && months[p].status == Defaulted
    ensures var from := |months| - Streak(months); from > 0 && months[p].key <= months[from - 1].key
  {
    StreakIsLongest(months);
    var from := |months| - Streak(months);
    assert p < from;
    assert p < from - 1 ==> months[p].key < months[from - 1].key;
  }

  lemma {:induction false} AllLaterMonths(months: Months, events: seq<Event>, monthOf: int -> int, from: nat)
    requires Summarises(months, events, monthOf) && Ascending(months) && from <= |months|
    ensures HoldsLaterMonths(months, events, monthOf, from)
  {
    forall key: int
      ensures (exists i :: from <= i < |months| && months[i].key == key)
         <==> HasEvent(events, monthOf, key) && (from > 0 ==> key > months[from - 1].key)
    {
      LaterMonths(months, events, monthOf, from, key);
    }
  }

  lemma {:induction false} LaterMonths(months: Months, events: seq<Event>, monthOf: int -> int, from: nat, key: int)
    requires Summarises(months, events, monthOf) && Ascending(months) && from <= |months|
    ensures (exists i :: from <= i < |months| && months[i].key == key)
       <==> HasEvent(events, monthOf, key) && (from > 0 ==> key > months[from - 1].key)
  {
    hide HasEvent, HasDefault, MonthTotal;
    var p := Position(months, key);
    if i :| from <= i < |months| && months[i].key == key {
      PositionIs(months, i);
    }
  }
}

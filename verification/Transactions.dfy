/**
 The retrying transaction (backend/src/db/connection.ts, `withTransaction` and `withRetry`).
 Each turn of the loop checks out a client, runs BEGIN, the callback and COMMIT on it, rolls
 back and perhaps sleeps when one of them throws, and releases the client. What fails, where
 and with which error is an arbitrary oracle; a COMMIT that throws has not committed, and a
 ROLLBACK that throws has lost its connection, which discards the open transaction.
 */
module Transactions {
  import opened Wrappers

  datatype DbError = DbError(code: string)

  const TRANSIENT_ERROR_CODES: set<string> :=
    {"ECONNREFUSED", "08000", "08003", "08006", "57P01", "57P02", "57P03", "40001", "40P01"}

  predicate IsTransient(e: DbError) {
    e.code in TRANSIENT_ERROR_CODES
  }

  /** What happens in one turn of the loop; `partial` is where the callback left the open transaction. */
  datatype Attempt<S> =
    | AcquireFails(error: DbError)
    | BeginFails(error: DbError, rollbackFails: bool)
    | CallbackFails(error: DbError, partial: S, rollbackFails: bool)
    | CommitFails(error: DbError, rollbackFails: bool)
    | Succeeds

  datatype Event = Acquired | Begun | Called | Committed | RolledBack | Slept(ms: nat) | Released

  function Pow2(n: nat): nat {
    if n == 0 then 1 else 2 * Pow2(n - 1)
  }

  /** The error is retried: it came from the transaction itself, and it is transient. */
  predicate Retryable<S>(a: Attempt<S>) {
    !a.Succeeds? && !a.AcquireFails? && IsTransient(a.error)
  }

  // ----- the database seen through one client

  class Database<S> {
    var committed: S
    var open: Option<S>
    var held: nat
    var trace: seq<Event>

    constructor (initial: S)
      ensures committed == initial && open == None && held == 0 && trace == []
    {
      committed := initial;
      open := None;
      held := 0;
      trace := [];
    }

    method Acquire()
      modifies this
      ensures held == old(held) + 1 && trace == old(trace) + [Acquired]
      ensures committed == old(committed) && open == old(open)
    {
      held := held + 1;
      trace := trace + [Acquired];
    }

    method Begin()
      modifies this
      ensures open == Some(committed) && trace == old(trace) + [Begun]
      ensures committed == old(committed) && held == old(held)
    {
      open := Some(committed);
      trace := trace + [Begun];
    }

    /** The callback moves the open transaction to `working`, whether or not it then throws. */
    method Call(working: S)
      requires open.Some?
      modifies this
      ensures open == Some(working) && trace == old(trace) + [Called]
      ensures committed == old(committed) && held == old(held)
    {
      open := Some(working);
      trace := trace + [Called];
    }

    method Commit()
      requires open.Some?
      modifies this
      ensures committed == old(open).value && open == None && trace == old(trace) + [Committed]
      ensures held == old(held)
    {
      committed := open.value;
      open := None;
      trace := trace + [Committed];
    }

    /** ROLLBACK discards the open transaction; so does the loss of the connection when it throws. */
    method Rollback(fails: bool)
      modifies this
      ensures open == None && committed == old(committed) && held == old(held)
      ensures trace == old(trace) + if fails then [] else [RolledBack]
    {
      open := None;
      trace := trace + if fails then [] else [RolledBack];
    }

    method Sleep(ms: nat)
      modifies this`trace
      ensures trace == old(trace) + [Slept(ms)]
    {
      trace := trace + [Slept(ms)];
    }

    method Release()
      requires held > 0
      modifies this
      ensures held == old(held) - 1 && trace == old(trace) + [Released]
      ensures committed == old(committed) && open == old(open)
    {
      held := held - 1;
      trace := trace + [Released];
    }
  }

  // ----- the specification of a run

  /** The attempt the loop ends with, starting from attempt `i`. */
  function LastAttempt<S>(oracle: nat -> Attempt<S>, i: nat, maxRetries: int): (k: nat)
    ensures i <= k
    decreases maxRetries - i
  {
    if Retryable(oracle(i)) && i < maxRetries then LastAttempt(oracle, i + 1, maxRetries) else i
  }

  /** The statements run on the client of one attempt, up to where it fails. */
  function Statements<S>(a: Attempt<S>): seq<Event> {
    match a
    case AcquireFails(_) => []
    case BeginFails(_, lost) => if lost then [] else [RolledBack]
    case CallbackFails(_, _, lost) => [Begun, Called] + if lost then [] else [RolledBack]
    case CommitFails(_, lost) => [Begun, Called] + if lost then [] else [RolledBack]
    case Succeeds => [Begun, Called, Committed]
  }

  /** One turn of the loop; the client is released after the sleep, in `finally`. */
  function TurnEvents<S>(a: Attempt<S>, i: nat, maxRetries: int, baseDelayMs: nat): seq<Event> {
    if a.AcquireFails? then []
    else [Acquired] + Statements(a) + Pause(a, i, maxRetries, baseDelayMs) + [Released]
  }

  function Pause<S>(a: Attempt<S>, i: nat, maxRetries: int, baseDelayMs: nat): seq<Event> {
    if Retryable(a) && i < maxRetries then [Slept(baseDelayMs * Pow2(i))] else []
  }

  function RunEvents<S>(oracle: nat -> Attempt<S>, i: nat, maxRetries: int, baseDelayMs: nat): seq<Event>
    decreases maxRetries - i
  {
    TurnEvents(oracle(i), i, maxRetries, baseDelayMs)
    + if Retryable(oracle(i)) && i < maxRetries then RunEvents(oracle, i + 1, maxRetries, baseDelayMs) else []
  }

  // ----- the loop

  /** The body of the `try`: BEGIN, the callback and COMMIT, or the ROLLBACK of whichever threw. */
  method RunAttempt<S, T>(db: Database<S>, fn: S -> (S, T), outcome: Attempt<S>) returns (r: Result<T, DbError>)
    requires db.open == None && !outcome.AcquireFails?
    modifies db
    ensures db.open == None && db.held == old(db.held)
    ensures db.trace == old(db.trace) + Statements(outcome)
    ensures if outcome.Succeeds?
            then r == Ok(fn(old(db.committed)).1) && db.committed == fn(old(db.committed)).0
            else r == Err(outcome.error) && db.committed == old(db.committed)
  {
    if outcome.BeginFails? {
      db.Rollback(outcome.rollbackFails);
      return Err(outcome.error);
    }
    db.Begin();
    var (after, value) := fn(db.committed);
    if outcome.CallbackFails? {
      db.Call(outcome.partial);
      db.Rollback(outcome.rollbackFails);
      return Err(outcome.error);
    }
    db.Call(after);
    if outcome.CommitFails? {
      db.Rollback(outcome.rollbackFails);
      return Err(outcome.error);
    }
    db.Commit();
    return Ok(value);
  }

  /**
   However the attempts fail, a normal return has committed exactly one run of the callback on
   the state found, a throw has changed nothing, and what happened in between is `RunEvents`.
   */
  method WithTransaction<S, T>(db: Database<S>, fn: S -> (S, T), oracle: nat -> Attempt<S>,
                               maxRetries: int, baseDelayMs: nat)
    returns (r: Result<T, DbError>)
    requires db.open == None
    modifies db
    ensures var last := oracle(LastAttempt(oracle, 0, maxRetries));
            if last.Succeeds?
            then r == Ok(fn(old(db.committed)).1) && db.committed == fn(old(db.committed)).0
            else r == Err(last.error) && db.committed == old(db.committed)
    ensures db.open == None && db.held == old(db.held)
    ensures db.trace == old(db.trace) + RunEvents(oracle, 0, maxRetries, baseDelayMs)
    ensures !oracle(0).Succeeds? && !(0 < maxRetries && FailedTransiently(oracle(0))) ==>
              && r == Err(oracle(0).error) && db.committed == old(db.committed)
              && db.trace == old(db.trace) + TurnEvents(oracle(0), 0, maxRetries, baseDelayMs)
              && Count(Acquired, TurnEvents(oracle(0), 0, maxRetries, baseDelayMs))
                 == (if oracle(0).AcquireFails? then 0 else 1)
              && NoSleep(TurnEvents(oracle(0), 0, maxRetries, baseDelayMs))
  {
    FirstIsFinal(oracle, maxRetries, baseDelayMs);
    hide Statements, TurnEvents, Pow2;
    var attempt := 0;
    while true
      invariant 0 <= attempt && (attempt == 0 || attempt <= maxRetries)
      invariant db.open == None && db.held == old(db.held) && db.committed == old(db.committed)
      invariant LastAttempt(oracle, attempt, maxRetries) == LastAttempt(oracle, 0, maxRetries)
      invariant db.trace + RunEvents(oracle, attempt, maxRetries, baseDelayMs)
             == old(db.trace) + RunEvents(oracle, 0, maxRetries, baseDelayMs)
      decreases maxRetries - attempt
    {
      ghost var before := db.trace;
      var outcome := oracle(attempt);
      TraceJoins(before, oracle, attempt, maxRetries, baseDelayMs);
      if outcome.AcquireFails? {
        return Err(outcome.error);
      }
      db.Acquire();
      var result := RunAttempt(db, fn, outcome);
      if result.Ok? {
        db.Release();
        return result;
      }
      if IsTransient(result.error) && attempt < maxRetries {
        db.Sleep(baseDelayMs * Pow2(attempt));
        attempt := attempt + 1;
        db.Release();
        continue;
      }
      db.Release();
      return result;
    }
  }

  lemma {:induction false} TraceJoins<S>(before: seq<Event>, oracle: nat -> Attempt<S>, i: nat, maxRetries: int,
                                         baseDelayMs: nat)
    ensures var a := oracle(i);
            var after := if a.AcquireFails? then before
                         else before + [Acquired] + Statements(a) + Pause(a, i, maxRetries, baseDelayMs) + [Released];
            before + RunEvents(oracle, i, maxRetries, baseDelayMs)
            == if Retryable(a) && i < maxRetries
               then after + RunEvents(oracle, i + 1, maxRetries, baseDelayMs)
               else after
  {
    hide Statements, Pause, TurnEvents, Retryable;
    RunUnfolds(oracle, i, maxRetries, baseDelayMs);
    TurnJoins(before, oracle(i), i, maxRetries, baseDelayMs);
    var turn := TurnEvents(oracle(i), i, maxRetries, baseDelayMs);
    var rest := if Retryable(oracle(i)) && i < maxRetries then RunEvents(oracle, i + 1, maxRetries, baseDelayMs) else [];
    JoinTwo(before, turn, rest);
  }

  lemma {:induction false} TurnJoins<S>(before: seq<Event>, a: Attempt<S>, i: nat, maxRetries: int, baseDelayMs: nat)
    ensures before + TurnEvents(a, i, maxRetries, baseDelayMs)
         == if a.AcquireFails? then before
            else before + [Acquired] + Statements(a) + Pause(a, i, maxRetries, baseDelayMs) + [Released]
  {
    hide Statements, Pause;
    if a.AcquireFails? {
      assert before + [] == before;
    } else {
      FourParts(before, [Acquired], Statements(a), Pause(a, i, maxRetries, baseDelayMs), [Released]);
    }
  }

  lemma {:induction false} RunUnfolds<S>(oracle: nat -> Attempt<S>, i: nat, maxRetries: int, baseDelayMs: nat)
    ensures RunEvents(oracle, i, maxRetries, baseDelayMs)
         == TurnEvents(oracle(i), i, maxRetries, baseDelayMs)
            + if Retryable(oracle(i)) && i < maxRetries then RunEvents(oracle, i + 1, maxRetries, baseDelayMs) else []
  {
    hide TurnEvents, Retryable;
  }

  lemma {:induction false} JoinTwo(before: seq<Event>, a: seq<Event>, b: seq<Event>)
    ensures before + (a + b) == (before + a) + b
    ensures b == [] ==> before + (a + b) == before + a
  {
  }

  lemma {:induction false} FourParts(before: seq<Event>, a: seq<Event>, b: seq<Event>, c: seq<Event>, d: seq<Event>)
    ensures before + (a + b + c + d) == before + a + b + c + d
  {
  }

  // ----- which attempt is the last

  /** Attempt `i` is followed by another one. */
  predicate Retried<S>(oracle: nat -> Attempt<S>, maxRetries: int, i: nat) {
    Retryable(oracle(i)) && i < maxRetries
  }

  /** Attempt `k` ends the loop: everything before it was retried and it is not. */
  ghost predicate Ends<S>(oracle: nat -> Attempt<S>, maxRetries: int, k: nat) {
    && (forall j: nat :: j < k ==> Retried(oracle, maxRetries, j))
    && !Retried(oracle, maxRetries, k)
  }

  /** The `while (true)` ends at the one attempt that is not retried, at most the (maxRetries+1)st. */
  lemma {:induction false} LastAttemptEnds<S>(oracle: nat -> Attempt<S>, maxRetries: int, k: nat)
    ensures k == LastAttempt(oracle, 0, maxRetries) <==> Ends(oracle, maxRetries, k)
    ensures Ends(oracle, maxRetries, k) ==> k == 0 || k <= maxRetries
  {
    LastIsEnd(oracle, maxRetries);
    if Ends(oracle, maxRetries, k) {
      OneEnd(oracle, maxRetries, k, LastAttempt(oracle, 0, maxRetries));
      EndWithin(oracle, maxRetries, k);
    }
  }

  lemma {:induction false} LastIsEnd<S>(oracle: nat -> Attempt<S>, maxRetries: int)
    ensures Ends(oracle, maxRetries, LastAttempt(oracle, 0, maxRetries))
  {
    hide Retried, LastAttempt;
    var k := LastAttempt(oracle, 0, maxRetries);
    NotRetried(oracle, maxRetries, 0);
    forall j: nat | j < k ensures Retried(oracle, maxRetries, j) {
      RetriedBefore(oracle, maxRetries, 0, j);
    }
  }

  lemma {:induction false} EndWithin<S>(oracle: nat -> Attempt<S>, maxRetries: int, k: nat)
    requires Ends(oracle, maxRetries, k)
    ensures k == 0 || k <= maxRetries
  {
    if k > 0 {
      assert Retried(oracle, maxRetries, k - 1);
    }
  }

  lemma {:induction false} OneEnd<S>(oracle: nat -> Attempt<S>, maxRetries: int, j: nat, k: nat)
    requires Ends(oracle, maxRetries, j) && Ends(oracle, maxRetries, k)
    ensures j == k
  {
    hide Retried;
    assert j < k ==> Retried(oracle, maxRetries, j);
    assert k < j ==> Retried(oracle, maxRetries, k);
  }

  lemma {:induction false} NotRetried<S>(oracle: nat -> Attempt<S>, maxRetries: int, i: nat)
    ensures !Retried(oracle, maxRetries, LastAttempt(oracle, i, maxRetries))
    decreases maxRetries - i
  {
    if Retried(oracle, maxRetries, i) {
      NotRetried(oracle, maxRetries, i + 1);
    }
  }

  lemma {:induction false} RetriedBefore<S>(oracle: nat -> Attempt<S>, maxRetries: int, i: nat, j: nat)
    requires i <= j < LastAttempt(oracle, i, maxRetries)
    ensures Retried(oracle, maxRetries, j)
    decreases maxRetries - i
  {
    if i < j {
      RetriedBefore(oracle, maxRetries, i + 1, j);
    }
  }

  // ----- which failures are retried

  /** The nine codes of a failure that may pass: lost connections, shutdowns, serialization failures and deadlocks. */
  predicate MayPass(code: string) {
    || code == "ECONNREFUSED"
    || code == "08000" || code == "08003" || code == "08006"
    || code == "57P01" || code == "57P02" || code == "57P03"
    || code == "40001" || code == "40P01"
  }

  /** BEGIN, the callback or COMMIT failed, with such a code. */
  predicate FailedTransiently<S>(a: Attempt<S>) {
    (a.BeginFails? || a.CallbackFails? || a.CommitFails?) && MayPass(a.error.code)
  }

  lemma {:induction false} TransientIffMayPass(e: DbError)
    ensures IsTransient(e) <==> MayPass(e.code)
  {
  }

  lemma {:induction false} RetryableIff<S>(a: Attempt<S>)
    ensures Retryable(a) <==> FailedTransiently(a)
  {
    if !a.Succeeds? {
      TransientIffMayPass(a.error);
    }
    hide IsTransient, MayPass;
  }

  /** Of the attempts that are made, one is followed by another exactly when it failed transiently and retries are left. */
  lemma {:induction false} FollowedIff<S>(oracle: nat -> Attempt<S>, maxRetries: int, i: nat)
    requires i <= LastAttempt(oracle, 0, maxRetries)
    ensures i < LastAttempt(oracle, 0, maxRetries) <==> i < maxRetries && FailedTransiently(oracle(i))
  {
    RetryableIff(oracle(i));
    LastIsEnd(oracle, maxRetries);
    hide Retryable, FailedTransiently;
    assert i < LastAttempt(oracle, 0, maxRetries) ==> Retried(oracle, maxRetries, i);
  }

  ghost predicate NoSleep(events: seq<Event>) {
    forall i :: 0 <= i < |events| ==> !events[i].Slept?
  }

  /** A first attempt that is not retried is the whole run, and it does not sleep. */
  lemma {:induction false} FirstIsFinal<S>(oracle: nat -> Attempt<S>, maxRetries: int, baseDelayMs: nat)
    ensures !(0 < maxRetries && FailedTransiently(oracle(0))) ==>
              var turn := TurnEvents(oracle(0), 0, maxRetries, baseDelayMs);
              && LastAttempt(oracle, 0, maxRetries) == 0
              && RunEvents(oracle, 0, maxRetries, baseDelayMs) == turn
              && Count(Acquired, turn) == (if oracle(0).AcquireFails? then 0 else 1)
              && NoSleep(turn)
  {
    RetryableIff(oracle(0));
    TurnCounts(oracle(0), 0, maxRetries, baseDelayMs);
    hide FailedTransiently, Retryable, Count;
    if !(0 < maxRetries && FailedTransiently(oracle(0))) {
      var turn := TurnEvents(oracle(0), 0, maxRetries, baseDelayMs);
      assert turn + [] == turn;
      StatementsDoNotSleep(oracle(0));
    }
  }

  lemma {:induction false} StatementsDoNotSleep<S>(a: Attempt<S>)
    ensures NoSleep(Statements(a))
  {
  }

  /** A failed attempt whose ROLLBACK works runs it once, and no other attempt runs one. */
  lemma {:induction false} RollsBackIff<S>(a: Attempt<S>, i: nat, maxRetries: int, baseDelayMs: nat)
    ensures Count(RolledBack, TurnEvents(a, i, maxRetries, baseDelayMs))
         == if !a.Succeeds? && !a.AcquireFails? && !a.rollbackFails then 1 else 0
  {
    if !a.AcquireFails? {
      TurnCount(RolledBack, a, i, maxRetries, baseDelayMs);
      hide TurnEvents;
      if !a.BeginFails? {
        var end := Statements(a)[2..];
        assert Statements(a) == [Begun] + ([Called] + end);
        assert end == [] || end == [Committed] || end == [RolledBack];
        EachCount(RolledBack, end);
      }
    }
  }

  // ----- the client protocol

  datatype Phase = Idle | CheckedOut | InTransaction | Applied | Closed | Paused

  /** What may follow what on the clients of a caller that holds one client at a time. */
  function Step(phase: Phase, e: Event): Option<Phase> {
    match e
    case Acquired => if phase == Idle then Some(CheckedOut) else None
    case Begun => if phase == CheckedOut then Some(InTransaction) else None
    case Called => if phase == InTransaction then Some(Applied) else None
    case Committed => if phase == Applied then Some(Closed) else None
    case RolledBack => if phase == CheckedOut || phase == Applied then Some(Closed) else None
    case Slept(_) => if phase == Idle || phase == Paused then None else Some(Paused)
    case Released => if phase == Idle then None else Some(Idle)
  }

  /** The phase that a run of events leads to, if each of them is allowed where it comes. */
  function After(phase: Phase, events: seq<Event>): Option<Phase>
    decreases |events|
  {
    if events == [] then Some(phase)
    else match Step(phase, events[0])
         case None => None
         case Some(next) => After(next, events[1..])
  }

  function Count(e: Event, events: seq<Event>): nat {
    if events == [] then 0 else (if events[0] == e then 1 else 0) + Count(e, events[1..])
  }

  function SleptMs(events: seq<Event>): nat {
    if events == [] then 0
    else (if events[0].Slept? then events[0].ms else 0) + SleptMs(events[1..])
  }

  lemma {:induction false} CountJoins(e: Event, a: seq<Event>, b: seq<Event>)
    ensures Count(e, a + b) == Count(e, a) + Count(e, b)
  {
    if a == [] {
      assert a + b == b;
    } else {
      assert (a + b)[1..] == a[1..] + b;
      CountJoins(e, a[1..], b);
    }
  }

  lemma {:induction false} SleptJoins(a: seq<Event>, b: seq<Event>)
    ensures SleptMs(a + b) == SleptMs(a) + SleptMs(b)
  {
    if a == [] {
      assert a + b == b;
    } else {
      assert (a + b)[1..] == a[1..] + b;
      SleptJoins(a[1..], b);
    }
  }

  lemma {:induction false} AfterJoins(phase: Phase, a: seq<Event>, b: seq<Event>)
    requires After(phase, a).Some?
    ensures After(phase, a + b) == After(After(phase, a).value, b)
    decreases |a|
  {
    if a == [] {
      assert a + b == b;
    } else {
      assert (a + b)[1..] == a[1..] + b;
      AfterJoins(Step(phase, a[0]).value, a[1..], b);
    }
  }

  /**
   Over a whole run: the client protocol is kept from idle to idle, so at most one client is held,
   COMMIT follows BEGIN and one run of the callback, and the back-off sleeps with its client;
   every client acquired is released; the callback runs at most k+1 times; there is one COMMIT
   exactly when the call succeeds; and k retries sleep baseDelayMs times 2^k - 1.
   */
  lemma {:induction false} RunKeepsProtocol<S>(oracle: nat -> Attempt<S>, maxRetries: int, baseDelayMs: nat)
    ensures var events, k := RunEvents(oracle, 0, maxRetries, baseDelayMs), LastAttempt(oracle, 0, maxRetries);
            && After(Idle, events) == Some(Idle)
            && Count(Acquired, events) == Count(Released, events) == k + (if oracle(k).AcquireFails? then 0 else 1)
            && Count(Called, events) <= k + 1
            && Count(Committed, events) == (if oracle(k).Succeeds? then 1 else 0)
            && SleptMs(events) + baseDelayMs == baseDelayMs * Pow2(k)
  {
    RunAfter(oracle, 0, maxRetries, baseDelayMs);
    RunCounts(oracle, 0, maxRetries, baseDelayMs);
    RunSleeps(oracle, 0, maxRetries, baseDelayMs);
  }

  lemma {:induction false} RunAfter<S>(oracle: nat -> Attempt<S>, i: nat, maxRetries: int, baseDelayMs: nat)
    ensures After(Idle, RunEvents(oracle, i, maxRetries, baseDelayMs)) == Some(Idle)
    decreases maxRetries - i
  {
    TurnAfter(oracle(i), i, maxRetries, baseDelayMs);
    var turn := TurnEvents(oracle(i), i, maxRetries, baseDelayMs);
    if Retryable(oracle(i)) && i < maxRetries {
      RunAfter(oracle, i + 1, maxRetries, baseDelayMs);
      AfterJoins(Idle, turn, RunEvents(oracle, i + 1, maxRetries, baseDelayMs));
    } else {
      assert turn + [] == turn;
    }
  }

  lemma {:induction false} TurnAfter<S>(a: Attempt<S>, i: nat, maxRetries: int, baseDelayMs: nat)
    ensures After(Idle, TurnEvents(a, i, maxRetries, baseDelayMs)) == Some(Idle)
  {
    if !a.AcquireFails? {
      StatementsAfter(a);
      var pause, rest := Pause(a, i, maxRetries, baseDelayMs), [Released];
      var left := After(CheckedOut, Statements(a)).value;
      assert left != Idle && left != Paused;
      assert After(left, pause + rest) == Some(Idle) by {
        if pause == [] {
          assert pause + rest == rest;
        } else {
          assert (pause + rest)[1..] == rest;
        }
      }
      AfterJoins(CheckedOut, Statements(a), pause + rest);
      var turn := [Acquired] + (Statements(a) + (pause + rest));
      assert turn[1..] == Statements(a) + (pause + rest);
      assert TurnEvents(a, i, maxRetries, baseDelayMs) == turn;
    }
  }

  /** The client is then still out, with its transaction over or, where ROLLBACK failed, lost. */
  lemma {:induction false} StatementsAfter<S>(a: Attempt<S>)
    requires !a.AcquireFails?
    ensures var phase := After(CheckedOut, Statements(a));
            && phase.Some? && phase.value != Idle && phase.value != Paused
            && (a.Succeeds? || !a.rollbackFails ==> phase.value == Closed)
  {
    if !a.BeginFails? {
      var end := Statements(a)[2..];
      assert Statements(a) == [Begun] + ([Called] + end);
      AfterJoins(CheckedOut, [Begun], [Called] + end);
      AfterJoins(InTransaction, [Called], end);
      assert end == [] || end == [Committed] || end == [RolledBack];
    }
  }

  /** The counts of one turn. */
  lemma {:induction false} TurnCounts<S>(a: Attempt<S>, i: nat, maxRetries: int, baseDelayMs: nat)
    ensures var turn := TurnEvents(a, i, maxRetries, baseDelayMs);
            && Count(Acquired, turn) == Count(Released, turn) == (if a.AcquireFails? then 0 else 1)
            && Count(Called, turn) == (if a.AcquireFails? || a.BeginFails? then 0 else 1)
            && Count(Committed, turn) == (if a.Succeeds? then 1 else 0)
  {
    if !a.AcquireFails? {
      TurnCount(Acquired, a, i, maxRetries, baseDelayMs);
      TurnCount(Released, a, i, maxRetries, baseDelayMs);
      TurnCount(Called, a, i, maxRetries, baseDelayMs);
      TurnCount(Committed, a, i, maxRetries, baseDelayMs);
      StatementCounts(a);
    }
  }

  lemma {:induction false} TurnCount<S>(e: Event, a: Attempt<S>, i: nat, maxRetries: int, baseDelayMs: nat)
    requires !e.Slept? && !a.AcquireFails?
    ensures Count(e, TurnEvents(a, i, maxRetries, baseDelayMs))
         == Count(e, [Acquired]) + Count(e, Statements(a)) + Count(e, [Released])
  {
    var s, pause := Statements(a), Pause(a, i, maxRetries, baseDelayMs);
    CountJoins(e, [Acquired] + s + pause, [Released]);
    CountJoins(e, [Acquired] + s, pause);
    CountJoins(e, [Acquired], s);
    assert Count(e, pause) == 0;
  }

  lemma {:induction false} TurnSleeps<S>(a: Attempt<S>, i: nat, maxRetries: int, baseDelayMs: nat)
    ensures SleptMs(TurnEvents(a, i, maxRetries, baseDelayMs))
         == if Retryable(a) && i < maxRetries then baseDelayMs * Pow2(i) else 0
  {
    if !a.AcquireFails? {
      var s, pause := Statements(a), Pause(a, i, maxRetries, baseDelayMs);
      SleptJoins([Acquired] + s + pause, [Released]);
      SleptJoins([Acquired] + s, pause);
      SleptJoins([Acquired], s);
      StatementCounts(a);
    }
  }

  lemma {:induction false} EachCount(e: Event, end: seq<Event>)
    ensures Count(e, [Begun] + ([Called] + end)) == Count(e, [Begun]) + Count(e, [Called]) + Count(e, end)
  {
    CountJoins(e, [Begun], [Called] + end);
    CountJoins(e, [Called], end);
  }

  lemma {:induction false} StatementCounts<S>(a: Attempt<S>)
    ensures var s := Statements(a);
            && Count(Acquired, s) == Count(Released, s) == 0
            && Count(Called, s) == (if a.AcquireFails? || a.BeginFails? then 0 else 1)
            && Count(Committed, s) == (if a.Succeeds? then 1 else 0)
            && SleptMs(s) == 0
  {
    if !a.AcquireFails? && !a.BeginFails? {
      var end := Statements(a)[2..];
      assert Statements(a) == [Begun] + ([Called] + end);
      assert end == [] || end == [Committed] || end == [RolledBack];
      EachCount(Acquired, end);
      EachCount(Released, end);
      EachCount(Called, end);
      EachCount(Committed, end);
      SleptJoins([Begun], [Called] + end);
      SleptJoins([Called], end);
    }
  }

  lemma {:induction false} RunCounts<S>(oracle: nat -> Attempt<S>, i: nat, maxRetries: int, baseDelayMs: nat)
    ensures var events, k := RunEvents(oracle, i, maxRetries, baseDelayMs), LastAttempt(oracle, i, maxRetries);
            && Count(Acquired, events) == Count(Released, events)
               == k - i + (if oracle(k).AcquireFails? then 0 else 1)
            && Count(Called, events) <= k - i + 1
            && Count(Committed, events) == (if oracle(k).Succeeds? then 1 else 0)
    decreases maxRetries - i
  {
    TurnCounts(oracle(i), i, maxRetries, baseDelayMs);
    var turn := TurnEvents(oracle(i), i, maxRetries, baseDelayMs);
    if Retryable(oracle(i)) && i < maxRetries {
      RunCounts(oracle, i + 1, maxRetries, baseDelayMs);
      var rest := RunEvents(oracle, i + 1, maxRetries, baseDelayMs);
      CountJoins(Acquired, turn, rest);
      CountJoins(Released, turn, rest);
      CountJoins(Called, turn, rest);
      CountJoins(Committed, turn, rest);
    } else {
      assert turn + [] == turn;
    }
  }

  lemma {:induction false} RunSleeps<S>(oracle: nat -> Attempt<S>, i: nat, maxRetries: int, baseDelayMs: nat)
    ensures SleptMs(RunEvents(oracle, i, maxRetries, baseDelayMs)) + baseDelayMs * Pow2(i)
         == baseDelayMs * Pow2(LastAttempt(oracle, i, maxRetries))
    decreases maxRetries - i
  {
    TurnSleeps(oracle(i), i, maxRetries, baseDelayMs);
    var turn := TurnEvents(oracle(i), i, maxRetries, baseDelayMs);
    if Retryable(oracle(i)) && i < maxRetries {
      RunSleeps(oracle, i + 1, maxRetries, baseDelayMs);
      SleptJoins(turn, RunEvents(oracle, i + 1, maxRetries, baseDelayMs));
      Doubles(baseDelayMs, i);
    } else {
      assert turn + [] == turn;
    }
  }

  lemma {:induction false} Doubles(d: nat, i: nat)
    ensures d * Pow2(i + 1) == d * Pow2(i) + d * Pow2(i)
  {
    var p := Pow2(i);
    assert d * (2 * p) == d * p + d * p;
  }

  // ----- retrying one operation

  /**
   `operation(i)` is what the i-th call of the operation gives. Every call but the last failed with
   a transient error, the last one's outcome is returned and is one that is not retried, and the
   waits between them add up to the geometric sum.
   */
  method WithRetry<T>(operation: nat -> Result<T, DbError>, i: nat, retries: int, delay: nat)
    returns (r: Result<T, DbError>, calls: nat, slept: nat)
    ensures 1 <= calls && (calls == 1 || calls <= retries + 1)
    ensures forall j :: i <= j < i + calls - 1 ==> operation(j).Err? && IsTransient(operation(j).error)
    ensures r == operation(i + calls - 1)
    ensures r.Ok? || !IsTransient(r.error) || calls > retries
    ensures slept + delay == delay * Pow2(calls - 1)
    decreases retries
  {
    r := operation(i);
    calls, slept := 1, 0;
    if r.Err? && retries > 0 && IsTransient(r.error) {
      var more, waited;
      r, more, waited := WithRetry(operation, i + 1, retries - 1, delay * 2);
      calls, slept := 1 + more, delay + waited;
      Doubles(delay, more - 1);
      assert delay * 2 * Pow2(more - 1) == delay * Pow2(more - 1) + delay * Pow2(more - 1);
    }
  }
}

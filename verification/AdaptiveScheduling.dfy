/**
 The adaptive polling scheduler of the event indexer (backend/src/services/adaptiveScheduler.ts):
 the mode chosen by lag, the failure counter and its back-off, and the row in which both are kept
 across restarts. Milliseconds are reals; every write to the row may fail, which is only logged.
 */
module AdaptiveScheduling {
  datatype Mode = CaughtUp | Behind | CatchUp

  datatype Config = Config(
    caughtUpThreshold: int, aggressiveThreshold: int,
    intervalCaughtUpMs: real, intervalBehindMs: real, intervalCatchUpMs: real,
    batchSizeCaughtUp: int, batchSizeBehind: int, batchSizeCatchUp: int,
    backoffBaseMs: real, backoffMaxMs: real, backoffMultiplier: real)

  const DEFAULTS := Config(50, 100, 30000.0, 10000.0, 3000.0, 100, 200, 500, 5000.0, 135000.0, 3.0)

  datatype NextPoll = NextPoll(intervalMs: real, batchSize: int, mode: Mode, backoffMs: real)

  /** The scheduler in memory, and its row in the database. */
  datatype State = State(mode: Mode, failures: nat, savedMode: Mode, savedFailures: nat)

  datatype Call =
    | Poll(lag: int, stored: bool)
    | Success(stored: bool)
    | Failure(stored: bool)
    | Reset(stored: bool)

  function ModeForLag(c: Config, lag: int): Mode {
    if lag > c.aggressiveThreshold then CatchUp
    else if lag > c.caughtUpThreshold then Behind
    else CaughtUp
  }

  function Pow(x: real, n: nat): real {
    if n == 0 then 1.0 else x * Pow(x, n - 1)
  }

  function Min(x: real, y: real): real {
    if x <= y then x else y
  }

  function Wait(c: Config, exponent: nat): real {
    c.backoffBaseMs * Pow(c.backoffMultiplier, exponent)
  }

  function Backoff(c: Config, failures: nat): real {
    if failures == 0 then 0.0
    else
      var exponent := if failures < 10 then failures else 10;
      Min(Wait(c, exponent - 1), c.backoffMaxMs)
  }

  function Step(c: Config, s: State, call: Call): State {
    match call
    case Poll(lag, stored) =>
      var mode := ModeForLag(c, lag);
      if mode == s.mode then s
      else State(mode, 0, if stored then mode else s.savedMode, s.savedFailures)
    case Success(stored) => s.(failures := 0, savedFailures := if stored then 0 else s.savedFailures)
    case Failure(stored) =>
      s.(failures := s.failures + 1, savedFailures := if stored then s.failures + 1 else s.savedFailures)
    case Reset(stored) => s.(failures := 0, savedFailures := if stored then 0 else s.savedFailures)
  }

  class AdaptiveScheduler {
    const config: Config
    var currentMode: Mode
    var consecutiveFailures: nat
    var savedMode: Mode
    var savedFailures: nat

    ghost function Now(): State
      reads this
    {
      State(currentMode, consecutiveFailures, savedMode, savedFailures)
    }

    /** A new object, and what `initialize` makes of the row: defaults, if it cannot be read. */
    constructor (config: Config, rowMode: Mode, rowFailures: nat, readable: bool)
      ensures this.config == config
      ensures Now() == Restarted(rowMode, rowFailures, readable)
    {
      this.config := config;
      savedMode, savedFailures := rowMode, rowFailures;
      currentMode, consecutiveFailures := CaughtUp, 0;
      new;
      if readable {
        currentMode, consecutiveFailures := rowMode, rowFailures;
      }
    }

    method CalculateBackoff() returns (backoffMs: real)
      ensures backoffMs == Backoff(config, consecutiveFailures)
    {
      if consecutiveFailures == 0 {
        return 0.0;
      }
      var exponent := if consecutiveFailures < 10 then consecutiveFailures else 10;
      return Min(Wait(config, exponent - 1), config.backoffMaxMs);
    }

    method CalculateNextPoll(lag: int, stored: bool) returns (next: NextPoll)
      modifies this
      ensures Now() == Step(config, old(Now()), Poll(lag, stored))
      ensures next.mode == ModeForLag(config, lag)
      ensures next.backoffMs == Backoff(config, consecutiveFailures)
      ensures match next.mode
              case CaughtUp =>
                next.intervalMs == config.intervalCaughtUpMs && next.batchSize == config.batchSizeCaughtUp
              case Behind =>
                next.intervalMs == config.intervalBehindMs && next.batchSize == config.batchSizeBehind
              case CatchUp =>
                next.intervalMs == config.intervalCatchUpMs && next.batchSize == config.batchSizeCatchUp
    {
      var newMode := ModeForLag(config, lag);
      if newMode != currentMode {
        if stored {
          savedMode := newMode;
        }
        currentMode := newMode;
        consecutiveFailures := 0;
      }
      var intervalMs, batchSize := config.intervalCaughtUpMs, config.batchSizeCaughtUp;
      match currentMode {
        case CaughtUp =>
        case Behind => intervalMs, batchSize := config.intervalBehindMs, config.batchSizeBehind;
        case CatchUp => intervalMs, batchSize := config.intervalCatchUpMs, config.batchSizeCatchUp;
      }
      var backoffMs := CalculateBackoff();
      return NextPoll(intervalMs, batchSize, currentMode, backoffMs);
    }

    method RecordSuccess(stored: bool)
      modifies this
      ensures Now() == Step(config, old(Now()), Success(stored))
    {
      if consecutiveFailures > 0 {
        consecutiveFailures := 0;
      }
      if stored {
        savedFailures := 0;
      }
    }

    method RecordFailure(stored: bool) returns (backoffMs: real)
      modifies this
      ensures Now() == Step(config, old(Now()), Failure(stored))
      ensures backoffMs == Backoff(config, old(consecutiveFailures) + 1)
    {
      consecutiveFailures := consecutiveFailures + 1;
      backoffMs := CalculateBackoff();
      if stored {
        savedFailures := consecutiveFailures;
      }
    }

    method ResetBackoff(stored: bool)
      modifies this
      ensures Now() == Step(config, old(Now()), Reset(stored))
    {
      consecutiveFailures := 0;
      if stored {
        savedFailures := 0;
      }
    }
  }

  function Restarted(rowMode: Mode, rowFailures: nat, readable: bool): State {
    State(if readable then rowMode else CaughtUp, if readable then rowFailures else 0, rowMode, rowFailures)
  }

  // ----- the mode

  function Rank(m: Mode): nat {
    match m
    case CaughtUp => 0
    case Behind => 1
    case CatchUp => 2
  }

  /** The three ranges of lag; with ordered thresholds they are up to the first, up to the second, and above. */
  lemma {:induction false} ModeRanges(c: Config, lag: int)
    ensures ModeForLag(c, lag) == CaughtUp <==> lag <= c.caughtUpThreshold && lag <= c.aggressiveThreshold
    ensures ModeForLag(c, lag) == Behind <==> c.caughtUpThreshold < lag <= c.aggressiveThreshold
    ensures ModeForLag(c, lag) == CatchUp <==> lag > c.aggressiveThreshold
    ensures ModeForLag(DEFAULTS, 50) == CaughtUp && ModeForLag(DEFAULTS, 51) == ModeForLag(DEFAULTS, 100) == Behind
    ensures ModeForLag(DEFAULTS, 101) == CatchUp
  {
  }

  /**
   A larger lag never selects a slower mode, ordered thresholds or not; order decides only whether
   Behind is ever used.
   */
  lemma {:induction false} ModeIsMonotone(c: Config, lag: int, more: int)
    ensures lag <= more ==> Rank(ModeForLag(c, lag)) <= Rank(ModeForLag(c, more))
    ensures (exists l :: ModeForLag(c, l) == Behind) <==> c.caughtUpThreshold < c.aggressiveThreshold
  {
    if c.caughtUpThreshold < c.aggressiveThreshold {
      assert ModeForLag(c, c.aggressiveThreshold) == Behind;
    }
  }

  // ----- runs

  function Run(c: Config, s: State, calls: seq<Call>): State {
    if calls == [] then s else Step(c, Run(c, s, calls[..|calls| - 1]), calls[|calls| - 1])
  }

  /** The mode is a matter of the polls alone: the one that the last lag determines, or the initial one. */
  function LastMode(c: Config, initial: Mode, calls: seq<Call>): Mode {
    if calls == [] then initial
    else if calls[|calls| - 1].Poll? then ModeForLag(c, calls[|calls| - 1].lag)
    else LastMode(c, initial, calls[..|calls| - 1])
  }

  lemma {:induction false} ModeIsOfLastPoll(c: Config, s: State, calls: seq<Call>)
    ensures Run(c, s, calls).mode == LastMode(c, s.mode, calls)
  {
    if calls == [] {
    } else {
      ModeIsOfLastPoll(c, s, calls[..|calls| - 1]);
    }
  }

  /** Call `i` is a success, a reset, or a poll whose lag asks for another mode than the one before it. */
  predicate Clears(c: Config, initial: Mode, calls: seq<Call>, i: nat)
    requires i < |calls|
  {
    match calls[i]
    case Poll(lag, _) => ModeForLag(c, lag) != LastMode(c, initial, calls[..i])
    case Success(_) => true
    case Failure(_) => false
    case Reset(_) => true
  }

  function Failures(calls: seq<Call>): nat {
    if calls == [] then 0
    else Failures(calls[..|calls| - 1]) + if calls[|calls| - 1].Failure? then 1 else 0
  }

  /** Just after the last call that clears, or at the start when none does. */
  function LastClear(c: Config, initial: Mode, calls: seq<Call>): (k: nat)
    ensures k <= |calls|
  {
    if calls == [] then 0
    else if Clears(c, initial, calls, |calls| - 1) then |calls|
    else LastClear(c, initial, calls[..|calls| - 1])
  }

  lemma {:induction false} ClearsInPrefix(c: Config, initial: Mode, calls: seq<Call>, n: nat, i: nat)
    requires i < n <= |calls|
    ensures Clears(c, initial, calls[..n], i) == Clears(c, initial, calls, i)
  {
    assert calls[..n][..i] == calls[..i];
  }

  lemma {:induction false} LastClearIs(c: Config, initial: Mode, calls: seq<Call>)
    ensures var k := LastClear(c, initial, calls);
            && (k > 0 ==> Clears(c, initial, calls, k - 1))
            && (forall i :: k <= i < |calls| ==> !Clears(c, initial, calls, i))
  {
    if calls == [] {
    } else {
      var n := |calls| - 1;
      LastClearIs(c, initial, calls[..n]);
      var k := LastClear(c, initial, calls);
      if k <= n {
        if k > 0 {
          ClearsInPrefix(c, initial, calls, n, k - 1);
        }
        forall i | k <= i < n ensures !Clears(c, initial, calls, i) {
          ClearsInPrefix(c, initial, calls, n, i);
        }
      }
    }
  }

  lemma {:induction false} FailuresSince(c: Config, s: State, calls: seq<Call>)
    ensures var k := LastClear(c, s.mode, calls);
            Run(c, s, calls).failures == (if k == 0 then s.failures else 0) + Failures(calls[k..])
  {
    if calls == [] {
    } else {
      var n := |calls| - 1;
      FailuresSince(c, s, calls[..n]);
      ModeIsOfLastPoll(c, s, calls[..n]);
      var k := LastClear(c, s.mode, calls);
      if k <= n {
        assert calls[k..][..n - k] == calls[..n][k..];
        assert calls[k..][n - k] == calls[n];
      } else {
        assert calls[k..] == [];
      }
    }
  }

  /**
   After any run, the counter is the failures since the last clearing call, on top of the initial count
   if there was none.
   */
  lemma {:induction false} CountsFailures(c: Config, s: State, calls: seq<Call>)
    ensures exists k: nat ::
              && k <= |calls|
              && Run(c, s, calls).failures == (if k == 0 then s.failures else 0) + Failures(calls[k..])
              && (k > 0 ==> Clears(c, s.mode, calls, k - 1))
              && (forall i :: k <= i < |calls| ==> !Clears(c, s.mode, calls, i))
  {
    FailuresSince(c, s, calls);
    LastClearIs(c, s.mode, calls);
    var k := LastClear(c, s.mode, calls);
    assert Failures(calls[k..]) >= 0;
  }

  // ----- the back-off

  lemma {:induction false} PowPositive(x: real, n: nat)
    requires x > 0.0
    ensures Pow(x, n) > 0.0
  {
    if n == 0 {
    } else {
      PowPositive(x, n - 1);
    }
  }

  lemma {:induction false} PowGrows(x: real, m: nat, n: nat)
    requires x >= 1.0 && m <= n
    ensures 1.0 <= Pow(x, m) <= Pow(x, n)
    decreases n
  {
    if n == 0 {
    } else {
      if m < n {
        PowGrows(x, m, n - 1);
        NotSmaller(x, Pow(x, n - 1));
      } else {
        PowGrows(x, n - 1, n - 1);
        NotSmaller(x, Pow(x, n - 1));
      }
    }
  }

  lemma {:induction false} NotSmaller(x: real, p: real)
    requires x >= 1.0 && p >= 0.0
    ensures x * p >= p
  {
    assert (x - 1.0) * p >= 0.0;
  }

  lemma {:induction false} WaitIsPositive(c: Config, e: nat)
    requires c.backoffBaseMs > 0.0 && c.backoffMultiplier > 0.0
    ensures Wait(c, e) > 0.0
  {
    PowPositive(c.backoffMultiplier, e);
    Product(c.backoffBaseMs, Pow(c.backoffMultiplier, e));
  }

  lemma {:induction false} Product(x: real, y: real)
    requires x > 0.0
    ensures y > 0.0 ==> x * y > 0.0
    ensures y >= 0.0 ==> x * y >= 0.0
  {
  }

  lemma {:induction false} WaitsGrow(c: Config, d: nat, e: nat)
    requires c.backoffBaseMs > 0.0 && c.backoffMultiplier >= 1.0 && d <= e
    ensures Wait(c, d) <= Wait(c, e)
    ensures c.backoffMultiplier > 1.0 && d < e ==> Wait(c, d) < Wait(c, e)
  {
    var x, p, q := c.backoffBaseMs, Pow(c.backoffMultiplier, d), Pow(c.backoffMultiplier, e);
    PowGrows(c.backoffMultiplier, d, e);
    Product(x, q - p);
    assert x * q - x * p == x * (q - p);
    if c.backoffMultiplier > 1.0 && d < e {
      PowGrows(c.backoffMultiplier, d + 1, e);
      Product(c.backoffMultiplier - 1.0, p);
      assert Pow(c.backoffMultiplier, d + 1) == c.backoffMultiplier * p;
      assert (c.backoffMultiplier - 1.0) * p == c.backoffMultiplier * p - p;
    }
  }

  /**
   There is a wait exactly when there are failures; it never exceeds the maximum, and more failures
   never shorten it.
   */
  lemma {:induction false} BackoffIsOrderly(c: Config, m: nat, n: nat)
    requires c.backoffBaseMs > 0.0 && c.backoffMaxMs > 0.0 && c.backoffMultiplier > 0.0
    ensures Backoff(c, n) == 0.0 <==> n == 0
    ensures 0.0 <= Backoff(c, n) <= c.backoffMaxMs
    ensures c.backoffMultiplier >= 1.0 && m <= n ==> Backoff(c, m) <= Backoff(c, n)
  {
    hide Wait;
    if n > 0 {
      var i, j := (if m < 10 then m else 10) - 1, (if n < 10 then n else 10) - 1;
      WaitIsPositive(c, j);
      if c.backoffMultiplier >= 1.0 && 0 < m <= n {
        WaitsGrow(c, i, j);
      }
    }
  }

  /** The back-off without the clamp on the exponent. */
  function Unclamped(c: Config, failures: nat): real {
    if failures == 0 then 0.0 else Min(Wait(c, failures - 1), c.backoffMaxMs)
  }

  /**
   The clamp on the exponent cannot be observed exactly when ten failures already reach the maximum, or
   waits do not grow at all.
   */
  lemma {:induction false} ClampIsInvisibleIff(c: Config)
    requires c.backoffBaseMs > 0.0 && c.backoffMultiplier >= 1.0
    ensures (forall n: nat :: Backoff(c, n) == Unclamped(c, n))
       <==> c.backoffMultiplier == 1.0 || Wait(c, 9) >= c.backoffMaxMs
  {
    hide Wait;
    if c.backoffMultiplier == 1.0 || Wait(c, 9) >= c.backoffMaxMs {
      forall n: nat ensures Backoff(c, n) == Unclamped(c, n) {
        if n > 10 {
          WaitsGrow(c, 9, n - 1);
          if c.backoffMultiplier == 1.0 {
            ConstantWait(c, 9);
            ConstantWait(c, n - 1);
          }
        }
      }
    } else {
      WaitsGrow(c, 9, 10);
      assert Backoff(c, 11) != Unclamped(c, 11);
    }
  }

  lemma {:induction false} ConstantWait(c: Config, e: nat)
    requires c.backoffMultiplier == 1.0
    ensures Wait(c, e) == c.backoffBaseMs
  {
    PowOfOne(e);
  }

  /** With the default configuration it cannot. */
  lemma {:induction false} DefaultClampIsInvisible()
    ensures forall n: nat :: Backoff(DEFAULTS, n) == Unclamped(DEFAULTS, n)
  {
    assert Pow(3.0, 9) == 19683.0;
    ClampIsInvisibleIff(DEFAULTS);
  }

  lemma {:induction false} PowOfOne(n: nat)
    ensures Pow(1.0, n) == 1.0
  {
    if n == 0 {
    } else {
      PowOfOne(n - 1);
    }
  }

  // ----- the documented formula

  ghost predicate Falls(x: real, m: nat, n: nat) {
    0.0 < Pow(x, n) < Pow(x, m)
  }

  lemma {:induction false} SmallerProduct(x: real, p: real, q: real)
    requires 0.0 < x < 1.0 && p > 0.0 && q == x * p
    ensures 0.0 < q < p
  {
    Product(x, p);
    Product(1.0 - x, p);
    assert (1.0 - x) * p == p - q;
  }

  lemma {:induction false} PowNext(x: real, n: nat)
    ensures Pow(x, n + 1) == x * Pow(x, n)
  {
  }

  lemma {:induction false} FallsOnce(x: real, m: nat)
    requires 0.0 < x < 1.0
    ensures Falls(x, m, m + 1)
  {
    hide Pow;
    PowPositive(x, m);
    PowNext(x, m);
    SmallerProduct(x, Pow(x, m), Pow(x, m + 1));
  }

  lemma {:induction false} FallsTwice(x: real, l: nat, m: nat, n: nat)
    requires Falls(x, l, m) && Falls(x, m, n)
    ensures Falls(x, l, n)
  {
  }

  lemma {:induction false} PowShrinks(x: real, m: nat, n: nat)
    requires 0.0 < x < 1.0 && m < n
    ensures Falls(x, m, n)
    decreases n
  {
    hide Falls;
    FallsOnce(x, n - 1);
    if m == n - 1 {
    } else {
      PowShrinks(x, m, n - 1);
      FallsTwice(x, m, n - 1, n);
    }
  }

  lemma {:induction false} WaitsShrink(c: Config, d: nat, e: nat)
    requires c.backoffBaseMs > 0.0 && 0.0 < c.backoffMultiplier < 1.0 && d < e
    ensures Wait(c, e) < Wait(c, d)
  {
    var x, p, q := c.backoffBaseMs, Pow(c.backoffMultiplier, d), Pow(c.backoffMultiplier, e);
    PowShrinks(c.backoffMultiplier, d, e);
    Product(x, p - q);
    assert x * p - x * q == x * (p - q);
  }

  /**
   The formula of the code's documentation, base times multiplier to the number of failures, capped,
   gives the actual back-off exactly when there are failures and either waits do not change or both
   exponents already reach the maximum.
   */
  lemma {:induction false} DocumentedBackoffIff(c: Config, n: nat)
    requires c.backoffBaseMs > 0.0 && c.backoffMaxMs > 0.0 && c.backoffMultiplier > 0.0
    ensures var e := if n < 10 then n - 1 else 9;
            Backoff(c, n) == Min(Wait(c, n), c.backoffMaxMs)
            <==> && n > 0
                 && (c.backoffMultiplier == 1.0 || (Wait(c, e) >= c.backoffMaxMs && Wait(c, n) >= c.backoffMaxMs))
  {
    hide Wait;
    WaitIsPositive(c, n);
    if n > 0 {
      var e := if n < 10 then n - 1 else 9;
      if c.backoffMultiplier == 1.0 {
        ConstantWait(c, e);
        ConstantWait(c, n);
      } else if c.backoffMultiplier > 1.0 {
        WaitsGrow(c, e, n);
      } else {
        WaitsShrink(c, e, n);
      }
    }
  }

  /** The default waits: 5, 15, 45 and 135 seconds, and 135 from then on. */
  lemma {:induction false} DefaultWaits(n: nat)
    ensures Backoff(DEFAULTS, 0) == 0.0 && Backoff(DEFAULTS, 1) == 5000.0 && Backoff(DEFAULTS, 2) == 15000.0
    ensures Backoff(DEFAULTS, 3) == 45000.0
    ensures n >= 4 ==> Backoff(DEFAULTS, n) == 135000.0
  {
    assert Pow(3.0, 0) == 1.0 && Pow(3.0, 1) == 3.0 && Pow(3.0, 2) == 9.0 && Pow(3.0, 3) == 27.0;
    assert Backoff(DEFAULTS, 4) == 135000.0;
    if n >= 4 {
      BackoffIsOrderly(DEFAULTS, 4, n);
    }
  }

  /** The smallest case: after one failure the default configuration waits 5 seconds, not the documented 15. */
  lemma {:induction false} FirstWaitIsShorter()
    ensures Backoff(DEFAULTS, 1) == 5000.0 && Min(Wait(DEFAULTS, 1), DEFAULTS.backoffMaxMs) == 15000.0
  {
    assert Pow(3.0, 0) == 1.0 && Pow(3.0, 1) == 3.0;
  }

  // ----- across a restart

  predicate AllStored(calls: seq<Call>) {
    forall i :: 0 <= i < |calls| ==> calls[i].stored
  }

  /** A poll has changed the mode since the last success, failure or reset. */
  function PolledAway(c: Config, initial: Mode, calls: seq<Call>): bool {
    if calls == [] then false
    else if calls[|calls| - 1].Poll? then
      PolledAway(c, initial, calls[..|calls| - 1]) || Clears(c, initial, calls, |calls| - 1)
    else false
  }

  /** The last call that is not a poll was a failure; or there was none, and the counter started above 0. */
  predicate EndsFailing(initial: nat, calls: seq<Call>) {
    if calls == [] then initial > 0
    else if calls[|calls| - 1].Poll? then EndsFailing(initial, calls[..|calls| - 1])
    else calls[|calls| - 1].Failure?
  }

  /**
   With every write stored, a restart resumes the mode always, and the failure counter except when a
   poll has changed the mode since a failure that no success or reset came after: the counter that the
   poll cleared comes back, because a mode change is saved without it.
   */
  lemma {:induction false} RestartResumesIff(c: Config, s: State, calls: seq<Call>)
    requires AllStored(calls) && s.savedMode == s.mode && s.savedFailures == s.failures
    ensures var now := Run(c, s, calls);
            var resumed := Restarted(now.savedMode, now.savedFailures, true);
            && resumed.mode == now.mode
            && (resumed.failures == now.failures
                <==> !(PolledAway(c, s.mode, calls) && EndsFailing(s.failures, calls)))
  {
    SavedState(c, s, calls);
  }

  lemma {:induction false} SavedState(c: Config, s: State, calls: seq<Call>)
    requires AllStored(calls) && s.savedMode == s.mode && s.savedFailures == s.failures
    ensures var now := Run(c, s, calls);
            && now.savedMode == now.mode
            && (now.savedFailures > 0 <==> EndsFailing(s.failures, calls))
            && now.failures == (if PolledAway(c, s.mode, calls) then 0 else now.savedFailures)
  {
    if calls == [] {
    } else {
      SavedState(c, s, calls[..|calls| - 1]);
      ModeIsOfLastPoll(c, s, calls[..|calls| - 1]);
    }
  }

  /** The smallest case: one failure, then a poll that finds the indexer behind. */
  lemma {:induction false} ClearedCounterComesBack()
    ensures var s := State(CaughtUp, 0, CaughtUp, 0);
            var now := Run(DEFAULTS, s, [Failure(true), Poll(51, true)]);
            now.failures == 0 && Restarted(now.savedMode, now.savedFailures, true) == State(Behind, 1, Behind, 1)
  {
    var calls := [Failure(true), Poll(51, true)];
    assert calls[..1] == [Failure(true)] && calls[..1][..0] == [];
    assert Run(DEFAULTS, State(CaughtUp, 0, CaughtUp, 0), calls[..1]) == State(CaughtUp, 1, CaughtUp, 1);
  }
}

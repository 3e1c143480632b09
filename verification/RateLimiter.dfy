/**
 The sliding-window limiter (backend/src/middleware/distributedRateLimiter.ts): one Lua script
 that prunes, counts and extends a sorted set under a key with an expiry. Members are the
 timestamps themselves, so a sorted set is a set of integers. The script is compared with a
 log of admissions that is never pruned and never expires.
 */
module RateLimiter {
  import opened Wrappers

  /** A Redis key holding a sorted set; an absent key has no members and no expiry. */
  datatype Key = Key(members: set<int>, expiresAt: Option<int>)

  const ABSENT := Key({}, None)

  datatype Decision = Decision(allowed: bool, limit: int, remaining: int, resetAfter: int)

  function Max(a: int, b: int): int {
    if a >= b then a else b
  }

  /** math.ceil(windowMs / 1000) + 1 seconds, in milliseconds. */
  function TimeToLive(windowMs: nat): nat {
    ((windowMs + 999) / 1000 + 1) * 1000
  }

  lemma {:induction false} SomeMember(s: set<int>)
    requires s != {}
    ensures exists x :: x in s
  {
    NoMember(s);
  }

  lemma {:induction false} NoMember(s: set<int>)
    ensures (forall x :: x !in s) ==> s == {}
  {
    if forall x :: x !in s {
      assert s == {};
    }
  }

  ghost function Oldest(s: set<int>): (m: int)
    requires s != {}
    ensures m in s && forall x :: x in s ==> m <= x
  {
    SomeMember(s);
    var x :| x in s;
    if s == {x} then x
    else
      var rest := s - {x};
      assert s == rest + {x};
      var m := Oldest(rest);
      if x < m then x else m
  }

  // ----- the script

  /** The key as a command at server time `serverNow` finds it. */
  function Unexpired(key: Key, serverNow: int): Key {
    if key.expiresAt.Some? && serverNow >= key.expiresAt.value then ABSENT else key
  }

  /** ZREMRANGEBYSCORE key -inf windowStart; Redis deletes a set that becomes empty. */
  function Prune(key: Key, windowStart: int): Key {
    var kept := set m | m in key.members && m > windowStart;
    if kept == {} then ABSENT else Key(kept, key.expiresAt)
  }

  /** ZADD key now now; EXPIRE key ttl */
  function Admit(key: Key, now: int, serverNow: int, windowMs: nat): Key {
    Key(key.members + {now}, Some(serverNow + TimeToLive(windowMs)))
  }

  datatype Outcome = Outcome(key: Key, decision: Decision)

  ghost function Script(key: Key, now: int, serverNow: int, max: int, windowMs: nat): Outcome {
    var pruned := Prune(Unexpired(key, serverNow), now - windowMs);
    var count := |pruned.members|;
    var allowed := count < max;
    var key' := if allowed then Admit(pruned, now, serverNow, windowMs) else pruned;
    var resetAfter := if key'.members != {} then Oldest(key'.members) + windowMs else 0;
    Outcome(key', Decision(allowed, max, Max(0, max - count), Max(now, resetAfter)))
  }

  /** The limiter over its store of keys; a call that finds Redis down is let through unrecorded. */
  class DistributedRateLimiter {
    const max: int
    const windowMs: nat
    var keys: map<string, Key>

    constructor (max: int, windowMs: nat)
      ensures this.max == max && this.windowMs == windowMs && keys == map[]
    {
      this.max := max;
      this.windowMs := windowMs;
      keys := map[];
    }

    function KeyOf(identifier: string): Key
      reads this
    {
      if "ratelimit:" + identifier in keys then keys["ratelimit:" + identifier] else ABSENT
    }

    method CheckLimit(identifier: string, now: int, serverNow: int, up: bool) returns (d: Decision)
      modifies this`keys
      ensures !up ==> keys == old(keys) && d == Decision(true, max, max, now + windowMs)
      ensures up ==> Outcome(KeyOf(identifier), d) == Script(old(KeyOf(identifier)), now, serverNow, max, windowMs)
      ensures forall other :: other != identifier ==> KeyOf(other) == old(KeyOf(other))
    {
      if !up {
        return Decision(true, max, max, now + windowMs);
      }
      var redisKey := "ratelimit:" + identifier;
      var key := Prune(Unexpired(KeyOf(identifier), serverNow), now - windowMs);
      var count := |key.members|;
      var allowed := count < max;
      var remaining := Max(0, max - count);
      if allowed {
        key := Admit(key, now, serverNow, windowMs);
      }
      keys := keys[redisKey := key];
      var resetAfter := 0;
      if key.members != {} {
        OldestExists(key.members);
        var oldestTimestamp :| oldestTimestamp in key.members && forall m :: m in key.members ==> oldestTimestamp <= m;
        resetAfter := oldestTimestamp + windowMs;
      }
      d := Decision(allowed, max, Max(0, remaining), Max(now, resetAfter));
      forall other | other != identifier
        ensures KeyOf(other) == old(KeyOf(other))
      {
        assert ("ratelimit:" + other)[10..] == other && redisKey[10..] == identifier;
      }
    }
  }

  lemma {:induction false} OldestExists(s: set<int>)
    requires s != {}
    ensures exists m :: m in s && forall x :: x in s ==> m <= x
  {
    var m := Oldest(s);
  }

  // ----- runs

  /** One call for one identifier: the caller's clock, the server's clock, and whether Redis answers. */
  datatype Call = Call(now: int, serverNow: int, up: bool)

  datatype Config = Config(max: int, windowMs: nat)

  /** The key after a run of calls. */
  ghost function KeyAfter(c: Config, calls: seq<Call>): Key {
    if calls == [] then ABSENT
    else
      var last := calls[|calls| - 1];
      var key := KeyAfter(c, calls[..|calls| - 1]);
      if last.up then Script(key, last.now, last.serverNow, c.max, c.windowMs).key else key
  }

  /** The decision on a call made after a run. */
  ghost function DecisionAfter(c: Config, calls: seq<Call>, next: Call): Decision {
    if next.up then Script(KeyAfter(c, calls), next.now, next.serverNow, c.max, c.windowMs).decision
    else Decision(true, c.max, c.max, next.now + c.windowMs)
  }

  /** The timestamps in the half-open window of length windowMs that ends at `t`. */
  function Window(log: seq<int>, t: int, windowMs: nat): set<int> {
    set a | a in log && t - windowMs < a <= t
  }

  /** The reference: admissions kept in a log for ever, a call admitted when its window holds fewer than max. */
  function Admitted(c: Config, calls: seq<Call>): seq<int> {
    if calls == [] then []
    else
      var last := calls[|calls| - 1];
      var log := Admitted(c, calls[..|calls| - 1]);
      if last.up && |Window(log, last.now, c.windowMs)| < c.max then log + [last.now] else log
  }

  /**
   Time does not run backwards between calls, and between any two calls the server's clock
   gains at most one second on the callers'.
   */
  predicate Timely(calls: seq<Call>) {
    forall i, j :: 0 <= i < j < |calls| ==>
      && calls[i].now <= calls[j].now
      && (calls[j].serverNow - calls[i].serverNow) - (calls[j].now - calls[i].now) <= 1000
  }

  // ----- the key represents the log

  /** The call that made the last admission of a run. */
  ghost predicate LastAdmission(c: Config, calls: seq<Call>, i: nat) {
    && i < |calls|
    && (forall a :: a in Admitted(c, calls) ==> a <= calls[i].now)
    && KeyAfter(c, calls).expiresAt == Some(calls[i].serverNow + TimeToLive(c.windowMs))
  }

  /** The key holds every admission that can still matter, and expires only after all of them have aged out. */
  ghost predicate Represents(c: Config, calls: seq<Call>) {
    var key, log := KeyAfter(c, calls), Admitted(c, calls);
    && (forall m :: m in key.members ==> m in log)
    && (forall a :: a in log ==> calls != [] && a <= calls[|calls| - 1].now)
    && (forall a :: a in log && a > calls[|calls| - 1].now - c.windowMs ==> a in key.members)
    && (key.members == {} ==> key.expiresAt == None)
    && (key.members != {} ==> exists i: nat :: LastAdmission(c, calls, i))
  }

  /** EXPIRE is given the first whole number of seconds at least one second past the window. */
  lemma {:induction false} TimeToLiveCovers(windowMs: nat)
    ensures TimeToLive(windowMs) % 1000 == 0
    ensures windowMs + 1000 <= TimeToLive(windowMs) < windowMs + 2000
  {
  }

  /** What the script counts is the window of the log: neither pruning nor expiry loses an admission that matters. */
  lemma {:induction false} CountIsWindow(c: Config, calls: seq<Call>, next: Call)
    requires Timely(calls + [next]) && Represents(c, calls)
    ensures Prune(Unexpired(KeyAfter(c, calls), next.serverNow), next.now - c.windowMs).members
         == Window(Admitted(c, calls), next.now, c.windowMs)
  {
    var key, log := KeyAfter(c, calls), Admitted(c, calls);
    var n := |calls|;
    var all := calls + [next];
    TimeToLiveCovers(c.windowMs);
    if calls != [] {
      assert all[n - 1] == calls[n - 1] && all[n] == next;
      assert calls[n - 1].now <= next.now;
    }
    if Unexpired(key, next.serverNow) != key {
      var i: nat :| LastAdmission(c, calls, i);
      assert all[i] == calls[i];
      assert next.now - calls[i].now >= c.windowMs;
    }
  }

  /** The key represents the log after every timely run. */
  lemma {:induction false} KeyRepresentsLog(c: Config, calls: seq<Call>)
    requires Timely(calls)
    ensures Represents(c, calls)
    decreases |calls|
  {
    if calls == [] {
    } else {
      var n := |calls| - 1;
      var before, last := calls[..n], calls[n];
      assert calls == before + [last];
      assert Timely(before);
      KeyRepresentsLog(c, before);
      if last.up {
        AnsweredCallRepresents(c, before, last);
      } else {
        UnansweredCallRepresents(c, before, last);
      }
    }
  }

  lemma {:induction false} UnansweredCallRepresents(c: Config, before: seq<Call>, last: Call)
    requires Timely(before + [last]) && Represents(c, before) && !last.up
    ensures Represents(c, before + [last])
  {
    var calls := before + [last];
    assert calls[..|calls| - 1] == before;
    if before != [] {
      assert calls[|before| - 1] == before[|before| - 1];
      assert calls[|before|] == last && before[|before| - 1].now <= last.now;
    }
    if KeyAfter(c, before).members != {} {
      var i: nat :| LastAdmission(c, before, i);
      assert calls[i] == before[i];
      assert LastAdmission(c, calls, i);
    }
  }

  lemma {:induction false} AnsweredCallRepresents(c: Config, before: seq<Call>, last: Call)
    requires Timely(before + [last]) && Represents(c, before) && last.up
    ensures Represents(c, before + [last])
  {
    var pruned := Prune(Unexpired(KeyAfter(c, before), last.serverNow), last.now - c.windowMs);
    CountIsWindow(c, before, last);
    KeyStep(c, before, last, pruned);
    AdmittedStep(c, before, last);
    LogPrecedes(c, before, last);
    hide Represents, KeyAfter, Admitted, Prune, Unexpired, Timely, Window;
    if |pruned.members| < c.max {
      AdmittedRepresents(c, before, last, pruned);
    } else {
      KeptKeyRepresents(c, before, last, pruned);
    }
  }

  lemma {:induction false} KeyStep(c: Config, before: seq<Call>, last: Call, pruned: Key)
    requires last.up && pruned == Prune(Unexpired(KeyAfter(c, before), last.serverNow), last.now - c.windowMs)
    ensures KeyAfter(c, before + [last])
         == if |pruned.members| < c.max then Admit(pruned, last.now, last.serverNow, c.windowMs) else pruned
  {
    var calls := before + [last];
    hide Prune, Unexpired, Admit;
    assert calls[..|calls| - 1] == before && calls[|calls| - 1] == last;
  }

  lemma {:induction false} AdmittedRepresents(c: Config, before: seq<Call>, last: Call, pruned: Key)
    requires pruned.members == Window(Admitted(c, before), last.now, c.windowMs)
    requires forall a :: a in Admitted(c, before) ==> a <= last.now
    requires KeyAfter(c, before + [last]) == Admit(pruned, last.now, last.serverNow, c.windowMs)
    requires Admitted(c, before + [last]) == Admitted(c, before) + [last.now]
    ensures Represents(c, before + [last])
  {
    hide Represents, KeyAfter, Admitted, Window, TimeToLive;
    LogAfterAdmission(pruned.members, Admitted(c, before), last.now, c.windowMs);
    AdmissionRepresents(c, before + [last], pruned.members);
  }

  lemma {:induction false} LogAfterAdmission(window: set<int>, log: seq<int>, now: int, windowMs: nat)
    requires window == Window(log, now, windowMs) && forall a :: a in log ==> a <= now
    ensures forall m :: m in window + {now} ==> m in log + [now]
    ensures forall a :: a in log + [now] && a > now - windowMs ==> a in window + {now}
    ensures forall a :: a in log + [now] ==> a <= now
  {
  }

  lemma {:induction false} AdmissionRepresents(c: Config, calls: seq<Call>, window: set<int>)
    requires calls != []
    requires var last := calls[|calls| - 1];
             && KeyAfter(c, calls) == Key(window + {last.now}, Some(last.serverNow + TimeToLive(c.windowMs)))
             && (forall m :: m in window + {last.now} ==> m in Admitted(c, calls))
             && (forall a :: a in Admitted(c, calls) && a > last.now - c.windowMs ==> a in window + {last.now})
             && (forall a :: a in Admitted(c, calls) ==> a <= last.now)
    ensures Represents(c, calls)
  {
    hide KeyAfter, Admitted, TimeToLive;
    assert LastAdmission(c, calls, |calls| - 1);
  }

  lemma {:induction false} LogPrecedes(c: Config, before: seq<Call>, last: Call)
    requires Timely(before + [last]) && Represents(c, before)
    ensures forall a :: a in Admitted(c, before) ==> a <= last.now
  {
    var calls := before + [last];
    if before != [] {
      assert calls[|before| - 1] == before[|before| - 1] && calls[|before|] == last;
    }
  }

  lemma {:induction false} KeptKeyRepresents(c: Config, before: seq<Call>, last: Call, pruned: Key)
    requires Timely(before + [last]) && Represents(c, before)
    requires pruned == Prune(Unexpired(KeyAfter(c, before), last.serverNow), last.now - c.windowMs)
    requires KeyAfter(c, before + [last]) == pruned && Admitted(c, before + [last]) == Admitted(c, before)
    ensures Represents(c, before + [last])
  {
    var calls := before + [last];
    CountIsWindow(c, before, last);
    LogPrecedes(c, before, last);
    if pruned.members != {} {
      var i: nat :| LastAdmission(c, before, i);
      assert calls[i] == before[i];
      hide KeyAfter, Admitted, Timely;
      assert LastAdmission(c, calls, i);
    }
  }

  // ----- main results

  /** Expiry and pruning are unobservable: the script decides as the log that keeps everything. */
  lemma {:induction false} DecidesLikeTheLog(c: Config, calls: seq<Call>, next: Call)
    requires Timely(calls + [next]) && next.up
    ensures DecisionAfter(c, calls, next).allowed <==> |Window(Admitted(c, calls), next.now, c.windowMs)| < c.max
    ensures DecisionAfter(c, calls, next).remaining == Max(0, c.max - |Window(Admitted(c, calls), next.now, c.windowMs)|)
  {
    TimelyPrefix(calls, next);
    KeyRepresentsLog(c, calls);
    hide Represents, Timely, KeyAfter, Admitted, Prune, Unexpired, Window;
    CountIsWindow(c, calls, next);
  }

  lemma {:induction false} TimelyPrefix(calls: seq<Call>, next: Call)
    requires Timely(calls + [next])
    ensures Timely(calls)
  {
    var all := calls + [next];
    assert forall i :: 0 <= i < |calls| ==> all[i] == calls[i];
  }

  lemma {:induction false} SubsetSize(a: set<int>, b: set<int>)
    requires a <= b
    ensures |a| <= |b|
    ensures a < b ==> |a| < |b|
  {
    assert b == a + (b - a);
  }

  /** Safety: no half-open window of length windowMs, wherever it ends, holds more than max admissions. */
  lemma {:induction false} WindowsAreBounded(c: Config, calls: seq<Call>, t: int)
    requires Timely(calls)
    ensures |Window(Admitted(c, calls), t, c.windowMs)| <= Max(0, c.max)
    decreases |calls|
  {
    if calls == [] {
    } else {
      var n := |calls| - 1;
      var before, last := calls[..n], calls[n];
      assert calls == before + [last];
      TimelyPrefix(before, last);
      WindowsAreBounded(c, before, t);
      var log := Admitted(c, before);
      if Admitted(c, calls) == log + [last.now] && t - c.windowMs < last.now <= t {
        LogIsPast(c, calls);
        var window := Window(log, last.now, c.windowMs);
        if last.up && |window| < c.max {
          SubsetSize(Window(log + [last.now], t, c.windowMs) - {last.now}, window);
        }
      } else {
        assert Window(Admitted(c, calls), t, c.windowMs) == Window(log, t, c.windowMs);
      }
    }
  }

  /** No admission lies in the future of the last call. */
  lemma {:induction false} LogIsPast(c: Config, calls: seq<Call>)
    requires Timely(calls) && calls != []
    ensures forall a :: a in Admitted(c, calls) ==> a <= calls[|calls| - 1].now
  {
    KeyRepresentsLog(c, calls);
  }

  /** Exactness: a request is refused only when exactly max admissions lie in its window. */
  lemma {:induction false} RefusedOnlyWhenFull(c: Config, calls: seq<Call>, next: Call)
    requires Timely(calls + [next]) && next.up && c.max >= 0
    ensures !DecisionAfter(c, calls, next).allowed
       <==> |Window(Admitted(c, calls), next.now, c.windowMs)| == c.max
  {
    TimelyPrefix(calls, next);
    DecidesLikeTheLog(c, calls, next);
    WindowsAreBounded(c, calls, next.now);
  }

  /** A refused caller that comes back with nobody admitted meanwhile is let in exactly from resetAfter on. */
  lemma {:induction false} RetryAfterReset(c: Config, calls: seq<Call>, refused: Call, meanwhile: seq<Call>,
                                           retry: Call)
    requires c.max >= 1 && refused.up && retry.up
    requires Timely(calls + [refused] + meanwhile + [retry])
    requires !DecisionAfter(c, calls, refused).allowed
    requires Admitted(c, calls + [refused] + meanwhile) == Admitted(c, calls)
    ensures DecisionAfter(c, calls + [refused] + meanwhile, retry).allowed
       <==> retry.now >= DecisionAfter(c, calls, refused).resetAfter
  {
    var log := Admitted(c, calls);
    var full, later := Window(log, refused.now, c.windowMs), Window(log, retry.now, c.windowMs);
    TimelyParts(calls, refused, meanwhile, retry);
    DecidesLikeTheLog(c, calls, refused);
    DecidesLikeTheLog(c, calls + [refused] + meanwhile, retry);
    RefusedOnlyWhenFull(c, calls, refused);
    ResetIsOldest(c, calls, refused);
    hide DecisionAfter, Admitted;
    var oldest := Oldest(full);
    PastLog(c, calls, refused);
    assert later <= full;
    if retry.now >= oldest + c.windowMs {
      assert oldest !in later;
      SubsetSize(later, full);
    } else {
      assert later == full;
    }
  }

  lemma {:induction false} TimelyParts(calls: seq<Call>, refused: Call, meanwhile: seq<Call>, retry: Call)
    requires Timely(calls + [refused] + meanwhile + [retry])
    ensures Timely(calls + [refused]) && refused.now <= retry.now
  {
    var all := calls + [refused] + meanwhile + [retry];
    assert all[|calls|] == refused && all[|all| - 1] == retry;
    assert forall i :: 0 <= i <= |calls| ==> (calls + [refused])[i] == all[i];
  }

  lemma {:induction false} PastLog(c: Config, calls: seq<Call>, next: Call)
    requires Timely(calls + [next])
    ensures forall a :: a in Admitted(c, calls) ==> a <= next.now
  {
    TimelyPrefix(calls, next);
    if calls != [] {
      var all := calls + [next];
      assert all[|calls| - 1] == calls[|calls| - 1] && all[|calls|] == next;
      LogIsPast(c, calls);
    }
  }

  lemma {:induction false} ResetIsOldest(c: Config, calls: seq<Call>, refused: Call)
    requires c.max >= 1 && refused.up && Timely(calls + [refused])
    requires !DecisionAfter(c, calls, refused).allowed
    ensures var full := Window(Admitted(c, calls), refused.now, c.windowMs);
            full != {} && DecisionAfter(c, calls, refused).resetAfter == Oldest(full) + c.windowMs
  {
    TimelyPrefix(calls, refused);
    KeyRepresentsLog(c, calls);
    CountIsWindow(c, calls, refused);
    var full := Window(Admitted(c, calls), refused.now, c.windowMs);
    RefusedOnlyWhenFull(c, calls, refused);
    assert full != {};
    assert Oldest(full) in full;
  }

  /** `t` is the oldest of `s`. */
  ghost predicate IsOldest(t: int, s: set<int>) {
    t in s && forall x :: x in s ==> t <= x
  }

  /**
   The decision for a caller with `window` admissions behind it: its own limit, admission while the
   window holds fewer than max, and as reset time the moment the oldest admission in the window ages
   out, the new one counted, but not a moment before now.
   */
  ghost predicate Decides(d: Decision, window: set<int>, now: int, max: int, windowMs: nat) {
    var counted := if |window| < max then window + {now} else window;
    && d.limit == max
    && (d.allowed <==> |window| < max)
    && (counted == {} ==> d.resetAfter == Max(now, 0))
    && (counted != {} ==> exists t :: IsOldest(t, counted) && d.resetAfter == Max(now, t + windowMs))
  }

  lemma {:induction false} ScriptDecides(key: Key, now: int, serverNow: int, max: int, windowMs: nat)
    ensures Decides(Script(key, now, serverNow, max, windowMs).decision,
                    Prune(Unexpired(key, serverNow), now - windowMs).members, now, max, windowMs)
  {
    var held := Prune(Unexpired(key, serverNow), now - windowMs).members;
    var counted := if |held| < max then held + {now} else held;
    var d := Script(key, now, serverNow, max, windowMs).decision;
    if counted != {} {
      assert IsOldest(Oldest(counted), counted);
      assert d.resetAfter == Max(now, Oldest(counted) + windowMs);
    }
  }

  /** The whole decision, read off the log. */
  lemma {:induction false} DecisionIsExact(c: Config, calls: seq<Call>, next: Call)
    requires Timely(calls + [next]) && next.up
    ensures Decides(DecisionAfter(c, calls, next), Window(Admitted(c, calls), next.now, c.windowMs),
                    next.now, c.max, c.windowMs)
  {
    TimelyPrefix(calls, next);
    KeyRepresentsLog(c, calls);
    CountIsWindow(c, calls, next);
    ScriptDecides(KeyAfter(c, calls), next.now, next.serverNow, c.max, c.windowMs);
    hide Script, Represents, Timely, KeyAfter, Admitted, Prune, Unexpired, Window, Decides;
  }

  /**
   The number reported as remaining does not yet count the request it answers: it is what is left
   exactly when the window was full, when the request's timestamp was in it, or when it is empty by
   definition, and one more otherwise.
   */
  lemma {:induction false} RemainingPrecedesAdmission(c: Config, calls: seq<Call>, next: Call)
    requires Timely(calls + [next]) && next.up
    ensures var window := Window(Admitted(c, calls), next.now, c.windowMs);
            var left := Max(0, c.max - |Window(Admitted(c, calls + [next]), next.now, c.windowMs)|);
            var exact := |window| >= c.max || next.now in window || c.windowMs == 0;
            && DecisionAfter(c, calls, next).remaining == left + (if exact then 0 else 1)
            && (DecisionAfter(c, calls, next).remaining == left <==> exact)
  {
    DecidesLikeTheLog(c, calls, next);
    AdmittedStep(c, calls, next);
    hide DecisionAfter, Timely, Window;
    var log := Admitted(c, calls);
    WindowWithNow(log, next.now, c.windowMs);
    assert Admitted(c, calls + [next]) == if |Window(log, next.now, c.windowMs)| < c.max then log + [next.now] else log;
    hide Admitted;
  }

  lemma {:induction false} WindowWithNow(log: seq<int>, now: int, windowMs: nat)
    ensures var window := Window(log, now, windowMs);
            |Window(log + [now], now, windowMs)| == |window| + if now in window || windowMs == 0 then 0 else 1
  {
    var window := Window(log, now, windowMs);
    if windowMs == 0 {
      assert window == {} && Window(log + [now], now, windowMs) == {};
    } else {
      assert Window(log + [now], now, windowMs) == window + {now};
    }
  }

  // ----- equal timestamps

  predicate StrictlyIncreasing(s: seq<int>) {
    forall i, j :: 0 <= i < j < |s| ==> s[i] < s[j]
  }

  /** When time strictly increases, no two admissions share a member, so the windows count admissions. */
  lemma {:induction false} AdmissionsAreDistinct(c: Config, calls: seq<Call>)
    requires Timely(calls) && forall i, j :: 0 <= i < j < |calls| ==> calls[i].now < calls[j].now
    ensures StrictlyIncreasing(Admitted(c, calls))
    decreases |calls|
  {
    if calls == [] {
    } else {
      var before, last := calls[..|calls| - 1], calls[|calls| - 1];
      assert calls == before + [last];
      TimelyPrefix(before, last);
      AdmissionsAreDistinct(c, before);
      StrictlyPast(c, before, last);
      AdmittedStep(c, before, last);
      AppendLater(Admitted(c, before), last.now);
    }
  }

  lemma {:induction false} AdmittedStep(c: Config, before: seq<Call>, last: Call)
    ensures Admitted(c, before + [last])
         == if last.up && |Window(Admitted(c, before), last.now, c.windowMs)| < c.max
            then Admitted(c, before) + [last.now] else Admitted(c, before)
  {
    assert (before + [last])[..|before + [last]| - 1] == before;
  }

  lemma {:induction false} StrictlyPast(c: Config, before: seq<Call>, last: Call)
    requires Timely(before) && forall i :: 0 <= i < |before| ==> before[i].now < last.now
    ensures forall a :: a in Admitted(c, before) ==> a < last.now
  {
    if before != [] {
      LogIsPast(c, before);
    }
  }

  lemma {:induction false} AppendLater(log: seq<int>, x: int)
    requires StrictlyIncreasing(log) && forall a :: a in log ==> a < x
    ensures StrictlyIncreasing(log + [x])
  {
    assert forall i :: 0 <= i < |log| ==> log[i] in log;
  }

  /** Admissions in the window, counted one by one. */
  function CountInWindow(log: seq<int>, t: int, windowMs: nat): nat {
    if log == [] then 0
    else
      var last := log[|log| - 1];
      CountInWindow(log[..|log| - 1], t, windowMs) + if t - windowMs < last <= t then 1 else 0
  }

  lemma {:induction false} CountIsCardinality(log: seq<int>, t: int, windowMs: nat)
    requires StrictlyIncreasing(log)
    ensures CountInWindow(log, t, windowMs) == |Window(log, t, windowMs)|
  {
    if log == [] {
      assert Window(log, t, windowMs) == {};
    } else {
      CountIsCardinality(log[..|log| - 1], t, windowMs);
      WindowOfLast(log, t, windowMs);
    }
  }

  lemma {:induction false} WindowOfLast(log: seq<int>, t: int, windowMs: nat)
    requires StrictlyIncreasing(log) && log != []
    ensures var last := log[|log| - 1];
            |Window(log, t, windowMs)|
            == |Window(log[..|log| - 1], t, windowMs)| + if t - windowMs < last <= t then 1 else 0
  {
    var before, last := log[..|log| - 1], log[|log| - 1];
    assert last !in before;
    assert forall a :: a in log <==> a in before || a == last by {
      assert log == before + [last];
    }
    assert Window(log, t, windowMs)
        == Window(before, t, windowMs) + if t - windowMs < last <= t then {last} else {};
  }

  /** With strictly increasing clocks, at most max requests are admitted in any window. */
  lemma {:induction false} AtMostMaxAdmissions(c: Config, calls: seq<Call>, t: int)
    requires Timely(calls) && forall i, j :: 0 <= i < j < |calls| ==> calls[i].now < calls[j].now
    ensures CountInWindow(Admitted(c, calls), t, c.windowMs) <= Max(0, c.max)
  {
    AdmissionsAreDistinct(c, calls);
    CountIsCardinality(Admitted(c, calls), t, c.windowMs);
    WindowsAreBounded(c, calls, t);
  }

  // ----- when equal timestamps matter

  /** The clocks of the calls that reached Redis. */
  function Answered(calls: seq<Call>): seq<int> {
    if calls == [] then []
    else
      var last := calls[|calls| - 1];
      Answered(calls[..|calls| - 1]) + if last.up then [last.now] else []
  }

  /** The log of admissions as a function of those clocks. */
  function LogOf(c: Config, clocks: seq<int>): seq<int> {
    if clocks == [] then []
    else
      var now := clocks[|clocks| - 1];
      var log := LogOf(c, clocks[..|clocks| - 1]);
      if |Window(log, now, c.windowMs)| < c.max then log + [now] else log
  }

  predicate NonDecreasing(s: seq<int>) {
    forall i, j :: 0 <= i < j < |s| ==> s[i] <= s[j]
  }

  predicate AllButLastIncrease(s: seq<int>) {
    s != [] ==> StrictlyIncreasing(s[..|s| - 1])
  }

  lemma {:induction false} AdmittedFromAnswered(c: Config, calls: seq<Call>)
    ensures Admitted(c, calls) == LogOf(c, Answered(calls))
  {
    if calls == [] {
    } else {
      var n := |calls| - 1;
      AdmittedFromAnswered(c, calls[..n]);
      if calls[n].up {
        assert Answered(calls)[..|Answered(calls)| - 1] == Answered(calls[..n]);
      } else {
        assert Answered(calls) == Answered(calls[..n]);
      }
    }
  }

  lemma {:induction false} AnsweredInOrder(calls: seq<Call>)
    requires Timely(calls)
    ensures NonDecreasing(Answered(calls))
    ensures forall x :: x in Answered(calls) ==> calls != [] && x <= calls[|calls| - 1].now
  {
    if calls == [] {
    } else {
      var n := |calls| - 1;
      assert calls == calls[..n] + [calls[n]];
      TimelyPrefix(calls[..n], calls[n]);
      AnsweredInOrder(calls[..n]);
      var earlier := Answered(calls[..n]);
      forall i | 0 <= i < |earlier| ensures earlier[i] <= calls[n].now {
        assert earlier[i] in earlier;
      }
    }
  }

  /** A run in which both clocks agree and Redis always answers. */
  function Ticks(clocks: seq<int>): seq<Call> {
    seq(|clocks|, i requires 0 <= i < |clocks| => Call(clocks[i], clocks[i], true))
  }

  lemma {:induction false} AnsweredTicks(clocks: seq<int>)
    ensures Answered(Ticks(clocks)) == clocks
  {
    if clocks == [] {
    } else {
      var n := |clocks| - 1;
      AnsweredTicks(clocks[..n]);
      assert Ticks(clocks)[..n] == Ticks(clocks[..n]);
      assert clocks == clocks[..n] + [clocks[n]];
    }
  }

  lemma {:induction false} LogMembers(c: Config, clocks: seq<int>)
    ensures forall x :: x in LogOf(c, clocks) ==> x in clocks
  {
    if clocks == [] {
    } else {
      LogMembers(c, clocks[..|clocks| - 1]);
    }
  }

  lemma {:induction false} StrictLog(c: Config, clocks: seq<int>, t: int)
    requires StrictlyIncreasing(clocks)
    ensures StrictlyIncreasing(LogOf(c, clocks))
    ensures CountInWindow(LogOf(c, clocks), t, c.windowMs) <= Max(0, c.max)
  {
    var calls := Ticks(clocks);
    AnsweredTicks(clocks);
    AdmittedFromAnswered(c, calls);
    AdmissionsAreDistinct(c, calls);
    AtMostMaxAdmissions(c, calls, t);
  }

  lemma {:induction false} LastMayRepeat(c: Config, clocks: seq<int>, t: int)
    requires NonDecreasing(clocks) && AllButLastIncrease(clocks)
    ensures CountInWindow(LogOf(c, clocks), t, c.windowMs) <= Max(0, c.max)
  {
    if clocks == [] {
    } else {
      var n := |clocks| - 1;
      var log, now := LogOf(c, clocks[..n]), clocks[n];
      StrictLog(c, clocks[..n], t);
      if |Window(log, now, c.windowMs)| < c.max {
        CountOneMore(log, now, t, c.windowMs);
        if t - c.windowMs < now <= t {
          LogMembers(c, clocks[..n]);
          WindowWithin(log, now, t, c.windowMs);
        }
      }
    }
  }

  lemma {:induction false} CountOneMore(log: seq<int>, now: int, t: int, windowMs: nat)
    ensures CountInWindow(log + [now], t, windowMs)
         == CountInWindow(log, t, windowMs) + if t - windowMs < now <= t then 1 else 0
  {
    assert (log + [now])[..|log|] == log;
  }

  lemma {:induction false} WindowWithin(log: seq<int>, now: int, t: int, windowMs: nat)
    requires StrictlyIncreasing(log) && now <= t && forall x :: x in log ==> x <= now
    ensures CountInWindow(log, t, windowMs) <= |Window(log, now, windowMs)|
  {
    CountIsCardinality(log, t, windowMs);
    SubsetSize(Window(log, t, windowMs), Window(log, now, windowMs));
  }

  function Elements(s: seq<int>): set<int> {
    set x | x in s
  }

  lemma {:induction false} ElementsSize(s: seq<int>)
    ensures |Elements(s)| <= |s|
  {
    if s == [] {
      assert Elements(s) == {};
    } else {
      var n := |s| - 1;
      ElementsSize(s[..n]);
      assert s == s[..n] + [s[n]];
      assert Elements(s) == Elements(s[..n]) + {s[n]};
    }
  }

  /** Every call up to the third of a repetition is let in, when max is the number of calls before it. */
  lemma {:induction false} AllLetIn(c: Config, clocks: seq<int>, i: nat, k: nat)
    requires i + 2 < |clocks| && clocks[i] == clocks[i + 1] && k <= i + 3 && c.max == i + 2
    ensures LogOf(c, clocks[..k]) == clocks[..k]
  {
    if k == 0 {
    } else {
      var before := clocks[..k - 1];
      AllLetIn(c, clocks, i, k - 1);
      assert clocks[..k][..k - 1] == before && clocks[..k] == before + [clocks[k - 1]];
      var window := Window(before, clocks[k - 1], c.windowMs);
      if k <= i + 2 {
        ElementsSize(before);
        SubsetSize(window, Elements(before));
      } else {
        ElementsSize(clocks[..i + 1]);
        assert forall j :: 0 <= j < |before| && j != i + 1 ==> before[j] == clocks[..i + 1][j];
        assert before[i + 1] == clocks[..i + 1][i];
        SubsetSize(window, Elements(clocks[..i + 1]));
      }
    }
  }

  lemma {:induction false} CountGrows(c: Config, clocks: seq<int>, k: nat, t: int)
    requires k <= |clocks|
    ensures CountInWindow(LogOf(c, clocks[..k]), t, c.windowMs) <= CountInWindow(LogOf(c, clocks), t, c.windowMs)
    decreases |clocks|
  {
    if k == |clocks| {
      assert clocks[..k] == clocks;
    } else {
      var n := |clocks| - 1;
      assert clocks[..n][..k] == clocks[..k];
      CountGrows(c, clocks[..n], k, t);
      var log := LogOf(c, clocks[..n]);
      assert (log + [clocks[n]])[..|log|] == log;
    }
  }

  lemma {:induction false} CountAll(log: seq<int>, t: int, windowMs: nat)
    requires forall j :: 0 <= j < |log| ==> t - windowMs < log[j] <= t
    ensures CountInWindow(log, t, windowMs) == |log|
  {
    if log == [] {
    } else {
      CountAll(log[..|log| - 1], t, windowMs);
    }
  }

  /** A repetition before the last call lets one admission too many into some window of some limit. */
  lemma {:induction false} RepetitionOverfills(clocks: seq<int>, i: nat) returns (c: Config, t: int)
    requires NonDecreasing(clocks) && i + 2 < |clocks| && clocks[i] == clocks[i + 1]
    ensures CountInWindow(LogOf(c, clocks), t, c.windowMs) > Max(0, c.max)
  {
    t := clocks[i + 2];
    c := Config(i + 2, t - clocks[0] + 1);
    AllLetIn(c, clocks, i, i + 3);
    CountGrows(c, clocks, i + 3, t);
    CountAll(clocks[..i + 3], t, c.windowMs);
  }

  /**
   Counted one by one, admissions stay within max in every window, for every limit and window length,
   exactly when no two calls that reached Redis before the last one share a millisecond.
   */
  lemma {:induction false} AdmissionsAreBoundedIff(calls: seq<Call>)
    requires Timely(calls)
    ensures (forall c: Config, t: int :: CountInWindow(Admitted(c, calls), t, c.windowMs) <= Max(0, c.max))
       <==> AllButLastIncrease(Answered(calls))
  {
    var clocks := Answered(calls);
    AnsweredInOrder(calls);
    if AllButLastIncrease(clocks) {
      forall c: Config, t: int ensures CountInWindow(Admitted(c, calls), t, c.windowMs) <= Max(0, c.max) {
        AdmittedFromAnswered(c, calls);
        LastMayRepeat(c, clocks, t);
      }
    } else {
      var n := |clocks| - 1;
      var i, j :| 0 <= i < j < |clocks[..n]| && clocks[..n][i] >= clocks[..n][j];
      assert clocks[i] <= clocks[i + 1] <= clocks[j];
      var c, t := RepetitionOverfills(clocks, i);
      AdmittedFromAnswered(c, calls);
    }
  }

  /** Calls in the same millisecond share one member: three are admitted where two are allowed. */
  lemma {:induction false} SameMillisecondMerges(now: int, serverNow: int)
    ensures var c := Config(2, 1000);
            var call := Call(now, serverNow, true);
            && Timely([call, call, call])
            && DecisionAfter(c, [], call).allowed
            && DecisionAfter(c, [call], call).allowed
            && DecisionAfter(c, [call, call], call).allowed
  {
    var c := Config(2, 1000);
    var call := Call(now, serverNow, true);
    assert [call, call][..1] == [call] && [call][..0] == [];
    assert KeyAfter(c, []) == ABSENT;
    assert Prune(ABSENT, now - 1000).members == {};
    var one := Key({now}, Some(serverNow + TimeToLive(1000)));
    assert KeyAfter(c, [call]).members == {now};
    assert TimeToLive(1000) == 2000;
    assert KeyAfter(c, [call]) == one;
    assert Prune(one, now - 1000).members == {now};
    assert KeyAfter(c, [call, call]).members == {now};
  }
}

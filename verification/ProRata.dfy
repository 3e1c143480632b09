/**
 The largest-remainder splitter (backend/src/money/decimal.ts, `splitProRata`).
 The method keeps the source's loops; it is proved against a closed form in which an entry
 gets an extra stroop exactly when its rank in the order (remainder descending, index
 ascending) is below the leftover. Exactness, fairness and optimality are then theorems
 about the closed form.
 */
module ProRata {
  import opened Wrappers
  import opened Rounding

  // ----- sums

  function Sum(s: seq<int>): int {
    if s == [] then 0 else s[0] + Sum(s[1..])
  }

  lemma {:induction false} SumAppend(s: seq<int>, x: int)
    ensures Sum(s + [x]) == Sum(s) + x
  {
    if s == [] {
      assert s + [x] == [x];
    } else {
      assert (s + [x])[1..] == s[1..] + [x];
      SumAppend(s[1..], x);
    }
  }

  lemma {:induction false} SumPrefix(s: seq<int>, i: nat)
    requires i < |s|
    ensures Sum(s[..i + 1]) == Sum(s[..i]) + s[i]
  {
    assert s[..i + 1] == s[..i] + [s[i]];
    SumAppend(s[..i], s[i]);
  }

  lemma {:induction false} SumOfBounds(s: seq<int>, lo: int, hi: int)
    requires forall i :: 0 <= i < |s| ==> lo <= s[i] <= hi
    ensures |s| * lo <= Sum(s) <= |s| * hi
  {
    if s == [] {
    } else {
      SumOfBounds(s[1..], lo, hi);
    }
  }

  lemma {:induction false} SumNonNegative(s: seq<int>)
    requires forall i :: 0 <= i < |s| ==> 0 <= s[i]
    ensures 0 <= Sum(s)
  {
    if s == [] {
    } else {
      SumNonNegative(s[1..]);
    }
  }

  /** A linear relation that holds entry by entry holds for the sums. */
  lemma {:induction false} SumLinear(r: seq<int>, s: seq<int>, t: seq<int>, a: int, b: int)
    requires |r| == |s| == |t|
    requires forall i :: 0 <= i < |r| ==> r[i] == a * s[i] + b * t[i]
    ensures Sum(r) == a * Sum(s) + b * Sum(t)
  {
    if r == [] {
    } else {
      SumLinear(r[1..], s[1..], t[1..], a, b);
      assert a * (s[0] + Sum(s[1..])) == a * s[0] + a * Sum(s[1..]);
      assert b * (t[0] + Sum(t[1..])) == b * t[0] + b * Sum(t[1..]);
    }
  }

  // ----- the order in which leftovers are handed out

  /** Entry `j` is served before entry `i`. */
  predicate Before(rem: seq<int>, j: nat, i: nat)
    requires j < |rem| && i < |rem|
  {
    rem[j] > rem[i] || (rem[j] == rem[i] && j < i)
  }

  ghost function Predecessors(rem: seq<int>, i: nat): set<nat>
    requires i < |rem|
  {
    set j: nat | j < |rem| && Before(rem, j, i)
  }

  /** The position of entry `i` in the order (remainder descending, index ascending). */
  ghost function Rank(rem: seq<int>, i: nat): nat
    requires i < |rem|
  {
    |Predecessors(rem, i)|
  }

  lemma {:induction false} SubsetCardinality<T>(a: set<T>, b: set<T>)
    requires a <= b
    ensures |a| <= |b|
    ensures |a| == |b| ==> a == b
  {
    if a != b {
      assert b == a + (b - a);
    }
  }

  ghost function UpTo(n: nat): (s: set<nat>)
    ensures forall j: nat :: j in s <==> j < n
    ensures |s| == n
  {
    if n == 0 then {} else UpTo(n - 1) + {n - 1}
  }

  lemma {:induction false} SomeUnused(picked: set<nat>, n: nat) returns (free: nat)
    requires |picked| < n
    ensures free < n && free !in picked
  {
    if UpTo(n) <= picked {
      SubsetCardinality(UpTo(n), picked);
    }
    free :| free in UpTo(n) && free !in picked;
  }

  /** A set closed under "served before" consists of the entries whose rank is below its size. */
  lemma {:induction false} InitialSegment(rem: seq<int>, picked: set<nat>, i: nat)
    requires i < |rem|
    requires forall u: nat :: u in picked ==> u < |rem|
    requires forall u: nat, v: nat :: u in picked && v < |rem| && v !in picked ==> Before(rem, u, v)
    ensures i in picked <==> Rank(rem, i) < |picked|
  {
    var p := Predecessors(rem, i);
    if i in picked {
      assert p <= picked && i !in p;
      SubsetCardinality(p, picked);
    } else {
      assert picked <= p;
      SubsetCardinality(picked, p);
    }
  }

  // ----- the closed form

  function Floors(total: int, weights: seq<int>, weightSum: int): (parts: seq<int>)
    requires weightSum > 0
    ensures |parts| == |weights|
  {
    seq(|weights|, i requires 0 <= i < |weights| => total * weights[i] / weightSum)
  }

  function Remainders(total: int, weights: seq<int>, weightSum: int): (rem: seq<int>)
    requires weightSum > 0
    ensures |rem| == |weights|
  {
    seq(|weights|, i requires 0 <= i < |weights| => total * weights[i] % weightSum)
  }

  ghost function Topped(floors: seq<int>, rem: seq<int>, leftover: int): (parts: seq<int>)
    requires |floors| == |rem|
    ensures |parts| == |floors|
  {
    seq(|floors|, i requires 0 <= i < |floors| => floors[i] + if Rank(rem, i) < leftover then 1 else 0)
  }

  /** The whole function, errors included, with the greedy loop replaced by ranks. */
  ghost function Split(total: int, weights: seq<int>): (r: Result<seq<int>, MoneyError>)
  {
    if total < 0 then Err(NegativeTotal)
    else if weights == [] then (if total == 0 then Ok([]) else Err(NoWeights))
    else if exists i :: 0 <= i < |weights| && weights[i] < 0 then Err(NegativeWeight)
    else if Sum(weights) == 0 then
      if total == 0 then Ok(seq(|weights|, i => 0)) else Err(ZeroWeightSum)
    else
      SumNonNegative(weights);
      var floors := Floors(total, weights, Sum(weights));
      var leftover := total - Sum(floors);
      if leftover < 0 || leftover >= |weights| then Err(DriftDetected)
      else Ok(Topped(floors, Remainders(total, weights, Sum(weights)), leftover))
  }

  // ----- the source's loops

  /** The inner loop: the unused entry with the largest remainder, the lowest index among equals. */
  method LargestUnused(remainders: seq<int>, used: array<bool>) returns (bestIdx: int)
    requires used.Length == |remainders|
    requires forall i :: 0 <= i < |remainders| ==> remainders[i] >= 0
    ensures bestIdx == -1 ==> forall i :: 0 <= i < |remainders| ==> used[i]
    ensures bestIdx != -1 ==> 0 <= bestIdx < |remainders| && !used[bestIdx]
    ensures bestIdx != -1 ==>
              forall j: nat :: j < |remainders| && !used[j] && j != bestIdx ==> Before(remainders, bestIdx, j)
  {
    bestIdx := -1;
    var bestRemainder := -1;
    for i := 0 to |remainders|
      invariant bestIdx == -1 ==> bestRemainder == -1 && forall j :: 0 <= j < i ==> used[j]
      invariant bestIdx != -1 ==> 0 <= bestIdx < i && !used[bestIdx] && bestRemainder == remainders[bestIdx]
      invariant bestIdx != -1 ==> forall j: nat :: j < i && !used[j] && j != bestIdx ==> Before(remainders, bestIdx, j)
    {
      if used[i] {
        continue;
      }
      var r := remainders[i];
      if r > bestRemainder {
        bestRemainder := r;
        bestIdx := i;
      }
    }
  }

  /** The outer loop: hand out the leftover one stroop at a time. */
  method HandOut(floors: seq<int>, remainders: seq<int>, leftover: nat) returns (parts: seq<int>)
    requires |floors| == |remainders| && leftover < |floors|
    requires forall i :: 0 <= i < |remainders| ==> remainders[i] >= 0
    ensures parts == Topped(floors, remainders, leftover)
  {
    var n := |floors|;
    parts := floors;
    var used := new bool[n](_ => false);
    var remaining := leftover;
    ghost var picked: set<nat> := {};
    while remaining > 0
      invariant 0 <= remaining <= leftover && |parts| == n
      invariant |picked| == leftover - remaining
      invariant forall u: nat :: u in picked ==> u < n
      invariant forall u: nat :: u < n ==> (used[u] <==> u in picked)
      invariant forall u: nat, v: nat :: u in picked && v < n && v !in picked ==> Before(remainders, u, v)
      invariant forall i :: 0 <= i < n ==> parts[i] == floors[i] + if used[i] then 1 else 0
    {
      var bestIdx := LargestUnused(remainders, used);
      ghost var free := SomeUnused(picked, n);
      assert !used[free];
      parts := parts[bestIdx := parts[bestIdx] + 1];
      used[bestIdx] := true;
      picked := picked + {bestIdx};
      remaining := remaining - 1;
    }
    forall i: nat | i < n
      ensures parts[i] == Topped(floors, remainders, leftover)[i]
    {
      InitialSegment(remainders, picked, i);
      assert used[i] <==> i in picked;
    }
  }

  /** The first loop: the floor of every share and what it leaves over. */
  method FloorShares(total: int, weights: seq<int>, weightSum: int)
    returns (parts: seq<int>, remainders: seq<int>, granted: int)
    requires weightSum > 0
    ensures parts == Floors(total, weights, weightSum)
    ensures remainders == Remainders(total, weights, weightSum)
    ensures granted == Sum(parts)
  {
    parts, remainders, granted := [], [], 0;
    for i := 0 to |weights|
      invariant |parts| == |remainders| == i
      invariant forall j :: 0 <= j < i ==> parts[j] == Floors(total, weights, weightSum)[j]
      invariant forall j :: 0 <= j < i ==> remainders[j] == Remainders(total, weights, weightSum)[j]
      invariant granted == Sum(parts)
    {
      var numerator := total * weights[i];
      FloorIsDivision(numerator, weightSum);
      var part := RoundDiv(numerator, weightSum, Floor).value;
      hide RoundDiv;
      SumAppend(parts, part);
      parts := parts + [part];
      remainders := remainders + [numerator - part * weightSum];
      granted := granted + part;
    }
  }

  method SplitProRata(total: int, weights: seq<int>) returns (r: Result<seq<int>, MoneyError>)
    ensures r == Split(total, weights)
  {
    if total < 0 {
      return Err(NegativeTotal);
    }
    if |weights| == 0 {
      return if total == 0 then Ok([]) else Err(NoWeights);
    }
    if exists i :: 0 <= i < |weights| && weights[i] < 0 {
      return Err(NegativeWeight);
    }
    var weightSum := 0;
    for i := 0 to |weights|
      invariant weightSum == Sum(weights[..i])
    {
      SumPrefix(weights, i);
      weightSum := weightSum + weights[i];
    }
    assert weights[..|weights|] == weights;
    SumNonNegative(weights);
    if weightSum == 0 {
      return if total == 0 then Ok(seq(|weights|, i => 0)) else Err(ZeroWeightSum);
    }
    var parts, remainders, granted := FloorShares(total, weights, weightSum);
    var leftover := total - granted;
    if leftover < 0 || leftover >= |weights| {
      return Err(DriftDetected);
    }
    parts := HandOut(parts, remainders, leftover);
    return Ok(parts);
  }

  // ----- exactness

  /** The inputs that are neither rejected nor answered without dividing. */
  ghost predicate Splittable(total: int, weights: seq<int>) {
    total >= 0 && (forall i :: 0 <= i < |weights| ==> weights[i] >= 0) && Sum(weights) > 0
  }

  ghost function Scaled(weights: seq<int>, k: int): (s: seq<int>)
    ensures |s| == |weights|
  {
    seq(|weights|, i requires 0 <= i < |weights| => k * weights[i])
  }

  lemma {:induction false} DivMod(a: int, d: int)
    requires d > 0
    ensures a == d * (a / d) + a % d && 0 <= a % d < d
  {
  }

  /** What the floors leave over is the sum of the remainders, counted in weight sums. */
  lemma {:induction false} LeftoverIsRemainders(total: int, weights: seq<int>, weightSum: int)
    requires weightSum > 0 && Sum(weights) == weightSum
    ensures var leftover := total - Sum(Floors(total, weights, weightSum));
            weightSum * leftover == Sum(Remainders(total, weights, weightSum))
    ensures forall r :: r in Remainders(total, weights, weightSum) ==> 0 <= r <= weightSum - 1
  {
    var floors, rem := Floors(total, weights, weightSum), Remainders(total, weights, weightSum);
    var shares := Scaled(weights, total);
    SumLinear(shares, weights, weights, total, 0);
    forall i | 0 <= i < |weights|
      ensures shares[i] == weightSum * floors[i] + 1 * rem[i]
    {
      DivMod(total * weights[i], weightSum);
    }
    SumLinear(shares, floors, rem, weightSum, 1);
    Factor(weightSum, total, Sum(floors));
  }

  lemma {:induction false} Factor(w: int, x: int, y: int)
    ensures w * x - w * y == w * (x - y)
  {
  }

  ghost function Support(rem: seq<int>, k: nat): set<nat>
    requires k <= |rem|
  {
    set i: nat | i < k && rem[i] != 0
  }

  lemma {:induction false} SupportNext(rem: seq<int>, k: nat)
    requires k < |rem|
    ensures |Support(rem, k + 1)| == |Support(rem, k)| + if rem[k] != 0 then 1 else 0
  {
    assert Support(rem, k + 1) == Support(rem, k) + if rem[k] != 0 then {k} else {};
  }

  lemma {:induction false} SumWithinSupport(rem: seq<int>, hi: int, k: nat)
    requires k <= |rem| && forall i :: 0 <= i < |rem| ==> 0 <= rem[i] <= hi
    ensures 0 <= Sum(rem[..k]) <= Repeated(|Support(rem, k)|, hi)
    ensures |Support(rem, k)| <= k
  {
    if k == 0 {
      assert Support(rem, 0) == {};
    } else {
      hide Support;
      SumWithinSupport(rem, hi, k - 1);
      SumPrefix(rem, k - 1);
      SupportNext(rem, k - 1);
    }
  }

  ghost function Repeated(n: nat, x: int): int {
    if n == 0 then 0 else Repeated(n - 1, x) + x
  }

  lemma {:induction false} RepeatedIsProduct(n: nat, x: int)
    ensures Repeated(n, x) == n * x
  {
    if n == 0 {
    } else {
      RepeatedIsProduct(n - 1, x);
    }
  }

  /** The leftover is below the number of nonzero remainders, or nothing is left: the drift check cannot fire. */
  lemma {:induction false} LeftoverBounds(total: int, weights: seq<int>)
    requires Splittable(total, weights)
    ensures var rem := Remainders(total, weights, Sum(weights));
            var leftover := total - Sum(Floors(total, weights, Sum(weights)));
            0 <= leftover && (leftover == 0 || leftover < |Support(rem, |rem|)| <= |weights|)
  {
    var w := Sum(weights);
    var rem := Remainders(total, weights, w);
    LeftoverIsRemainders(total, weights, w);
    SumWithinSupport(rem, w - 1, |rem|);
    RepeatedIsProduct(|Support(rem, |rem|)|, w - 1);
    assert rem[..|rem|] == rem;
    BelowCount(w, total - Sum(Floors(total, weights, w)), |Support(rem, |rem|)|);
  }

  lemma {:induction false} BelowCount(w: int, leftover: int, count: nat)
    requires w > 0 && 0 <= w * leftover <= count * (w - 1)
    ensures 0 <= leftover && (leftover == 0 || leftover < count)
  {
    assert (count - leftover) * w >= count;
  }

  // ----- the first k entries of the order

  lemma {:induction false} FirstOf(rem: seq<int>, rest: set<nat>) returns (best: nat)
    requires rest != {} && forall j: nat :: j in rest ==> j < |rem|
    ensures best in rest
    ensures forall j: nat :: j in rest && j != best ==> Before(rem, best, j)
    decreases rest
  {
    var one :| one in rest;
    best := one;
    if rest != {one} {
      var other := FirstOf(rem, rest - {one});
      if !Before(rem, one, other) {
        best := other;
      }
      forall j: nat | j in rest && j != best
        ensures Before(rem, best, j)
      {
        assert j == one || j in rest - {one};
      }
    } else {
      assert forall j: nat :: j in rest ==> j == one;
    }
  }

  /** The k entries of lowest rank, and a remainder that separates them from the others. */
  lemma {:induction false} FirstEntries(rem: seq<int>, hi: nat, k: nat) returns (picked: set<nat>, threshold: int)
    requires k <= |rem| && forall i :: 0 <= i < |rem| ==> 0 <= rem[i] <= hi
    ensures |picked| == k && 0 <= threshold <= hi
    ensures forall i: nat :: i in picked ==> i < |rem| && rem[i] >= threshold
    ensures forall i: nat :: i < |rem| && i !in picked ==> rem[i] <= threshold
    ensures forall i: nat :: i < |rem| ==> (i in picked <==> Rank(rem, i) < k)
  {
    picked, threshold := ClosedEntries(rem, hi, k);
    forall i: nat | i < |rem|
      ensures i in picked <==> Rank(rem, i) < k
    {
      InitialSegment(rem, picked, i);
    }
  }

  lemma {:induction false} ClosedEntries(rem: seq<int>, hi: nat, k: nat) returns (picked: set<nat>, threshold: int)
    requires k <= |rem| && forall i :: 0 <= i < |rem| ==> 0 <= rem[i] <= hi
    ensures |picked| == k && 0 <= threshold <= hi
    ensures forall i: nat :: i in picked ==> i < |rem| && rem[i] >= threshold
    ensures forall i: nat :: i < |rem| && i !in picked ==> rem[i] <= threshold
    ensures forall u: nat, v: nat :: u in picked && v < |rem| && v !in picked ==> Before(rem, u, v)
  {
    if k == 0 {
      picked, threshold := {}, hi;
    } else {
      var previous, bound := ClosedEntries(rem, hi, k - 1);
      var free := SomeUnused(previous, |rem|);
      var rest := UpTo(|rem|) - previous;
      var best := FirstOf(rem, rest);
      picked, threshold := previous + {best}, rem[best];
      forall v: nat | v < |rem| && v !in picked
        ensures Before(rem, best, v)
      {
        assert v in rest;
      }
    }
  }

  lemma {:induction false} SumOfIndicator(bits: seq<int>, picked: set<nat>, k: nat)
    requires k <= |bits|
    requires forall i: nat :: i < |bits| ==> bits[i] == if i in picked then 1 else 0
    ensures Sum(bits[..k]) == |set i: nat | i < k && i in picked|
  {
    if k > 0 {
      SumOfIndicator(bits, picked, k - 1);
      SumPrefix(bits, k - 1);
      PickedBelow(picked, k - 1);
      hide Sum;
    } else {
      assert (set i: nat | i < k && i in picked) == {};
    }
  }

  lemma {:induction false} PickedBelow(picked: set<nat>, k: nat)
    ensures |set i: nat | i < k + 1 && i in picked| == |set i: nat | i < k && i in picked| + (if k in picked then 1 else 0)
  {
    var before := set i: nat | i < k && i in picked;
    assert (set i: nat | i < k + 1 && i in picked) == if k in picked then before + {k} else before;
  }

  /** Topping up distributes exactly the leftover. */
  lemma {:induction false} ToppedSum(floors: seq<int>, rem: seq<int>, hi: nat, leftover: nat)
    requires |floors| == |rem| && leftover <= |rem|
    requires forall i :: 0 <= i < |rem| ==> 0 <= rem[i] <= hi
    ensures Sum(Topped(floors, rem, leftover)) == Sum(floors) + leftover
  {
    var parts := Topped(floors, rem, leftover);
    var picked, threshold := FirstEntries(rem, hi, leftover);
    var bits := seq(|rem|, i requires 0 <= i < |rem| => if i in picked then 1 else 0);
    SumOfIndicator(bits, picked, |rem|);
    assert bits[..|rem|] == bits;
    assert (set i: nat | i < |rem| && i in picked) == picked;
    SumLinear(parts, floors, bits, 1, 1);
  }

  /** An entry whose share is exact is never topped up. */
  lemma {:induction false} NoTopUpForExactShares(total: int, weights: seq<int>, i: nat)
    requires Splittable(total, weights) && i < |weights|
    requires Remainders(total, weights, Sum(weights))[i] == 0
    ensures Rank(Remainders(total, weights, Sum(weights)), i) >= total - Sum(Floors(total, weights, Sum(weights)))
  {
    var rem := Remainders(total, weights, Sum(weights));
    LeftoverIsRemainders(total, weights, Sum(weights));
    LeftoverBounds(total, weights);
    assert Support(rem, |rem|) <= Predecessors(rem, i);
    SubsetCardinality(Support(rem, |rem|), Predecessors(rem, i));
  }

  /**
   No input reaches the drift error, and on splittable ones the parts are exact and as proportional as
   integers can be.
   */
  lemma {:induction false} SplitExact(total: int, weights: seq<int>)
    ensures Split(total, weights) != Err(DriftDetected)
    ensures Split(total, weights).Ok? ==> |Split(total, weights).value| == |weights| && Sum(Split(total, weights).value) == total
    ensures Splittable(total, weights) ==> Split(total, weights).Ok?
  {
    if Splittable(total, weights) {
      SplitOfSplittable(total, weights);
    } else if forall i :: 0 <= i < |weights| ==> weights[i] >= 0 {
      SumNonNegative(weights);
      ZeroSum(|weights|);
    }
  }

  lemma {:induction false} SplitOfSplittable(total: int, weights: seq<int>)
    requires Splittable(total, weights)
    ensures var floors := Floors(total, weights, Sum(weights));
            var parts := Topped(floors, Remainders(total, weights, Sum(weights)), total - Sum(floors));
            Split(total, weights) == Ok(parts) && Sum(parts) == total
  {
    var w := Sum(weights);
    var floors, rem := Floors(total, weights, w), Remainders(total, weights, w);
    LeftoverIsRemainders(total, weights, w);
    LeftoverBounds(total, weights);
    SplitUnfolds(total, weights);
    hide Split, Topped, Floors, Remainders;
    ToppedSum(floors, rem, w - 1, total - Sum(floors));
  }

  lemma {:induction false} SplitUnfolds(total: int, weights: seq<int>)
    requires Splittable(total, weights)
    requires 0 <= total - Sum(Floors(total, weights, Sum(weights))) < |weights|
    ensures var floors := Floors(total, weights, Sum(weights));
            Split(total, weights) == Ok(Topped(floors, Remainders(total, weights, Sum(weights)), total - Sum(floors)))
  {
    hide Floors, Remainders, Topped;
  }

  lemma {:induction false} ZeroSum(n: nat)
    ensures Sum(seq(n, i => 0)) == 0
  {
    if n == 0 {
    } else {
      ZeroSum(n - 1);
      assert seq(n, i => 0)[1..] == seq(n - 1, i => 0);
    }
  }

  lemma {:induction false} SumIsZeroIff(s: seq<int>)
    requires forall i :: 0 <= i < |s| ==> s[i] >= 0
    ensures Sum(s) == 0 <==> forall i :: 0 <= i < |s| ==> s[i] == 0
  {
    if s == [] {
    } else {
      var rest := s[1..];
      SumNonNegative(rest);
      SumIsZeroIff(rest);
      assert forall i :: 0 <= i < |rest| ==> s[i + 1] == rest[i];
      assert forall i :: 0 < i < |s| ==> s[i] == rest[i - 1];
    }
  }

  /** What is refused, and why: each error belongs to its own inputs, and every other input is split. */
  lemma {:induction false} SplitRefuses(total: int, weights: seq<int>)
    ensures var r := Split(total, weights);
            var negative := exists i :: 0 <= i < |weights| && weights[i] < 0;
            var allZero := forall i :: 0 <= i < |weights| ==> weights[i] == 0;
            && (r == Err(NegativeTotal) <==> total < 0)
            && (r == Err(NoWeights) <==> total > 0 && weights == [])
            && (r == Err(NegativeWeight) <==> total >= 0 && negative)
            && (r == Err(ZeroWeightSum) <==> total > 0 && weights != [] && allZero)
            && (r.Ok? <==> total >= 0 && !negative && (total == 0 || !allZero))
  {
    var negative := exists i :: 0 <= i < |weights| && weights[i] < 0;
    SplitExact(total, weights);
    if !negative {
      SumIsZeroIff(weights);
    }
    hide Sum, Floors, Remainders, Topped;
  }

  /** Each part is the floor or the ceiling of its exact share, and a zero weight gets nothing. */
  lemma {:induction false} PartIsFloorOrCeiling(total: int, weights: seq<int>, i: nat)
    requires Splittable(total, weights) && i < |weights|
    ensures Split(total, weights).Ok? && i < |Split(total, weights).value|
    ensures var part := Split(total, weights).value[i];
            || RoundDiv(total * weights[i], Sum(weights), Floor) == Ok(part)
            || RoundDiv(total * weights[i], Sum(weights), Ceil) == Ok(part)
    ensures weights[i] == 0 ==> Split(total, weights).value[i] == 0
  {
    PartOf(total, weights, i);
    hide RoundDiv, Split, Rank, Floors, Remainders, Splittable;
    FloorOrNext(total * weights[i], Sum(weights), Split(total, weights).value[i]);
  }

  lemma {:induction false} FloorOrNext(a: int, w: int, part: int)
    requires w > 0 && (part == a / w || (part == a / w + 1 && a % w != 0))
    ensures RoundDiv(a, w, Floor) == Ok(part) || RoundDiv(a, w, Ceil) == Ok(part)
    ensures a == 0 ==> part == 0
  {
    hide RoundDiv;
    if part == a / w {
      FloorIsDivision(a, w);
    } else {
      CeilIsNext(a, w);
    }
  }

  /** Entry by entry: the floor, plus one for the lowest ranks, which all have a nonzero remainder. */
  lemma {:induction false} PartOf(total: int, weights: seq<int>, i: nat)
    requires Splittable(total, weights) && i < |weights|
    ensures Split(total, weights).Ok? && i < |Split(total, weights).value|
    ensures var a, w := total * weights[i], Sum(weights);
            var topped := Rank(Remainders(total, weights, w), i) < total - Sum(Floors(total, weights, w));
            && Split(total, weights).value[i] == a / w + (if topped then 1 else 0)
            && (topped ==> a % w != 0)
  {
    SplitOfSplittable(total, weights);
    hide Split, Rank;
    if Remainders(total, weights, Sum(weights))[i] == 0 {
      NoTopUpForExactShares(total, weights, i);
    }
  }

  // ----- fairness

  /**
   A larger weight never gets a smaller part; equal weights differ by at most one stroop, in favour of
   the lower index.
   */
  lemma {:induction false} SplitFair(total: int, weights: seq<int>, i: nat, j: nat)
    requires Splittable(total, weights) && i < |weights| && j < |weights|
    ensures Split(total, weights).Ok? && |Split(total, weights).value| == |weights|
    ensures var parts := Split(total, weights).value;
            && (weights[i] < weights[j] ==> parts[i] <= parts[j])
            && (weights[i] == weights[j] && i < j ==> parts[j] <= parts[i] <= parts[j] + 1)
  {
    SplitExact(total, weights);
    PartOf(total, weights, i);
    PartOf(total, weights, j);
    var w := Sum(weights);
    var rem := Remainders(total, weights, w);
    if weights[i] < weights[j] {
      SharesOrdered(total, weights[i], weights[j], w);
      if rem[i] < rem[j] {
        RankOrdered(rem, j, i);
      }
    } else if weights[i] == weights[j] && i < j {
      RankOrdered(rem, i, j);
    }
    hide Split, Rank;
  }

  lemma {:induction false} RankOrdered(rem: seq<int>, j: nat, i: nat)
    requires i < |rem| && j < |rem| && Before(rem, j, i)
    ensures Rank(rem, j) < Rank(rem, i)
  {
    var a, b := Predecessors(rem, j), Predecessors(rem, i);
    assert a <= b && j in b && j !in a;
    SubsetCardinality(a, b);
  }

  lemma {:induction false} SharesOrdered(total: int, x: int, y: int, w: int)
    requires total >= 0 && w > 0 && x < y
    ensures total * x / w <= total * y / w
    ensures total * x / w == total * y / w ==> total == 0 || total * x % w < total * y % w
    ensures total == 0 ==> total * x % w == 0
  {
    MulOrdered(total, x, y);
    DivMonotone(total * x, total * y, w);
  }

  lemma {:induction false} MulOrdered(k: int, x: int, y: int)
    requires k >= 0 && x < y
    ensures k * x <= k * y && (k > 0 ==> k * x < k * y)
  {
  }

  lemma {:induction false} DivMonotone(a: int, b: int, w: int)
    requires w > 0 && a <= b
    ensures a / w <= b / w
    ensures a < b && a / w == b / w ==> a % w < b % w
  {
    DivMod(a, w);
    DivMod(b, w);
    QuotientsOrdered(a / w, a % w, b / w, b % w, w);
  }

  lemma {:induction false} QuotientsOrdered(q: int, r: int, s: int, u: int, w: int)
    requires w * q + r <= w * s + u && 0 <= r && u < w && w > 0
    ensures q <= s
  {
    assert w * (s - q) == w * s - w * q;
    NotNegative(w, s - q);
  }

  lemma {:induction false} NotNegative(w: int, x: int)
    requires w > 0 && w * x > -w
    ensures x >= 0
  {
  }

  // ----- scaling

  /** Multiplying every weight by the same positive factor changes nothing, errors included. */
  lemma {:induction false} SplitScaleInvariant(total: int, weights: seq<int>, k: int)
    requires k > 0
    ensures Split(total, Scaled(weights, k)) == Split(total, weights)
  {
    var scaled := Scaled(weights, k);
    SumLinear(scaled, weights, weights, k, 0);
    assert forall i :: 0 <= i < |weights| ==> (scaled[i] < 0 <==> weights[i] < 0);
    if Splittable(total, weights) {
      SplittableScales(total, weights, k);
      hide Split, Splittable;
    } else if total >= 0 && forall i :: 0 <= i < |weights| ==> weights[i] >= 0 {
      SumNonNegative(weights);
    }
  }

  lemma {:induction false} SplittableScales(total: int, weights: seq<int>, k: int)
    requires k > 0 && Splittable(total, weights)
    ensures Split(total, Scaled(weights, k)) == Split(total, weights)
  {
    var scaled := Scaled(weights, k);
    SumLinear(scaled, weights, weights, k, 0);
    assert Sum(scaled) == k * Sum(weights);
    hide Split, Floors, Remainders, Rank;
    SplitOfSplittable(total, weights);
    SplitOfSplittable(total, scaled);
    ScaledShares(total, weights, Sum(weights), k);
    var floors, rem := Floors(total, weights, Sum(weights)), Remainders(total, weights, Sum(weights));
    ScaledRanks(rem, k);
    assert Topped(floors, Scaled(rem, k), total - Sum(floors)) == Topped(floors, rem, total - Sum(floors));
  }

  lemma {:induction false} ScaledShares(total: int, weights: seq<int>, w: int, k: int)
    requires w > 0 && k > 0 && k * w > 0
    ensures Floors(total, Scaled(weights, k), k * w) == Floors(total, weights, w)
    ensures Remainders(total, Scaled(weights, k), k * w) == Scaled(Remainders(total, weights, w), k)
  {
    forall i | 0 <= i < |weights|
      ensures total * (k * weights[i]) / (k * w) == total * weights[i] / w
      ensures total * (k * weights[i]) % (k * w) == k * (total * weights[i] % w)
    {
      assert total * (k * weights[i]) == k * (total * weights[i]);
      ScaledDivMod(total * weights[i], w, k);
    }
  }

  lemma {:induction false} ScaledDivMod(a: int, w: int, k: int)
    requires w > 0 && k > 0
    ensures k * w > 0 && k * a / (k * w) == a / w && k * a % (k * w) == k * (a % w)
  {
    var q, r := a / w, a % w;
    DivMod(a, w);
    assert k * a == k * w * q + k * r;
    assert 0 <= k * r < k * w;
    DivModUnique(k * a, k * w, q, k * r);
  }

  lemma {:induction false} DivModUnique(n: int, d: int, q: int, r: int)
    requires d > 0 && n == d * q + r && 0 <= r < d
    ensures n / d == q && n % d == r
  {
    DivMod(n, d);
    SmallMultiple(d, n / d - q);
  }

  lemma {:induction false} SmallMultiple(d: int, e: int)
    requires -d < d * e < d
    ensures e == 0
  {
    if e >= 1 {
      MulAtLeast(d, e);
    }
    if e <= -1 {
      MulAtLeast(d, -e);
    }
  }

  lemma {:induction false} MulAtLeast(d: int, e: int)
    requires d > 0 && e >= 1
    ensures d * e >= d
  {
  }

  lemma {:induction false} ScaledRanks(rem: seq<int>, k: int)
    requires k > 0
    ensures forall i: nat :: i < |rem| ==> Rank(Scaled(rem, k), i) == Rank(rem, i)
  {
    forall i: nat | i < |rem|
      ensures Predecessors(Scaled(rem, k), i) == Predecessors(rem, i)
    {
      forall j: nat | j < |rem|
        ensures Before(Scaled(rem, k), j, i) <==> Before(rem, j, i)
      {
        assert k * rem[j] > k * rem[i] <==> rem[j] > rem[i];
      }
    }
  }

  // ----- optimality

  /** The squared distance, in weight sums, of the integer `x` from the exact share `a / w`. */
  ghost function Distance(w: int, a: int, x: int): int {
    (w * x - a) * (w * x - a)
  }

  ghost function Distances(total: int, weights: seq<int>, parts: seq<int>): (terms: seq<int>)
    requires |parts| == |weights|
    ensures |terms| == |weights|
  {
    seq(|weights|, i requires 0 <= i < |weights| => Distance(Sum(weights), total * weights[i], parts[i]))
  }

  /** No integer allocation of the same total is closer to the exact shares. */
  lemma {:induction false} SplitOptimal(total: int, weights: seq<int>, other: seq<int>)
    requires Splittable(total, weights)
    requires |other| == |weights| && Sum(other) == total
    ensures Split(total, weights).Ok? && |Split(total, weights).value| == |weights|
    ensures Sum(Distances(total, weights, Split(total, weights).value)) <= Sum(Distances(total, weights, other))
  {
    hide Split, Distance, Rank;
    SplitExact(total, weights);
    var parts := Split(total, weights).value;
    var slope := SplitTangent(total, weights, other);
    SumTangent(Distances(total, weights, other), Distances(total, weights, parts), other, parts, slope);
  }

  /** The chosen allocation has one supporting slope for all its entries. */
  lemma {:induction false} SplitTangent(total: int, weights: seq<int>, other: seq<int>) returns (slope: int)
    requires Splittable(total, weights) && |other| == |weights|
    ensures Split(total, weights).Ok? && |Split(total, weights).value| == |weights|
    ensures var parts, w := Split(total, weights).value, Sum(weights);
            forall i :: 0 <= i < |weights| ==>
              Distance(w, total * weights[i], other[i])
              >= Distance(w, total * weights[i], parts[i]) + slope * (other[i] - parts[i])
  {
    var w := Sum(weights);
    var rem := Remainders(total, weights, w);
    hide Split, Distance, Rank;
    SplitExact(total, weights);
    LeftoverIsRemainders(total, weights, w);
    LeftoverBounds(total, weights);
    var picked, threshold := FirstEntries(rem, w - 1, total - Sum(Floors(total, weights, w)));
    slope := w * (w - 2 * threshold);
    var parts := Split(total, weights).value;
    forall i: nat | i < |weights|
      ensures Distance(w, total * weights[i], other[i])
           >= Distance(w, total * weights[i], parts[i]) + slope * (other[i] - parts[i])
    {
      EntryTangent(total, weights, i, threshold, other[i]);
    }
  }

  lemma {:induction false} EntryTangent(total: int, weights: seq<int>, i: nat, t: int, x: int)
    requires Splittable(total, weights) && i < |weights| && 0 <= t < Sum(weights)
    requires var rem := Remainders(total, weights, Sum(weights));
             if Rank(rem, i) < total - Sum(Floors(total, weights, Sum(weights))) then rem[i] >= t else rem[i] <= t
    ensures Split(total, weights).Ok? && |Split(total, weights).value| == |weights|
    ensures var part, w := Split(total, weights).value[i], Sum(weights);
            Distance(w, total * weights[i], x)
            >= Distance(w, total * weights[i], part) + w * (w - 2 * t) * (x - part)
  {
    var a, w := total * weights[i], Sum(weights);
    var topped := Rank(Remainders(total, weights, w), i) < total - Sum(Floors(total, weights, w));
    hide Split, Distance, Rank;
    SplitExact(total, weights);
    PartOf(total, weights, i);
    PartInBand(a, w, t, Split(total, weights).value[i], topped);
    TangentBound(a, w, t, Split(total, weights).value[i], x);
  }

  lemma {:induction false} PartInBand(a: int, w: int, t: int, part: int, topped: bool)
    requires w > 0 && 0 <= t < w
    requires part == a / w + if topped then 1 else 0
    requires if topped then a % w >= t else a % w <= t
    ensures -t <= w * part - a <= w - t
  {
    DivMod(a, w);
  }

  /** One term lies above the line of slope w(w - 2t) through the chosen part, at every integer. */
  lemma {:induction false} TangentBound(a: int, w: int, t: int, part: int, other: int)
    requires w > 0 && -t <= w * part - a <= w - t
    ensures Distance(w, a, other) >= Distance(w, a, part) + w * (w - 2 * t) * (other - part)
  {
    var d, e := other - part, w * part - a;
    var p, s := w * d, w - 2 * t;
    assert w * other - a == e + p;
    assert w * s * d == s * p;
    MultipleIsApart(w, d);
    SquareAboveLine(e, p, s);
  }

  lemma {:induction false} MultipleIsApart(w: int, d: int)
    requires w > 0
    ensures w * d == 0 || w * d >= w || w * d <= -w
  {
    if d >= 1 {
      MulAtLeast(w, d);
    } else if d <= -1 {
      MulAtLeast(w, -d);
    }
  }

  lemma {:induction false} SquareAboveLine(e: int, p: int, s: int)
    requires (p > 0 ==> p + 2 * e - s >= 0) && (p < 0 ==> p + 2 * e - s <= 0)
    ensures (e + p) * (e + p) >= e * e + s * p
  {
    assert p * (p + 2 * e - s) >= 0;
    assert (e + p) * (e + p) == e * e + p * (p + 2 * e);
  }

  lemma {:induction false} SumTangent(r: seq<int>, s: seq<int>, x: seq<int>, y: seq<int>, slope: int)
    requires |r| == |s| == |x| == |y|
    requires forall i :: 0 <= i < |r| ==> r[i] >= s[i] + slope * (x[i] - y[i])
    ensures Sum(r) >= Sum(s) + slope * (Sum(x) - Sum(y))
  {
    if r == [] {
    } else {
      SumTangent(r[1..], s[1..], x[1..], y[1..], slope);
      assert slope * (x[0] - y[0]) + slope * (Sum(x[1..]) - Sum(y[1..])) == slope * (Sum(x) - Sum(y));
    }
  }
}

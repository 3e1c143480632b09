/**
 Decimal strings and stroops (backend/src/money/decimal.ts, `toStroops` and `fromStroops`).
 A stroop is 10^-7 of a unit. The parser is compared with the rational number its input
 denotes, the printer with the parser, and both with a canonical spelling.
 */
module DecimalText {
  import opened Wrappers
  import opened Rounding

  const STROOP_DECIMALS := 7
  const STROOP_SCALE := 10_000_000

  // ----- digits

  predicate IsDigit(c: char) {
    '0' <= c <= '9'
  }

  predicate AllDigits(s: string) {
    forall i :: 0 <= i < |s| ==> IsDigit(s[i])
  }

  predicate AllZeros(s: string) {
    forall i :: 0 <= i < |s| ==> s[i] == '0'
  }

  function DigitValue(c: char): nat
    requires IsDigit(c)
  {
    c as int - '0' as int
  }

  function DigitChar(d: nat): char
    requires d < 10
  {
    "0123456789"[d]
  }

  function Zeros(n: nat): string {
    seq(n, i => '0')
  }

  function Pow10(n: nat): (p: nat)
    ensures p > 0
  {
    if n == 0 then 1 else 10 * Pow10(n - 1)
  }

  /** BigInt(s) on a digit string. */
  function NatOf(s: string): nat
    requires AllDigits(s)
  {
    if s == "" then 0 else 10 * NatOf(s[..|s| - 1]) + DigitValue(s[|s| - 1])
  }

  /** n.toString() for a non-negative bigint. */
  function Text(n: nat): string {
    if n < 10 then [DigitChar(n)] else Text(n / 10) + [DigitChar(n % 10)]
  }

  function PadEnd(s: string, n: nat): string {
    if |s| >= n then s else s + Zeros(n - |s|)
  }

  function PadStart(s: string, n: nat): string {
    if |s| >= n then s else Zeros(n - |s|) + s
  }

  // ----- reading a decimal string

  datatype Decimal = Decimal(negative: bool, whole: string, fraction: string) {
    predicate WellFormed() {
      AllDigits(whole) && whole != "" && AllDigits(fraction)
    }
  }

  /** ECMAScript white space and line terminators, which `trim` removes at both ends. */
  predicate IsSpace(c: char) {
    var n := c as int;
    || 0x9 <= n <= 0xD || n == 0x20 || n == 0xA0 || n == 0x1680
    || 0x2000 <= n <= 0x200A || n == 0x2028 || n == 0x2029
    || n == 0x202F || n == 0x205F || n == 0x3000 || n == 0xFEFF
  }

  function Trim(s: string): string {
    if s == "" then s
    else if IsSpace(s[0]) then Trim(s[1..])
    else if IsSpace(s[|s| - 1]) then Trim(s[..|s| - 1])
    else s
  }

  /** The first component of `s.split('.')`. */
  function UntilDot(s: string): (prefix: string)
    ensures |prefix| <= |s|
  {
    if s == "" || s[0] == '.' then "" else [s[0]] + UntilDot(s[1..])
  }

  /** The second component of `s.split('.')`, or "" when there is none. */
  function AfterDot(s: string): string {
    var n := |UntilDot(s)|;
    if n < |s| then UntilDot(s[n + 1..]) else ""
  }

  function LeadingDigits(s: string): nat
    ensures LeadingDigits(s) <= |s|
  {
    if s == "" || !IsDigit(s[0]) then 0 else 1 + LeadingDigits(s[1..])
  }

  /** The pattern ^-?\d+(\.\d+)?$ */
  predicate MatchesDecimal(t: string) {
    var u := if "-" <= t then t[1..] else t;
    var n := LeadingDigits(u);
    && n > 0
    && (n == |u| || (u[n] == '.' && n + 1 < |u| && AllDigits(u[n + 1..])))
  }

  function Dissect(t: string): Decimal {
    var negative := "-" <= t;
    var unsigned := if negative then t[1..] else t;
    Decimal(negative, UntilDot(unsigned), AfterDot(unsigned))
  }

  function Magnitude(whole: string, fraction: string, mode: RoundingMode): Result<int, MoneyError>
    requires AllDigits(whole) && AllDigits(fraction)
  {
    if |fraction| <= STROOP_DECIMALS then
      assert AllDigits(PadEnd(fraction, STROOP_DECIMALS));
      Ok(NatOf(whole) * STROOP_SCALE + NatOf(PadEnd(fraction, STROOP_DECIMALS)))
    else
      var extraDigits := |fraction| - STROOP_DECIMALS;
      RoundDiv(NatOf(whole) * Pow10(|fraction|) + NatOf(fraction), Pow10(extraDigits), mode)
  }

  function ToStroops(input: string, mode: RoundingMode): Result<int, MoneyError> {
    var trimmed := Trim(input);
    if !MatchesDecimal(trimmed) then
      Err(InvalidDecimal)
    else
      MatchedIsSpelled(trimmed);
      var d := Dissect(trimmed);
      Signed(d.negative, Magnitude(d.whole, d.fraction, mode))
  }

  function Signed(negative: bool, magnitude: Result<int, MoneyError>): Result<int, MoneyError> {
    match magnitude
    case Err(e) => Err(e)
    case Ok(m) => Ok(if negative then -m else m)
  }

  function FromStroops(value: int): string {
    var magnitude := if value < 0 then -value else value;
    var fraction := PadStart(Text(magnitude % STROOP_SCALE), STROOP_DECIMALS);
    (if value < 0 then "-" else "") + Text(magnitude / STROOP_SCALE) + "." + fraction
  }

  // ----- the grammar

  function Spell(d: Decimal): string {
    (if d.negative then "-" else "") + Unsigned(d.whole, d.fraction)
  }

  function Unsigned(whole: string, fraction: string): string {
    whole + (if fraction == "" then "" else "." + fraction)
  }

  /** The accepted strings are exactly the spellings of well-formed decimals, and Dissect is the inverse of Spell. */
  lemma {:induction false} Grammar(t: string)
    ensures MatchesDecimal(t) <==> exists d: Decimal :: d.WellFormed() && t == Spell(d)
    ensures forall d: Decimal | d.WellFormed() && t == Spell(d) :: d == Dissect(t)
  {
    if MatchesDecimal(t) {
      MatchedIsSpelled(t);
    }
    forall d: Decimal | d.WellFormed() && t == Spell(d)
      ensures MatchesDecimal(t) && d == Dissect(t)
    {
      DissectSpelling(d);
    }
  }

  lemma {:induction false} MatchedIsSpelled(t: string)
    requires MatchesDecimal(t)
    ensures Dissect(t).WellFormed() && t == Spell(Dissect(t))
  {
    var u := if "-" <= t then t[1..] else t;
    MatchedUnsigned(u);
    assert t == (if "-" <= t then "-" else "") + u;
  }

  lemma {:induction false} MatchedUnsigned(u: string)
    requires var n := LeadingDigits(u);
             && n > 0
             && (n == |u| || (u[n] == '.' && n + 1 < |u| && AllDigits(u[n + 1..])))
    ensures UntilDot(u) != "" && AllDigits(UntilDot(u)) && AllDigits(AfterDot(u))
    ensures u == Unsigned(UntilDot(u), AfterDot(u))
  {
    var n := LeadingDigits(u);
    LeadingDigitsAre(u);
    var fraction := if n < |u| then u[n + 1..] else "";
    Joined(u, n);
    hide LeadingDigits, UntilDot, AfterDot, Unsigned;
    UnsignedReads(u[..n], fraction);
  }

  lemma {:induction false} Joined(u: string, n: nat)
    requires n == |u| || (n + 1 < |u| && u[n] == '.')
    ensures u == Unsigned(u[..n], if n < |u| then u[n + 1..] else "")
  {
    if n < |u| {
      assert u == u[..n] + ("." + u[n + 1..]);
    } else {
      assert u == u[..n] + "";
    }
  }

  lemma {:induction false} LeadingDigitsAre(s: string)
    ensures AllDigits(s[..LeadingDigits(s)])
  {
    if s != "" && IsDigit(s[0]) {
      LeadingDigitsAre(s[1..]);
      assert s[..LeadingDigits(s)] == [s[0]] + s[1..][..LeadingDigits(s[1..])];
    }
  }

  lemma {:induction false} DigitsThenDot(w: string, rest: string)
    requires AllDigits(w) && (rest == "" || rest[0] == '.')
    ensures LeadingDigits(w + rest) == |w|
    ensures UntilDot(w + rest) == w
  {
    if w == "" {
      assert w + rest == rest;
    } else {
      DigitsThenDot(w[1..], rest);
      assert (w + rest)[1..] == w[1..] + rest;
    }
  }

  lemma {:induction false} UnsignedReads(whole: string, fraction: string)
    requires AllDigits(whole) && AllDigits(fraction)
    ensures var u := Unsigned(whole, fraction);
            && LeadingDigits(u) == |whole| && UntilDot(u) == whole && AfterDot(u) == fraction
            && (fraction == "" ==> u == whole)
            && (fraction != "" ==> u[|whole|] == '.' && u[|whole| + 1..] == fraction)
  {
    var tail := if fraction == "" then "" else "." + fraction;
    DigitsThenDot(whole, tail);
    DigitsThenDot(fraction, "");
    assert fraction + "" == fraction;
    if fraction != "" {
      assert Unsigned(whole, fraction)[|whole| + 1..] == fraction;
    }
  }

  lemma {:induction false} DissectSpelling(d: Decimal)
    requires d.WellFormed()
    ensures MatchesDecimal(Spell(d)) && Dissect(Spell(d)) == d
  {
    var t, u := Spell(d), Unsigned(d.whole, d.fraction);
    assert IsDigit(d.whole[0]);
    assert t[0] == (if d.negative then '-' else d.whole[0]);
    assert u == if "-" <= t then t[1..] else t;
    UnsignedReads(d.whole, d.fraction);
  }

  lemma {:induction false} TrimSpelling(d: Decimal)
    requires d.WellFormed()
    ensures Trim(Spell(d)) == Spell(d)
  {
    var t := Spell(d);
    var last := if d.fraction == "" then d.whole else d.fraction;
    assert IsDigit(last[|last| - 1]) && t[|t| - 1] == last[|last| - 1];
    assert t[0] == if d.negative then '-' else d.whole[0];
  }

  lemma {:induction false} ToStroopsOfSpelling(d: Decimal, mode: RoundingMode)
    requires d.WellFormed()
    ensures ToStroops(Spell(d), mode) == Signed(d.negative, Magnitude(d.whole, d.fraction, mode))
  {
    TrimSpelling(d);
    DissectSpelling(d);
    hide Trim, Dissect, MatchesDecimal, Spell, Magnitude, Signed;
  }

  // ----- white space around it

  /** ECMAScript's white space and line terminators, one by one. */
  const WHITE: set<char> :=
    {'\t', '\n', '\U{000B}', '\U{000C}', '\r', ' ', '\U{00A0}', '\U{1680}',
     '\U{2000}', '\U{2001}', '\U{2002}', '\U{2003}', '\U{2004}', '\U{2005}', '\U{2006}', '\U{2007}',
     '\U{2008}', '\U{2009}', '\U{200A}', '\U{2028}', '\U{2029}', '\U{202F}', '\U{205F}', '\U{3000}', '\U{FEFF}'}

  predicate AllWhite(s: string) {
    forall i :: 0 <= i < |s| ==> s[i] in WHITE
  }

  lemma {:induction false} WhiteIsSpace(c: char)
    ensures c in WHITE <==> IsSpace(c)
  {
    var n := c as int;
    if IsSpace(c) {
      assert c == n as char;
    }
  }

  /** A text without white space at its ends is what is left of it between white space. */
  lemma {:induction false} TrimBetween(u: string, t: string, v: string)
    requires AllWhite(u) && AllWhite(v) && t != "" && t[0] !in WHITE && t[|t| - 1] !in WHITE
    ensures Trim(u + t + v) == t
    decreases |u| + |v|
  {
    hide IsSpace;
    var s := u + t + v;
    if u != "" {
      WhiteIsSpace(s[0]);
      assert s[1..] == u[1..] + t + v;
      TrimBetween(u[1..], t, v);
    } else if v != "" {
      WhiteIsSpace(s[0]);
      WhiteIsSpace(s[|s| - 1]);
      assert s[..|s| - 1] == u + t + v[..|v| - 1];
      TrimBetween(u, t, v[..|v| - 1]);
    } else {
      WhiteIsSpace(s[0]);
      WhiteIsSpace(s[|s| - 1]);
      assert s == t;
    }
  }

  lemma {:induction false} TrimSplits(s: string) returns (u: string, v: string)
    ensures AllWhite(u) && AllWhite(v) && s == u + Trim(s) + v
  {
    hide IsSpace;
    if s == "" {
      u, v := "", "";
    } else {
      WhiteIsSpace(s[0]);
      WhiteIsSpace(s[|s| - 1]);
      if IsSpace(s[0]) {
        u, v := TrimSplits(s[1..]);
        assert s == [s[0]] + (u + Trim(s[1..]) + v);
        u := [s[0]] + u;
      } else if IsSpace(s[|s| - 1]) {
        u, v := TrimSplits(s[..|s| - 1]);
        assert s == (u + Trim(s[..|s| - 1]) + v) + [s[|s| - 1]];
        v := v + [s[|s| - 1]];
      } else {
        u, v := "", "";
      }
    }
  }

  lemma {:induction false} SpellingHasNoWhiteEnds(d: Decimal)
    requires d.WellFormed()
    ensures var t := Spell(d); t != "" && t[0] !in WHITE && t[|t| - 1] !in WHITE
  {
    var t := Spell(d);
    var last := if d.fraction == "" then d.whole else d.fraction;
    assert IsDigit(last[|last| - 1]) && t[|t| - 1] == last[|last| - 1];
    assert t[0] == (if d.negative then '-' else d.whole[0]) && IsDigit(d.whole[0]);
    WhiteIsSpace(t[0]);
    WhiteIsSpace(t[|t| - 1]);
  }

  lemma {:induction false} SameTrim(a: string, b: string, mode: RoundingMode)
    requires Trim(a) == Trim(b)
    ensures ToStroops(a, mode) == ToStroops(b, mode)
  {
    hide Trim, MatchesDecimal, Dissect, Magnitude, Signed;
  }

  /** White space around a spelling never matters. */
  lemma {:induction false} SurroundingSpaceIsIgnored(u: string, d: Decimal, v: string, mode: RoundingMode)
    requires AllWhite(u) && AllWhite(v) && d.WellFormed()
    ensures ToStroops(u + Spell(d) + v, mode) == ToStroops(Spell(d), mode)
  {
    hide *;
    SpellingHasNoWhiteEnds(d);
    TrimBetween(u, Spell(d), v);
    TrimSpelling(d);
    SameTrim(u + Spell(d) + v, Spell(d), mode);
  }

  /** A string is accepted, in every mode, exactly when it is a decimal between white space. */
  lemma {:induction false} AcceptedIff(input: string, mode: RoundingMode)
    ensures ToStroops(input, mode).Ok?
       <==> exists u, d: Decimal, v :: AllWhite(u) && AllWhite(v) && d.WellFormed() && input == u + Spell(d) + v
  {
    if ToStroops(input, mode).Ok? {
      var t := Trim(input);
      Grammar(t);
      var d: Decimal :| d.WellFormed() && t == Spell(d);
      var u, v := TrimSplits(input);
      assert input == u + Spell(d) + v;
    }
    if u, d: Decimal, v :| AllWhite(u) && AllWhite(v) && d.WellFormed() && input == u + Spell(d) + v {
      SurroundingSpaceIsIgnored(u, d, v, mode);
      SpellingIsAccepted(d, mode);
    }
  }

  lemma {:induction false} SpellingIsAccepted(d: Decimal, mode: RoundingMode)
    requires d.WellFormed()
    ensures ToStroops(Spell(d), mode).Ok?
  {
    ToStroopsOfSpelling(d, mode);
    MagnitudeIsOk(d.whole, d.fraction, mode);
    hide ToStroops, Spell, Magnitude;
  }

  lemma {:induction false} MagnitudeIsOk(whole: string, fraction: string, mode: RoundingMode)
    requires AllDigits(whole) && AllDigits(fraction)
    ensures Magnitude(whole, fraction, mode).Ok?
  {
    hide NatOf, PadEnd;
    if |fraction| > STROOP_DECIMALS {
      RoundDivCorrect(NatOf(whole) * Pow10(|fraction|) + NatOf(fraction), Pow10(|fraction| - STROOP_DECIMALS), mode);
    }
  }

  // ----- what a decimal string denotes

  /** Each digit after the point weighs a tenth of its left neighbour. */
  ghost function FractionValue(f: string): real
    requires AllDigits(f)
  {
    if f == "" then 0.0
    else (DigitValue(f[0]) as real + FractionValue(f[1..])) / 10.0
  }

  ghost function AbsoluteValue(whole: string, fraction: string): real
    requires AllDigits(whole) && AllDigits(fraction)
  {
    NatOf(whole) as real + FractionValue(fraction)
  }

  /** The exact signed rational a decimal denotes. */
  ghost function Value(d: Decimal): real
    requires d.WellFormed()
  {
    if d.negative then -AbsoluteValue(d.whole, d.fraction) else AbsoluteValue(d.whole, d.fraction)
  }

  lemma {:induction false} FractionIsScaledNat(f: string)
    requires AllDigits(f)
    ensures IsScaled(FractionValue(f), Pow10(|f|), NatOf(f))
  {
    if f == "" {
    } else {
      var rest := f[1..];
      FractionIsScaledNat(rest);
      FirstDigitUnfolds(f);
      FirstDigit(FractionValue(rest), FractionValue(f), Pow10(|rest|), Pow10(|f|), NatOf(rest), NatOf(f), DigitValue(f[0]));
      hide IsScaled;
    }
  }

  ghost predicate IsScaled(v: real, scale: nat, n: nat) {
    v * scale as real == n as real
  }

  lemma {:induction false} FirstDigitUnfolds(f: string)
    requires AllDigits(f) && f != ""
    ensures FractionValue(f) == (DigitValue(f[0]) as real + FractionValue(f[1..])) / 10.0
    ensures Pow10(|f|) == 10 * Pow10(|f[1..]|)
    ensures NatOf(f) == DigitValue(f[0]) * Pow10(|f[1..]|) + NatOf(f[1..])
  {
    NatOfConcat([f[0]], f[1..]);
    assert [f[0]] + f[1..] == f;
    assert [f[0]][..0] == "" && NatOf([f[0]]) == DigitValue(f[0]);
  }

  lemma {:induction false} FirstDigit(v: real, next: real, p: nat, q: nat, n: nat, m: nat, digit: nat)
    requires IsScaled(v, p, n)
    requires next == (digit as real + v) / 10.0 && q == 10 * p && m == digit * p + n
    ensures IsScaled(next, q, m)
  {
    Distribute(digit as real, v, p as real);
    assert (digit * p) as real == digit as real * p as real;
    assert next * (10.0 * p as real) == (10.0 * next) * p as real;
  }

  lemma {:induction false} Pow10Adds(m: nat, n: nat)
    ensures Pow10(m + n) == Pow10(m) * Pow10(n)
  {
    if m != 0 {
      Pow10Adds(m - 1, n);
    }
  }

  lemma {:induction false} Pow10Seven()
    ensures Pow10(STROOP_DECIMALS) == STROOP_SCALE
  {
    assert Pow10(3) == 1000;
    assert Pow10(5) == 100_000;
  }

  lemma {:induction false} TrailingZeros(f: string, n: nat)
    requires AllDigits(f)
    ensures AllDigits(f + Zeros(n))
    ensures FractionValue(f + Zeros(n)) == FractionValue(f)
    decreases |f|, n
  {
    var z := f + Zeros(n);
    if f != "" {
      TrailingZeros(f[1..], n);
      assert z[1..] == f[1..] + Zeros(n);
    } else if n != 0 {
      TrailingZeros("", n - 1);
      assert z[1..] == "" + Zeros(n - 1);
    }
  }

  lemma {:induction false} LeadingZeros(w: string, n: nat)
    requires AllDigits(w)
    ensures AllDigits(Zeros(n) + w)
    ensures NatOf(Zeros(n) + w) == NatOf(w)
    decreases n + |w|
  {
    var z := Zeros(n) + w;
    if w != "" {
      LeadingZeros(w[..|w| - 1], n);
      assert z[..|z| - 1] == Zeros(n) + w[..|w| - 1];
    } else if n != 0 {
      LeadingZeros("", n - 1);
      assert z[..|z| - 1] == Zeros(n - 1) + "";
    }
  }

  /** The magnitude is the absolute value in stroops, rounded by `mode`, in both branches of the code. */
  lemma {:induction false} MagnitudeRounds(whole: string, fraction: string, mode: RoundingMode)
    requires AllDigits(whole) && AllDigits(fraction)
    ensures Magnitude(whole, fraction, mode).Ok?
    ensures Rounds(AbsoluteValue(whole, fraction) * STROOP_SCALE as real, mode, Magnitude(whole, fraction, mode).value)
  {
    if |fraction| <= STROOP_DECIMALS {
      ShortMagnitude(whole, fraction, mode);
    } else {
      LongMagnitude(whole, fraction, mode);
    }
  }

  lemma {:induction false} ShortMagnitude(whole: string, fraction: string, mode: RoundingMode)
    requires AllDigits(whole) && AllDigits(fraction) && |fraction| <= STROOP_DECIMALS
    ensures Magnitude(whole, fraction, mode).Ok?
    ensures Magnitude(whole, fraction, mode).value as real == AbsoluteValue(whole, fraction) * STROOP_SCALE as real
  {
    var n := STROOP_DECIMALS - |fraction|;
    var padded := PadEnd(fraction, STROOP_DECIMALS);
    TrailingZeros(fraction, n);
    assert padded == fraction + Zeros(n);
    Pow10Seven();
    FractionIsScaledNat(padded);
    Distribute(NatOf(whole) as real, FractionValue(fraction), STROOP_SCALE as real);
  }

  lemma {:induction false} LongMagnitude(whole: string, fraction: string, mode: RoundingMode)
    requires AllDigits(whole) && AllDigits(fraction) && |fraction| > STROOP_DECIMALS
    ensures Magnitude(whole, fraction, mode).Ok?
    ensures Rounds(AbsoluteValue(whole, fraction) * STROOP_SCALE as real, mode, Magnitude(whole, fraction, mode).value)
  {
    var extra := |fraction| - STROOP_DECIMALS;
    Pow10Adds(STROOP_DECIMALS, extra);
    Pow10Seven();
    FractionIsScaledNat(fraction);
    hide IsScaled, FractionValue, NatOf;
    ExcessDigits(NatOf(whole), NatOf(fraction), FractionValue(fraction), Pow10(|fraction|), Pow10(extra), mode);
  }

  lemma {:induction false} ExcessDigits(whole: nat, fraction: nat, value: real, scale: nat, den: nat,
                                        mode: RoundingMode)
    requires den > 0 && scale == STROOP_SCALE * den && IsScaled(value, scale, fraction)
    ensures RoundDiv(whole * scale + fraction, den, mode).Ok?
    ensures Rounds((whole as real + value) * STROOP_SCALE as real, mode,
                   RoundDiv(whole * scale + fraction, den, mode).value)
  {
    var num, v := whole * scale + fraction, whole as real + value;
    Distribute(whole as real, value, scale as real);
    Reassociate(v, STROOP_SCALE as real, den as real);
    QuotientIs(num, den, v * STROOP_SCALE as real);
    RoundDivRounds(num, den, mode);
  }

  lemma {:induction false} Distribute(w: real, f: real, p: real)
    ensures (w + f) * p == w * p + f * p
  {
  }

  lemma {:induction false} Reassociate(v: real, s: real, p: real)
    ensures v * (s * p) == v * s * p
  {
  }

  // ----- the parser

  /** The code rounds the magnitude and applies the sign afterwards, so a negative input meets the mirrored mode. */
  lemma {:induction false} ToStroopsRounds(input: string, mode: RoundingMode)
    ensures ToStroops(input, mode) == Err(InvalidDecimal) <==> !MatchesDecimal(Trim(input))
    ensures ToStroops(input, mode).Err? ==> ToStroops(input, mode) == Err(InvalidDecimal)
    ensures MatchesDecimal(Trim(input)) ==>
              var d := Dissect(Trim(input));
              && d.WellFormed() && ToStroops(input, mode).Ok?
              && Rounds(Value(d) * STROOP_SCALE as real, if d.negative then Mirror(mode) else mode,
                        ToStroops(input, mode).value)
  {
    var t := Trim(input);
    if MatchesDecimal(t) {
      MatchedIsSpelled(t);
      var d := Dissect(t);
      MagnitudeRounds(d.whole, d.fraction, mode);
      var x := AbsoluteValue(d.whole, d.fraction) * STROOP_SCALE as real;
      assert (-AbsoluteValue(d.whole, d.fraction)) * STROOP_SCALE as real == -x;
      RoundsMirrors(x, mode, Magnitude(d.whole, d.fraction, mode).value);
    }
  }

  lemma {:induction false} SpacedSpelling(u: string, d: Decimal, v: string)
    requires AllWhite(u) && AllWhite(v) && d.WellFormed()
    ensures Trim(u + Spell(d) + v) == Spell(d) && MatchesDecimal(Spell(d)) && Dissect(Spell(d)) == d
  {
    hide *;
    SpellingHasNoWhiteEnds(d);
    TrimBetween(u, Spell(d), v);
    DissectSpelling(d);
  }

  /** The same of a decimal between white space, read off the decimal itself. */
  lemma {:induction false} SpacedDecimalRounds(u: string, d: Decimal, v: string, mode: RoundingMode)
    requires AllWhite(u) && AllWhite(v) && d.WellFormed()
    ensures var r := ToStroops(u + Spell(d) + v, mode);
            && r.Ok?
            && Rounds(Value(d) * STROOP_SCALE as real, if d.negative then Mirror(mode) else mode, r.value)
  {
    SpacedSpelling(u, d, v);
    hide Trim, Spell, MatchesDecimal, Dissect, ToStroops, Value, Rounds, AllWhite;
    ToStroopsRounds(u + Spell(d) + v, mode);
  }

  /** In the half modes every accepted string is parsed to its exact signed value, correctly rounded. */
  lemma {:induction false} HalfModesRoundTheSignedValue(input: string, mode: RoundingMode)
    requires mode == HalfEven || mode == HalfUp
    requires MatchesDecimal(Trim(input))
    ensures Dissect(Trim(input)).WellFormed()
    ensures forall q :: ToStroops(input, mode) == Ok(q)
                   <==> Rounds(Value(Dissect(Trim(input))) * STROOP_SCALE as real, mode, q)
  {
    ToStroopsRounds(input, mode);
    var x := Value(Dissect(Trim(input))) * STROOP_SCALE as real;
    forall q | Rounds(x, mode, q)
      ensures ToStroops(input, mode) == Ok(q)
    {
      RoundsUnique(x, mode, q, ToStroops(input, mode).value);
    }
  }

  /** The digits past the seventh fractional place. */
  function Excess(d: Decimal): string {
    if |d.fraction| <= STROOP_DECIMALS then "" else d.fraction[STROOP_DECIMALS..]
  }

  /**
   Floor and Ceil round the signed value correctly exactly when the input is not a negative number with
   sub-stroop digits.
   */
  lemma {:induction false} DirectedModesRoundTheSignedValueIff(input: string, mode: RoundingMode)
    requires mode == Floor || mode == Ceil
    requires MatchesDecimal(Trim(input))
    ensures var d := Dissect(Trim(input));
            && d.WellFormed() && ToStroops(input, mode).Ok?
            && (Rounds(Value(d) * STROOP_SCALE as real, mode, ToStroops(input, mode).value)
                <==> !d.negative || AllZeros(Excess(d)))
  {
    hide ToStroops, AbsoluteValue, Trim, Dissect, MatchesDecimal, Excess;
    ToStroopsRounds(input, mode);
    var d := Dissect(Trim(input));
    if d.negative {
      WholeStroopsIff(d);
      BothDirections(AbsoluteValue(d.whole, d.fraction) * STROOP_SCALE as real, mode, ToStroops(input, mode).value);
    }
  }

  lemma {:induction false} BothDirections(x: real, mode: RoundingMode, q: int)
    requires (mode == Floor || mode == Ceil) && Rounds(-x, Mirror(mode), q)
    ensures Rounds(-x, mode, q) <==> IsWhole(x)
  {
    if IsWhole(x) {
      var n :| Denotes(x, n);
      assert q == -n;
    }
    if Rounds(-x, mode, q) {
      assert Denotes(x, -q);
    }
  }

  /** The witness: -0.00000001 floors to -1 stroop, but the code returns 0. */
  lemma {:induction false} FloorOfNegativeDust()
    ensures NegativeDust().WellFormed() && Spell(NegativeDust()) == "-0.00000001"
    ensures ToStroops(Spell(NegativeDust()), Floor) == Ok(0)
    ensures Rounds(Value(NegativeDust()) * STROOP_SCALE as real, Floor, -1)
  {
    var d := NegativeDust();
    DustValue();
    DustMagnitude();
    hide ToStroops, AbsoluteValue, Magnitude;
    ToStroopsOfSpelling(d, Floor);
  }

  lemma {:induction false} DustMagnitude()
    ensures NegativeDust().WellFormed()
    ensures Magnitude(NegativeDust().whole, NegativeDust().fraction, Floor) == Ok(0)
  {
    var d := NegativeDust();
    DustValue();
    MagnitudeRounds(d.whole, d.fraction, Floor);
    hide Magnitude, FractionValue;
    RoundsUnique(0.1, Floor, 0, Magnitude(d.whole, d.fraction, Floor).value);
  }

  function NegativeDust(): Decimal {
    Decimal(true, "0", Zeros(7) + "1")
  }

  lemma {:induction false} DustValue()
    ensures NegativeDust().WellFormed() && AbsoluteValue(NegativeDust().whole, NegativeDust().fraction) * 10_000_000.0 == 0.1
  {
    var f := NegativeDust().fraction;
    FractionIsScaledNat(f);
    LeadingZeros("1", 7);
    assert "1"[..0] == "" && "0"[..0] == "" && NatOf("1") == 1 && NatOf("0") == 0;
    Pow10Seven();
    assert Pow10(8) == 10 * Pow10(7);
  }

  ghost predicate IsWhole(x: real) {
    exists n :: Denotes(x, n)
  }

  ghost predicate Denotes(x: real, n: int) {
    x == n as real
  }

  lemma {:induction false} WholeStroopsIff(d: Decimal)
    requires d.WellFormed()
    ensures IsWhole(AbsoluteValue(d.whole, d.fraction) * STROOP_SCALE as real) <==> AllZeros(Excess(d))
  {
    hide Magnitude, AbsoluteValue;
    if |d.fraction| <= STROOP_DECIMALS {
      ShortMagnitude(d.whole, d.fraction, Floor);
      assert Denotes(AbsoluteValue(d.whole, d.fraction) * STROOP_SCALE as real,
                     Magnitude(d.whole, d.fraction, Floor).value);
    } else {
      WholeStroopsIffLong(d.whole, d.fraction[..STROOP_DECIMALS], Excess(d));
      assert d.fraction == d.fraction[..STROOP_DECIMALS] + Excess(d);
    }
  }

  lemma {:induction false} WholeStroopsIffLong(whole: string, head: string, tail: string)
    requires AllDigits(whole) && AllDigits(head) && AllDigits(tail) && |head| == STROOP_DECIMALS
    ensures AllDigits(head + tail)
    ensures IsWhole(AbsoluteValue(whole, head + tail) * STROOP_SCALE as real) <==> AllZeros(tail)
  {
    hide Pow10, NatOf, FractionValue, IsWhole, AllZeros;
    ScaledFraction(head, tail);
    NatOfBound(tail);
    SubStroopPart(NatOf(whole), FractionValue(head + tail), NatOf(head), NatOf(tail), Pow10(|tail|));
  }

  lemma {:induction false} ScaledFraction(head: string, tail: string)
    requires AllDigits(head) && AllDigits(tail) && |head| == STROOP_DECIMALS
    ensures AllDigits(head + tail)
    ensures FractionValue(head + tail) * (STROOP_SCALE * Pow10(|tail|)) as real
         == (NatOf(head) * Pow10(|tail|) + NatOf(tail)) as real
  {
    hide NatOf, FractionValue;
    Pow10Seven();
    hide Pow10;
    NatOfConcat(head, tail);
    FractionIsScaledNat(head + tail);
    Pow10Adds(STROOP_DECIMALS, |tail|);
    assert Pow10(|head + tail|) == STROOP_SCALE * Pow10(|tail|);
  }

  lemma {:induction false} SubStroopPart(whole: nat, fraction: real, head: nat, tail: nat, p: nat)
    requires tail < p && fraction * (STROOP_SCALE * p) as real == (head * p + tail) as real
    ensures IsWhole((whole as real + fraction) * STROOP_SCALE as real) <==> tail == 0
  {
    var t := fraction * STROOP_SCALE as real - head as real;
    UnitFraction(fraction, t, p, head, tail);
    WholePlusFraction(whole * STROOP_SCALE + head, t);
    assert (whole as real + fraction) * STROOP_SCALE as real == (whole * STROOP_SCALE + head) as real + t;
  }

  lemma {:induction false} WholePlusFraction(n: int, t: real)
    requires 0.0 <= t < 1.0
    ensures IsWhole(n as real + t) <==> t == 0.0
  {
    if IsWhole(n as real + t) {
      var m :| Denotes(n as real + t, m);
      assert t == (m - n) as real;
    }
    if t == 0.0 {
      assert Denotes(n as real + t, n);
    }
  }

  lemma {:induction false} UnitFraction(fraction: real, t: real, p: nat, head: nat, tail: nat)
    requires tail < p && fraction * (STROOP_SCALE * p) as real == (head * p + tail) as real
    requires t == fraction * STROOP_SCALE as real - head as real
    ensures 0.0 <= t < 1.0
    ensures t == 0.0 <==> tail == 0
  {
    Reassociate(fraction, STROOP_SCALE as real, p as real);
    Distribute(t, head as real, p as real);
    assert (head * p) as real == head as real * p as real;
    assert t * p as real == tail as real;
  }

  lemma {:induction false} NatOfConcat(h: string, t: string)
    requires AllDigits(h) && AllDigits(t)
    ensures AllDigits(h + t)
    ensures NatOf(h + t) == NatOf(h) * Pow10(|t|) + NatOf(t)
  {
    if t == "" {
      assert h + t == h;
    } else {
      var n := |t| - 1;
      NatOfConcat(h, t[..n]);
      assert (h + t)[..|h| + n] == h + t[..n];
      ShiftDigits(NatOf(h), NatOf(t[..n]), Pow10(n));
    }
  }

  lemma {:induction false} ShiftDigits(a: nat, b: nat, p: nat)
    ensures 10 * (a * p + b) == a * (10 * p) + 10 * b
  {
  }

  /** A digit string stays below its power of ten, and is zero only when every digit is. */
  lemma {:induction false} NatOfBound(s: string)
    requires AllDigits(s)
    ensures NatOf(s) < Pow10(|s|)
    ensures NatOf(s) == 0 <==> AllZeros(s)
  {
    if s == "" {
    } else {
      NatOfBound(s[..|s| - 1]);
      assert s == s[..|s| - 1] + [s[|s| - 1]];
    }
  }

  /** Leading zeros, and trailing fractional zeros on either side of the seven-digit boundary, never matter. */
  lemma {:induction false} RedundantZeros(d: Decimal, leading: nat, trailing: nat, mode: RoundingMode)
    requires d.WellFormed()
    ensures ToStroops(Spell(d.(whole := Zeros(leading) + d.whole, fraction := d.fraction + Zeros(trailing))), mode)
         == ToStroops(Spell(d), mode)
  {
    LeadingZeros(d.whole, leading);
    TrailingZeros(d.fraction, trailing);
    hide ToStroops, Magnitude, FractionValue, NatOf, Spell, Zeros;
    var e := d.(whole := Zeros(leading) + d.whole, fraction := d.fraction + Zeros(trailing));
    SameMagnitude(d, e, mode);
    ToStroopsOfSpelling(d, mode);
    ToStroopsOfSpelling(e, mode);
  }

  lemma {:induction false} SameMagnitude(d: Decimal, e: Decimal, mode: RoundingMode)
    requires d.WellFormed() && e.WellFormed()
    requires AbsoluteValue(d.whole, d.fraction) == AbsoluteValue(e.whole, e.fraction)
    ensures Magnitude(d.whole, d.fraction, mode) == Magnitude(e.whole, e.fraction, mode)
  {
    hide Magnitude, AbsoluteValue;
    MagnitudeRounds(d.whole, d.fraction, mode);
    MagnitudeRounds(e.whole, e.fraction, mode);
    RoundsUnique(AbsoluteValue(d.whole, d.fraction) * STROOP_SCALE as real, mode,
                 Magnitude(d.whole, d.fraction, mode).value, Magnitude(e.whole, e.fraction, mode).value);
  }

  // ----- the printer

  /** What FromStroops prints, as a decimal. */
  function Printed(value: int): Decimal {
    var magnitude := if value < 0 then -value else value;
    Decimal(value < 0, Text(magnitude / STROOP_SCALE), PadStart(Text(magnitude % STROOP_SCALE), STROOP_DECIMALS))
  }

  lemma {:induction false} TextIsNumeral(n: nat)
    ensures Text(n) != "" && AllDigits(Text(n)) && NatOf(Text(n)) == n
  {
    if n < 10 {
      assert NatOf("") == 0 && [DigitChar(n)][..0] == "";
    } else {
      TextIsNumeral(n / 10);
      LastDigit(Text(n / 10), n % 10);
    }
  }

  lemma {:induction false} LastDigit(s: string, d: nat)
    requires AllDigits(s) && d < 10
    ensures AllDigits(s + [DigitChar(d)]) && NatOf(s + [DigitChar(d)]) == 10 * NatOf(s) + d
  {
    assert (s + [DigitChar(d)])[..|s|] == s;
  }

  lemma {:induction false} TextLength(n: nat, k: nat)
    requires k > 0 && n < Pow10(k)
    ensures |Text(n)| <= k
  {
    if n >= 10 {
      TextLength(n / 10, k - 1);
    }
  }

  lemma {:induction false} PrintedIsWellFormed(value: int)
    ensures Printed(value).WellFormed() && |Printed(value).fraction| == STROOP_DECIMALS
    ensures NatOf(Printed(value).whole) == Abs(value) / STROOP_SCALE
    ensures NatOf(Printed(value).fraction) == Abs(value) % STROOP_SCALE
  {
    TextIsNumeral(Abs(value) / STROOP_SCALE);
    PaddedText(Abs(value) % STROOP_SCALE);
  }

  lemma {:induction false} PrintedIsPrinted(value: int)
    requires Printed(value).WellFormed() && |Printed(value).fraction| == STROOP_DECIMALS
    ensures FromStroops(value) == Spell(Printed(value))
  {
    var d := Printed(value);
    assert FromStroops(value) == (if value < 0 then "-" else "") + d.whole + "." + d.fraction;
  }

  lemma {:induction false} PaddedText(low: nat)
    requires low < STROOP_SCALE
    ensures var t := PadStart(Text(low), STROOP_DECIMALS);
            |t| == STROOP_DECIMALS && AllDigits(t) && NatOf(t) == low
  {
    TextIsNumeral(low);
    Pow10Seven();
    TextLength(low, STROOP_DECIMALS);
    hide Text, NatOf;
    LeadingZeros(Text(low), STROOP_DECIMALS - |Text(low)|);
    assert PadStart(Text(low), STROOP_DECIMALS) == Zeros(STROOP_DECIMALS - |Text(low)|) + Text(low);
  }

  /** Parsing what was printed gives back every stroop amount, in every mode. */
  lemma {:induction false} ParseAfterPrint(value: int, mode: RoundingMode)
    ensures ToStroops(FromStroops(value), mode) == Ok(value)
  {
    PrintedIsWellFormed(value);
    PrintedIsPrinted(value);
    PrintedMagnitude(value, mode);
    hide FromStroops, ToStroops, Magnitude, Spell;
    ToStroopsOfSpelling(Printed(value), mode);
  }

  lemma {:induction false} PrintedMagnitude(value: int, mode: RoundingMode)
    requires Printed(value).WellFormed()
    ensures Magnitude(Printed(value).whole, Printed(value).fraction, mode) == Ok(Abs(value))
  {
    PrintedIsWellFormed(value);
    hide Printed, NatOf;
  }

  function StripZeros(w: string): string {
    if |w| > 1 && w[0] == '0' then StripZeros(w[1..]) else w
  }

  /** One spelling per stroop amount: no redundant leading zero, seven fractional digits, no minus on zero. */
  function Canonical(d: Decimal): Decimal {
    Decimal(d.negative && !(AllZeros(d.whole) && AllZeros(d.fraction)),
            StripZeros(d.whole), PadEnd(d.fraction, STROOP_DECIMALS))
  }

  lemma {:induction false} StripZerosIs(w: string)
    requires AllDigits(w) && w != ""
    ensures StripZeros(w) != "" && |StripZeros(w)| <= |w|
    ensures w == Zeros(|w| - |StripZeros(w)|) + StripZeros(w)
  {
    if |w| > 1 && w[0] == '0' {
      StripZerosIs(w[1..]);
      assert w == ['0'] + w[1..];
    }
  }

  lemma {:induction false} StripZerosAppend(w: string, c: char)
    requires AllDigits(w) && IsDigit(c)
    ensures StripZeros(w + [c]) == if AllZeros(w) then [c] else StripZeros(w) + [c]
  {
    if w != "" {
      assert (w + [c])[1..] == w[1..] + [c];
      if w[0] == '0' {
        StripZerosAppend(w[1..], c);
        assert AllZeros(w[1..]) ==> AllZeros(w);
      }
    } else {
      assert w + [c] == [c];
    }
  }

  lemma {:induction false} TextOfNumeral(w: string)
    requires AllDigits(w) && w != ""
    ensures Text(NatOf(w)) == StripZeros(w)
  {
    var h, c := w[..|w| - 1], w[|w| - 1];
    NumeralSplits(w, h, c);
    TextAppend(NatOf(h), c);
    if NatOf(h) != 0 {
      TextOfNumeral(h);
    }
  }

  lemma {:induction false} NumeralSplits(w: string, h: string, c: char)
    requires AllDigits(h) && IsDigit(c) && w == h + [c]
    ensures NatOf(w) == 10 * NatOf(h) + DigitValue(c)
    ensures StripZeros(w) == if NatOf(h) == 0 then [c] else StripZeros(h) + [c]
    ensures NatOf(h) != 0 ==> h != ""
  {
    assert w[..|w| - 1] == h;
    StripZerosAppend(h, c);
    NatOfBound(h);
  }

  lemma {:induction false} TextAppend(m: nat, c: char)
    requires IsDigit(c)
    ensures Text(10 * m + DigitValue(c)) == if m == 0 then [c] else Text(m) + [c]
  {
    assert DigitChar(DigitValue(c)) == c;
  }

  /** Printing what was parsed gives the canonical spelling of every input with at most seven fractional digits. */
  lemma {:induction false} PrintAfterParse(input: string, mode: RoundingMode)
    requires MatchesDecimal(Trim(input)) && |Dissect(Trim(input)).fraction| <= STROOP_DECIMALS
    ensures ToStroops(input, mode).Ok?
    ensures FromStroops(ToStroops(input, mode).value) == Spell(Canonical(Dissect(Trim(input))))
  {
    MatchedIsSpelled(Trim(input));
    var d := Dissect(Trim(input));
    hide Trim, Dissect, MatchesDecimal, FromStroops, Spell, NatOf, RoundDiv, Printed, Canonical;
    var v := ToStroops(input, mode).value;
    PrintedIsCanonical(d, v);
    PrintedIsWellFormed(v);
    PrintedIsPrinted(v);
  }

  lemma {:induction false} PrintedIsCanonical(d: Decimal, v: int)
    requires d.WellFormed() && |d.fraction| <= STROOP_DECIMALS
    requires AllDigits(PadEnd(d.fraction, STROOP_DECIMALS))
    requires Abs(v) == NatOf(d.whole) * STROOP_SCALE + NatOf(PadEnd(d.fraction, STROOP_DECIMALS))
    requires d.negative ==> v <= 0
    requires !d.negative ==> v >= 0
    ensures Printed(v) == Canonical(d)
  {
    var padded := PadEnd(d.fraction, STROOP_DECIMALS);
    Pow10Seven();
    NatOfBound(padded);
    NatOfBound(d.whole);
    PaddingIsZeros(d.fraction);
    hide NatOf, Text, StripZeros, PadStart, PadEnd, AllZeros, AllDigits, Pow10;
    SplitStroops(NatOf(d.whole), NatOf(padded), Abs(v));
    TextOfNumeral(d.whole);
    PaddedTextOfNumeral(padded);
    assert Abs(v) == 0 <==> AllZeros(d.whole) && AllZeros(d.fraction);
  }

  lemma {:induction false} PaddingIsZeros(f: string)
    ensures AllZeros(PadEnd(f, STROOP_DECIMALS)) <==> AllZeros(f)
  {
    var padded := PadEnd(f, STROOP_DECIMALS);
    assert forall i :: 0 <= i < |f| ==> padded[i] == f[i];
  }

  lemma {:induction false} SplitStroops(hi: nat, lo: nat, n: nat)
    requires lo < STROOP_SCALE && n == hi * STROOP_SCALE + lo
    ensures n / STROOP_SCALE == hi && n % STROOP_SCALE == lo
  {
  }

  lemma {:induction false} PaddedTextOfNumeral(s: string)
    requires AllDigits(s) && |s| == STROOP_DECIMALS
    ensures PadStart(Text(NatOf(s)), STROOP_DECIMALS) == s
  {
    hide NatOf, StripZeros, Text;
    TextOfNumeral(s);
    StripZerosIs(s);
  }
}

/**
 Reading the stroop amount of an indexed event
 (backend/src/controllers/simulationController.ts, `parseEventAmountStroops`).
 */
module EventAmount {
  import opened Wrappers
  import opened DecimalText

  datatype AmountError = FractionalAmount | NotAnInteger

  /** /[1-9]/ */
  predicate HasNonzeroDigit(s: string) {
    exists i :: 0 <= i < |s| && '1' <= s[i] <= '9'
  }

  /** The value of a digit in a radix up to sixteen; sixteen when it is no digit at all. */
  function RadixDigit(c: char): nat {
    if IsDigit(c) then DigitValue(c)
    else if 'a' <= c <= 'f' then c as int - 'a' as int + 10
    else if 'A' <= c <= 'F' then c as int - 'A' as int + 10
    else 16
  }

  function RadixNat(s: string, radix: nat): nat {
    if s == "" then 0 else radix * RadixNat(s[..|s| - 1], radix) + RadixDigit(s[|s| - 1])
  }

  /** The radix of a literal that starts with 0x, 0o or 0b, and zero for any other string. */
  function RadixOf(t: string): nat {
    if |t| <= 2 || t[0] != '0' then 0
    else if t[1] in "xX" then 16
    else if t[1] in "oO" then 8
    else if t[1] in "bB" then 2
    else 0
  }

  /** `BigInt(s)` on a string, which throws a SyntaxError on what is not an integer literal. */
  function BigIntOf(s: string): Result<int, AmountError> {
    var t := Trim(s);
    if t == "" then Ok(0)
    else if RadixOf(t) > 0 then RadixInteger(t[2..], RadixOf(t))
    else SignedInteger(t)
  }

  function RadixInteger(digits: string, radix: nat): Result<int, AmountError> {
    if forall i :: 0 <= i < |digits| ==> RadixDigit(digits[i]) < radix then Ok(RadixNat(digits, radix))
    else Err(NotAnInteger)
  }

  function SignedInteger(t: string): Result<int, AmountError>
    requires t != ""
  {
    var digits := if t[0] == '-' || t[0] == '+' then t[1..] else t;
    if digits == "" || !AllDigits(digits) then Err(NotAnInteger)
    else Ok(if t[0] == '-' then 0 - NatOf(digits) else NatOf(digits))
  }

  function ParseEventAmount(raw: Option<string>): Result<int, AmountError> {
    if raw == None || raw.value == "" then Ok(0)
    else
      var whole := if UntilDot(raw.value) == "" then "0" else UntilDot(raw.value);
      if HasNonzeroDigit(AfterDot(raw.value)) then Err(FractionalAmount) else BigIntOf(whole)
  }

  // ----- fractions

  lemma {:induction false} FractionIsZeroIff(f: string)
    requires AllDigits(f)
    ensures 0.0 <= FractionValue(f) < 1.0
    ensures FractionValue(f) == 0.0 <==> !HasNonzeroDigit(f)
  {
    if f == "" {
    } else {
      FractionIsZeroIff(f[1..]);
      var d, rest := DigitValue(f[0]), FractionValue(f[1..]);
      assert FractionValue(f) == (d as real + rest) / 10.0;
      if HasNonzeroDigit(f[1..]) {
        var i :| 0 <= i < |f[1..]| && '1' <= f[1..][i] <= '9';
        assert f[i + 1] == f[1..][i];
      } else if f[0] == '0' {
        forall i | 0 <= i < |f| ensures !('1' <= f[i] <= '9') {
          if i > 0 {
            assert f[i] == f[1..][i - 1];
          }
        }
      } else {
        assert '1' <= f[0] <= '9';
      }
    }
  }

  lemma {:induction false} IntegerPart(n: int, fraction: real)
    requires 0.0 <= fraction < 1.0
    ensures IsWhole(n as real + fraction) <==> fraction == 0.0
    ensures IsWhole(-(n as real + fraction)) <==> fraction == 0.0
  {
    WholePlusFraction(n, fraction);
    if IsWhole(-(n as real + fraction)) {
      var m :| Denotes(-(n as real + fraction), m);
      assert fraction == (-m - n) as real;
    }
    if fraction == 0.0 {
      assert Denotes(-(n as real + fraction), -n);
    }
  }

  // ----- the parser is exact

  lemma {:induction false} SpellingSplits(d: Decimal)
    requires d.WellFormed()
    ensures UntilDot(Spell(d)) == Spell(Decimal(d.negative, d.whole, "")) && AfterDot(Spell(d)) == d.fraction
  {
    var u := Unsigned(d.whole, d.fraction);
    UnsignedReads(d.whole, d.fraction);
    assert d.whole + "" == d.whole;
    if d.negative {
      var t := Spell(d);
      assert t == ['-'] + u && t[1..] == u;
      var n := |UntilDot(u)|;
      assert UntilDot(t) == ['-'] + UntilDot(u);
      if n < |u| {
        assert t[n + 2..] == u[n + 1..];
      }
    } else {
      assert Spell(d) == u;
    }
  }

  lemma {:induction false} PlainRadix(t: string)
    requires |t| > 1 ==> t[0] != '0' || IsDigit(t[1])
    ensures RadixOf(t) == 0
  {
  }

  lemma {:induction false} IntegerSpelling(negative: bool, whole: string)
    requires AllDigits(whole) && whole != ""
    ensures var t := Spell(Decimal(negative, whole, ""));
            && t == (if negative then ['-'] + whole else whole)
            && Trim(t) == t && RadixOf(t) == 0
  {
    var t := Spell(Decimal(negative, whole, ""));
    TrimSpelling(Decimal(negative, whole, ""));
    assert whole + "" == whole;
    assert IsDigit(whole[0]) && (|whole| > 1 ==> IsDigit(whole[1]));
    PlainRadix(t);
  }

  lemma {:induction false} SignedDigits(negative: bool, whole: string, t: string)
    requires AllDigits(whole) && whole != "" && t == if negative then ['-'] + whole else whole
    ensures t != "" && SignedInteger(t) == Ok(if negative then 0 - NatOf(whole) else NatOf(whole))
  {
    hide NatOf;
    if negative {
      assert t[0] == '-' && t[1..] == whole;
    } else {
      assert IsDigit(t[0]);
    }
  }

  lemma {:induction false} BigIntOfInteger(negative: bool, whole: string)
    requires AllDigits(whole) && whole != ""
    ensures BigIntOf(Spell(Decimal(negative, whole, ""))) == Ok(if negative then 0 - NatOf(whole) else NatOf(whole))
  {
    IntegerSpelling(negative, whole);
    SignedDigits(negative, whole, Spell(Decimal(negative, whole, "")));
    hide Spell, Trim, RadixOf, RadixInteger, SignedInteger, NatOf;
  }

  function WholePart(d: Decimal): int
    requires d.WellFormed()
  {
    if d.negative then 0 - NatOf(d.whole) else NatOf(d.whole)
  }

  lemma {:induction false} ParseSpelling(d: Decimal)
    requires d.WellFormed()
    ensures ParseEventAmount(Some(Spell(d)))
         == if HasNonzeroDigit(d.fraction) then Err(FractionalAmount) else Ok(WholePart(d))
  {
    SpellingSplits(d);
    BigIntOfInteger(d.negative, d.whole);
    assert |Spell(d)| > 0 && |Spell(Decimal(d.negative, d.whole, ""))| > 0;
    hide Spell, UntilDot, AfterDot, HasNonzeroDigit, BigIntOf, NatOf;
  }

  lemma {:induction false} WholeIff(d: Decimal)
    requires d.WellFormed()
    ensures IsWhole(Value(d)) <==> !HasNonzeroDigit(d.fraction)
    ensures IsWhole(Value(d)) ==> Value(d) == WholePart(d) as real
  {
    FractionIsZeroIff(d.fraction);
    IntegerPart(NatOf(d.whole), FractionValue(d.fraction));
    hide HasNonzeroDigit, NatOf, FractionValue, IsWhole;
  }

  /**
   A decimal is accepted exactly when it denotes an integer, and is then read as that integer: nothing
   is truncated.
   */
  lemma {:induction false} AmountIsExact(d: Decimal)
    requires d.WellFormed()
    ensures var r := ParseEventAmount(Some(Spell(d)));
            && (r.Ok? <==> IsWhole(Value(d)))
            && (r.Ok? ==> r.value as real == Value(d))
            && (r.Err? ==> r.error == FractionalAmount)
  {
    ParseSpelling(d);
    WholeIff(d);
    hide *;
  }

  /** `bigint.toString()`, which is how the indexer writes an amount. */
  function IntText(x: int): string {
    if x < 0 then "-" + Text(-x) else Text(x)
  }

  lemma {:induction false} ParseAfterIndexing(x: int)
    ensures ParseEventAmount(Some(IntText(x))) == Ok(x)
  {
    var n := if x < 0 then -x else x;
    TextIsNumeral(n);
    var d := Decimal(x < 0, Text(n), "");
    assert Text(n) + "" == Text(n);
    assert Spell(d) == IntText(x);
    assert !HasNonzeroDigit(d.fraction);
    hide ParseEventAmount, Text, NatOf, HasNonzeroDigit, Spell, IntText;
    ParseSpelling(d);
  }

  /** The other texts that are read: none at all is 0, an empty whole part is 0, and a plus sign may stand in front. */
  lemma {:induction false} UnspelledAmounts(digits: string, fraction: string)
    requires AllDigits(digits) && digits != "" && AllDigits(fraction)
    ensures ParseEventAmount(None) == Ok(0) && ParseEventAmount(Some("")) == Ok(0)
    ensures ParseEventAmount(Some("." + fraction)) == if HasNonzeroDigit(fraction) then Err(FractionalAmount) else Ok(0)
    ensures BigIntOf("+" + digits) == Ok(NatOf(digits))
  {
    PlusSign(digits);
    NoWholePart(fraction);
  }

  lemma {:induction false} PlusSign(digits: string)
    requires AllDigits(digits) && digits != ""
    ensures BigIntOf("+" + digits) == Ok(NatOf(digits))
  {
    var t := "+" + digits;
    assert IsDigit(t[|t| - 1]) && t[0] == '+';
    assert Trim(t) == t;
    PlainRadix(t);
    assert t[1..] == digits;
    hide Trim, RadixOf, NatOf, RadixInteger;
  }

  lemma {:induction false} NoWholePart(fraction: string)
    requires AllDigits(fraction)
    ensures ParseEventAmount(Some("." + fraction)) == if HasNonzeroDigit(fraction) then Err(FractionalAmount) else Ok(0)
  {
    DotFirst(fraction);
    ZeroIsRead();
    assert |"." + fraction| > 0;
    hide UntilDot, AfterDot, HasNonzeroDigit, BigIntOf;
  }

  lemma {:induction false} DotFirst(fraction: string)
    requires AllDigits(fraction)
    ensures UntilDot("." + fraction) == "" && AfterDot("." + fraction) == fraction
  {
    var t := "." + fraction;
    DigitsThenDot(fraction, "");
    assert fraction + "" == fraction;
    assert UntilDot(t) == "";
    assert t[1..] == fraction;
  }

  lemma {:induction false} ZeroIsRead()
    ensures BigIntOf("0") == Ok(0)
  {
    BigIntOfInteger(false, "0");
    assert "0" + "" == "0";
    assert Spell(Decimal(false, "0", "")) == "0";
    assert NatOf("0") == 0;
    hide BigIntOf;
  }

  /** A literal in radix 16, 8 or 2, by the letter after its zero; one digit outside the radix and it is refused. */
  lemma {:induction false} RadixLiteral(letter: char, digits: string)
    requires letter in "xXoObB" && digits != "" && RadixDigit(digits[|digits| - 1]) < 16
    ensures var radix := if letter == 'x' || letter == 'X' then 16 else if letter == 'o' || letter == 'O' then 8 else 2;
            BigIntOf(['0', letter] + digits)
            == if forall i :: 0 <= i < |digits| ==> RadixDigit(digits[i]) < radix then Ok(RadixNat(digits, radix))
               else Err(NotAnInteger)
  {
    var t := ['0', letter] + digits;
    assert t[|t| - 1] == digits[|digits| - 1];
    assert Trim(t) == t;
    assert t[2..] == digits;
    hide Trim, RadixDigit, RadixNat;
  }

  /** In radix ten the value is the one a decimal's digits have. */
  lemma {:induction false} RadixTen(s: string)
    requires AllDigits(s)
    ensures RadixNat(s, 10) == NatOf(s)
  {
    if s == "" {
    } else {
      var last := |s| - 1;
      RadixTen(s[..last]);
      assert RadixDigit(s[last]) == DigitValue(s[last]);
    }
  }
}

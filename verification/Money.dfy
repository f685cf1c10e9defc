/**
 Money as cents and as text, and its percentages. The final division of a rounded percentage by ten is
 left to floating point.
 */
module Money {
  import opened Basics

  const MAX_MONEY_INPUT_CENTS := 9_999_999_999

  // ------------------------------------------------------------------ text

  predicate IsDigit(c: char) {
    '0' <= c <= '9'
  }

  predicate AllDigits(s: string) {
    forall i :: 0 <= i < |s| ==> IsDigit(s[i])
  }

  function LeadingDigits(s: string): (n: nat)
    ensures n <= |s| && AllDigits(s[..n]) && (n < |s| ==> !IsDigit(s[n]))
  {
    if s == "" || !IsDigit(s[0]) then 0
    else
      var n := 1 + LeadingDigits(s[1..]);
      assert s[..n] == [s[0]] + s[1..][..n - 1];
      n
  }

  datatype Match = NoMatch | Match(negative: bool, integer: string, fraction: string)

  /** ^(\d+)(?:\.(\d{1,2}))?$, after a sign that was taken off. */
  function MatchUnsigned(s: string, negative: bool): (m: Match)
    ensures m.Match? ==> AllDigits(m.integer) && m.integer != "" && AllDigits(m.fraction) && |m.fraction| <= 2
    ensures m.Match? ==> s == m.integer + (if m.fraction == "" then "" else "." + m.fraction)
  {
    var n := LeadingDigits(s);
    var (integer, tail) := (s[..n], s[n..]);
    if n == 0 then NoMatch
    else if tail == "" then Match(negative, integer, "")
    else if tail[0] == '.' && 2 <= |tail| <= 3 && AllDigits(tail[1..])
    then
      assert tail == "." + tail[1..];
      Match(negative, integer, tail[1..])
    else NoMatch
  }

  /** ^(-?)(\d+)(?:\.(\d{1,2}))?$ */
  function MatchSigned(s: string): Match {
    if s != "" && s[0] == '-' then MatchUnsigned(s[1..], true) else MatchUnsigned(s, false)
  }

  function DigitValue(c: char): (d: nat)
    requires IsDigit(c)
    ensures d < 10
  {
    c as nat - '0' as nat
  }

  function DigitChar(d: nat): (c: char)
    requires d < 10
    ensures IsDigit(c) && DigitValue(c) == d
  {
    ('0' as nat + d) as char
  }

  /** BigInt(text). */
  function ValueOf(s: string): nat
    requires AllDigits(s)
  {
    if s == "" then 0 else 10 * ValueOf(s[..|s| - 1]) + DigitValue(s[|s| - 1])
  }

  /** toString(). */
  function DigitsOf(n: nat): (s: string)
    ensures AllDigits(s) && s != ""
    decreases n
  {
    if n < 10 then [DigitChar(n)] else DigitsOf(n / 10) + [DigitChar(n % 10)]
  }

  function PadEnd(s: string): string {
    if |s| == 0 then "00" else if |s| == 1 then s + "0" else s
  }

  function PadStart(s: string): string {
    if |s| == 0 then "000" else if |s| == 1 then "00" + s else if |s| == 2 then "0" + s else s
  }

  function ToCents(integer: string, fraction: string): nat
    requires AllDigits(integer) && AllDigits(fraction)
  {
    ValueOf(integer + PadEnd(fraction))
  }

  /** A stored or computed value; None where the code throws. */
  function ParseMoney(s: string): Option<int> {
    var m := MatchSigned(s);
    if m.NoMatch? then None
    else Some(if m.negative then -(ToCents(m.integer, m.fraction) as int) else ToCents(m.integer, m.fraction))
  }

  /** A request amount. */
  function ParseMoneyInput(s: string): Option<int> {
    var m := MatchUnsigned(s, false);
    if m.NoMatch? then None
    else if ToCents(m.integer, m.fraction) <= MAX_MONEY_INPUT_CENTS then Some(ToCents(m.integer, m.fraction))
    else None
  }

  function FormatMoney(cents: int): string {
    var digits := PadStart(DigitsOf(if cents < 0 then -cents else cents));
    (if cents < 0 then "-" else "") + digits[..|digits| - 2] + "." + digits[|digits| - 2..]
  }

  // ------------------------------------------------------------------ digits

  lemma {:induction false} DigitsHaveTheirValue(n: nat)
    ensures ValueOf(DigitsOf(n)) == n
    decreases n
  {
    if n < 10 {
      assert DigitsOf(n)[..0] == "";
    } else {
      DigitsHaveTheirValue(n / 10);
      assert DigitsOf(n)[..|DigitsOf(n)| - 1] == DigitsOf(n / 10);
    }
  }

  lemma {:induction false} LeadingZero(s: string)
    requires AllDigits(s)
    ensures AllDigits("0" + s) && ValueOf("0" + s) == ValueOf(s)
  {
    if s == "" {
      assert ("0" + s)[..0] == "";
    } else {
      LeadingZero(s[..|s| - 1]);
      assert ("0" + s)[..|s|] == "0" + s[..|s| - 1];
    }
  }

  lemma PaddingKeepsTheValue(s: string)
    requires AllDigits(s) && s != ""
    ensures AllDigits(PadStart(s)) && |PadStart(s)| >= 3 && ValueOf(PadStart(s)) == ValueOf(s)
  {
    LeadingZero(s);
    if |s| == 1 {
      LeadingZero("0" + s);
      assert "0" + ("0" + s) == "00" + s;
    }
  }

  lemma {:induction false} DigitsRunToTheEnd(s: string, rest: string)
    requires AllDigits(s) && (rest == "" || !IsDigit(rest[0]))
    ensures LeadingDigits(s + rest) == |s|
  {
    if s == "" {
      assert s + rest == rest;
    } else {
      DigitsRunToTheEnd(s[1..], rest);
      assert (s + rest)[1..] == s[1..] + rest;
    }
  }

  /** The pattern matches exactly a run of digits with at most two decimals. */
  lemma EveryAmountMatches(integer: string, fraction: string, negative: bool)
    requires AllDigits(integer) && integer != "" && AllDigits(fraction) && |fraction| <= 2
    ensures MatchUnsigned(integer + (if fraction == "" then "" else "." + fraction), negative)
            == Match(negative, integer, fraction)
  {
    var tail := if fraction == "" then "" else "." + fraction;
    var s := integer + tail;
    DigitsRunToTheEnd(integer, tail);
    assert s[..|integer|] == integer && s[|integer|..] == tail;
    assert fraction != "" ==> tail[1..] == fraction;
  }

  lemma SignIsTakenOff(s: string, sign: string, negative: bool)
    requires s != "" && IsDigit(s[0]) && sign == if negative then "-" else ""
    ensures MatchSigned(sign + s) == MatchUnsigned(s, negative)
  {
    if negative {
      assert (sign + s)[1..] == s;
    } else {
      assert sign + s == s;
    }
  }

  lemma Regroup(sign: string, integer: string, fraction: string)
    ensures sign + (integer + ("." + fraction)) == sign + integer + "." + fraction
  {
  }

  lemma SignedTextMatches(integer: string, fraction: string, sign: string, negative: bool)
    requires AllDigits(integer) && integer != "" && AllDigits(fraction) && |fraction| == 2
    requires sign == if negative then "-" else ""
    ensures MatchSigned(sign + integer + "." + fraction) == Match(negative, integer, fraction)
  {
    EveryAmountMatches(integer, fraction, negative);
    SignIsTakenOff(integer + ("." + fraction), sign, negative);
    Regroup(sign, integer, fraction);
  }

  // ------------------------------------------------------------------ what a text is worth

  /** Appending a digit multiplies by ten. */
  lemma OneMoreDigit(s: string, c: char)
    requires AllDigits(s) && IsDigit(c)
    ensures ValueOf(s + [c]) == 10 * ValueOf(s) + (c as nat - '0' as nat)
  {
    assert (s + [c])[..|s + [c]| - 1] == s;
  }

  lemma OneDigit(c: char)
    requires IsDigit(c)
    ensures ValueOf([c]) == c as nat - '0' as nat
  {
    assert [c] == "" + [c];
    OneMoreDigit("", c);
  }

  /** A whole counts a hundred cents; one decimal counts ten of them, two decimals one each. */
  function Worth(integer: string, fraction: string): nat
    requires AllDigits(integer) && AllDigits(fraction)
  {
    100 * ValueOf(integer) + if |fraction| == 1 then 10 * ValueOf(fraction) else ValueOf(fraction)
  }

  lemma DecimalsCountCents(integer: string, fraction: string)
    requires AllDigits(integer) && AllDigits(fraction) && |fraction| <= 2
    ensures ToCents(integer, fraction) == Worth(integer, fraction)
  {
    var padded := PadEnd(fraction);
    OneMoreDigit(integer, padded[0]);
    OneMoreDigit(integer + [padded[0]], padded[1]);
    assert integer + [padded[0]] + [padded[1]] == integer + padded;
    if |fraction| == 1 {
      assert fraction == [padded[0]];
      OneDigit(padded[0]);
    } else if |fraction| == 2 {
      OneDigit(padded[0]);
      OneMoreDigit([padded[0]], padded[1]);
      assert fraction == [padded[0]] + [padded[1]];
    }
  }

  function Decimals(fraction: string): string {
    if fraction == "" then "" else "." + fraction
  }

  lemma SignedAmountMatches(integer: string, fraction: string, sign: string, negative: bool)
    requires AllDigits(integer) && integer != "" && AllDigits(fraction) && |fraction| <= 2
    requires sign == if negative then "-" else ""
    ensures MatchSigned(sign + (integer + Decimals(fraction))) == Match(negative, integer, fraction)
  {
    EveryAmountMatches(integer, fraction, negative);
    assert (integer + Decimals(fraction))[0] == integer[0];
    SignIsTakenOff(integer + Decimals(fraction), sign, negative);
  }

  /** What is read from any amount, with none, one or two decimals and either sign. */
  lemma AmountsAreReadByTheirDecimals(integer: string, fraction: string, sign: string, negative: bool)
    requires AllDigits(integer) && integer != "" && AllDigits(fraction) && |fraction| <= 2
    requires sign == if negative then "-" else ""
    ensures ParseMoney(sign + (integer + Decimals(fraction)))
            == Some(if negative then -(Worth(integer, fraction) as int) else Worth(integer, fraction))
    ensures ParseMoneyInput(integer + Decimals(fraction))
            == if Worth(integer, fraction) <= 9_999_999_999 then Some(Worth(integer, fraction)) else None
  {
    SignedAmountMatches(integer, fraction, sign, negative);
    EveryAmountMatches(integer, fraction, false);
    DecimalsCountCents(integer, fraction);
  }

  lemma UnsignedIsAnAmount(s: string, negative: bool, m: Match)
    requires m == MatchUnsigned(s, negative) && m.Match?
    ensures AllDigits(m.integer) && m.integer != "" && AllDigits(m.fraction) && |m.fraction| <= 2
    ensures s == m.integer + Decimals(m.fraction) && m.negative == negative
  {
  }

  /** Nothing else is read. */
  lemma OnlyAmountsAreRead(s: string, m: Match)
    requires m == MatchSigned(s) && ParseMoney(s).Some?
    ensures m.Match? && AllDigits(m.integer) && m.integer != "" && AllDigits(m.fraction) && |m.fraction| <= 2
    ensures s == if m.negative then "-" + (m.integer + Decimals(m.fraction)) else m.integer + Decimals(m.fraction)
  {
    if s != "" && s[0] == '-' {
      UnsignedIsAnAmount(s[1..], true, m);
      assert s == "-" + s[1..];
    } else {
      UnsignedIsAnAmount(s, false, m);
    }
  }

  // ------------------------------------------------------------------ round trips

  /** The parts of a formatted amount. */
  lemma FormatHasParts(cents: int) returns (integer: string, fraction: string)
    ensures AllDigits(integer) && integer != "" && AllDigits(fraction) && |fraction| == 2
    ensures FormatMoney(cents) == (if cents < 0 then "-" else "") + integer + "." + fraction
    ensures ValueOf(integer + fraction) == if cents < 0 then -cents else cents
  {
    var n := if cents < 0 then -cents else cents;
    DigitsHaveTheirValue(n);
    PaddingKeepsTheValue(DigitsOf(n));
    var digits := PadStart(DigitsOf(n));
    integer, fraction := digits[..|digits| - 2], digits[|digits| - 2..];
    assert integer + fraction == digits;
  }

  /** Reading what was written gives back every number of cents. */
  lemma ParseUndoesFormat(cents: int)
    ensures ParseMoney(FormatMoney(cents)) == Some(cents)
  {
    var integer, fraction := FormatHasParts(cents);
    SignedTextMatches(integer, fraction, if cents < 0 then "-" else "", cents < 0);
  }

  /** A request's amount reads the same, from nothing to the most it may be, and is refused otherwise. */
  lemma InputReadsTheSame(cents: int)
    ensures ParseMoneyInput(FormatMoney(cents)) == if 0 <= cents <= 9_999_999_999 then Some(cents) else None
  {
    var integer, fraction := FormatHasParts(cents);
    if cents < 0 {
      assert FormatMoney(cents)[0] == '-';
    } else {
      Regroup("", integer, fraction);
      assert FormatMoney(cents) == integer + ("." + fraction);
      EveryAmountMatches(integer, fraction, false);
    }
  }

  /** Whatever a request may send, it is stored as the value the text has. */
  lemma InputAgreesWithMoney(s: string)
    ensures ParseMoneyInput(s).Some? ==>
              ParseMoney(s) == ParseMoneyInput(s) && 0 <= ParseMoneyInput(s).value <= MAX_MONEY_INPUT_CENTS
  {
    if ParseMoneyInput(s).Some? {
      assert s[0] != '-';
    }
  }

  /** Text as it is written: two decimals, no spare zero in front, no minus on zero. */
  predicate IsCanonical(s: string) {
    var m := MatchSigned(s);
    && m.Match? && |m.fraction| == 2
    && (|m.integer| > 1 ==> m.integer[0] != '0')
    && (m.negative ==> ValueOf(m.integer + m.fraction) != 0)
  }

  /** A number's digits are the only ones with its value that do not begin with a zero. */
  lemma {:induction false} DigitsAreUnique(s: string)
    requires AllDigits(s) && s != "" && (|s| > 1 ==> s[0] != '0')
    ensures DigitsOf(ValueOf(s)) == s
    ensures |s| > 1 ==> ValueOf(s) >= 10
  {
    var last := s[|s| - 1];
    if |s| == 1 {
      assert s[..0] == "";
    } else {
      var init := s[..|s| - 1];
      DigitsAreUnique(init);
      NotZero(init);
      assert s == init + [last];
    }
  }

  lemma NotZero(s: string)
    requires AllDigits(s) && s != "" && s[0] != '0' && DigitsOf(ValueOf(s)) == s
    ensures ValueOf(s) > 0
  {
    assert DigitsOf(0) == [DigitChar(0)];
  }

  /** The digits of an amount, padded to three, are its canonical integer and decimals. */
  lemma PaddedDigits(integer: string, fraction: string)
    requires AllDigits(integer) && integer != "" && AllDigits(fraction) && |fraction| == 2
    requires |integer| > 1 ==> integer[0] != '0'
    ensures PadStart(DigitsOf(ValueOf(integer + fraction))) == integer + fraction
  {
    var s := integer + fraction;
    if integer[0] != '0' {
      DigitsAreUnique(s);
    } else {
      assert integer == "0" && s == "0" + fraction;
      LeadingZero(fraction);
      if fraction[0] != '0' {
        DigitsAreUnique(fraction);
      } else {
        assert fraction == "0" + fraction[1..];
        LeadingZero(fraction[1..]);
        DigitsAreUnique(fraction[1..]);
        assert s == "00" + fraction[1..];
      }
    }
  }

  /** Writing what was read gives back exactly the canonical texts. */
  lemma FormatUndoesParse(s: string)
    requires ParseMoney(s).Some?
    ensures FormatMoney(ParseMoney(s).value) == s <==> IsCanonical(s)
  {
    var m := MatchSigned(s);
    if IsCanonical(s) {
      CanonicalIsFormatted(s, m);
    }
    if FormatMoney(ParseMoney(s).value) == s {
      FormattedIsCanonical(ParseMoney(s).value);
    }
  }

  lemma MatchedText(s: string, m: Match, sign: string)
    requires m == MatchSigned(s) && m.Match? && m.fraction != "" && sign == if m.negative then "-" else ""
    ensures s == sign + m.integer + "." + m.fraction
  {
    Regroup(sign, m.integer, m.fraction);
    SignComesFirst(s, m, sign);
  }

  lemma SignComesFirst(s: string, m: Match, sign: string)
    requires m == MatchSigned(s) && m.Match? && m.fraction != "" && sign == if m.negative then "-" else ""
    ensures s == sign + (m.integer + ("." + m.fraction))
  {
    var rest := m.integer + ("." + m.fraction);
    if m.negative {
      assert s[1..] == rest && s == [s[0]] + s[1..];
    } else {
      assert s == rest;
    }
  }

  lemma WrittenText(cents: int, integer: string, fraction: string, sign: string)
    requires |fraction| == 2 && sign == if cents < 0 then "-" else ""
    requires PadStart(DigitsOf(if cents < 0 then -cents else cents)) == integer + fraction
    ensures FormatMoney(cents) == sign + integer + "." + fraction
  {
    var digits := integer + fraction;
    assert digits[..|digits| - 2] == integer && digits[|digits| - 2..] == fraction;
  }

  lemma CanonicalIsFormatted(s: string, m: Match)
    requires m == MatchSigned(s) && IsCanonical(s)
    ensures FormatMoney(ParseMoney(s).value) == s
  {
    PaddedDigits(m.integer, m.fraction);
    var sign := if m.negative then "-" else "";
    MatchedText(s, m, sign);
    WrittenText(ParseMoney(s).value, m.integer, m.fraction, sign);
  }

  lemma FormattedIsCanonical(cents: int)
    ensures IsCanonical(FormatMoney(cents))
  {
    var integer, fraction := FormatHasParts(cents);
    SignedTextMatches(integer, fraction, if cents < 0 then "-" else "", cents < 0);
    NoSpareZero(cents, integer, fraction);
  }

  lemma NoSpareZero(cents: int, integer: string, fraction: string)
    requires AllDigits(integer) && integer != "" && AllDigits(fraction) && |fraction| == 2
    requires FormatMoney(cents) == (if cents < 0 then "-" else "") + integer + "." + fraction
    ensures |integer| > 1 ==> integer[0] != '0'
  {
    var n := if cents < 0 then -cents else cents;
    var (d, sign) := (PadStart(DigitsOf(n)), if cents < 0 then "-" else "");
    PaddingKeepsTheValue(DigitsOf(n));
    assert |FormatMoney(cents)| == |sign| + |d| + 1 == |sign| + |integer| + 3;
    assert FormatMoney(cents)[|sign|] == d[0] == integer[0];
    if |integer| > 1 {
      FirstDigit(n);
    }
  }

  lemma {:induction false} FirstDigit(n: nat)
    ensures |DigitsOf(n)| > 1 ==> DigitsOf(n)[0] != '0'
    ensures n > 0 ==> DigitsOf(n)[0] != '0'
    decreases n
  {
    if n >= 10 {
      FirstDigit(n / 10);
    }
  }

  // ------------------------------------------------------------------ division

  /** BigInt division truncates toward zero. */
  function TruncDiv(a: int, b: int): int
    requires b != 0
  {
    if (a < 0) == (b < 0) then Abs(a) / Abs(b) else -(Abs(a) / Abs(b))
  }

  function TruncRem(a: int, b: int): int
    requires b != 0
  {
    if a < 0 then -(Abs(a) % Abs(b)) else Abs(a) % Abs(b)
  }

  function Abs(a: int): (n: nat)
    ensures n == a || n == -a
  {
    if a < 0 then -a else a
  }

  function FloorDiv(dividend: int, divisor: int): int
    requires divisor != 0
  {
    var quotient := TruncDiv(dividend, divisor);
    if TruncRem(dividend, divisor) != 0 && (dividend < 0) != (divisor < 0) then quotient - 1 else quotient
  }

  lemma SignsOut(q: int, n: int)
    ensures q * -n == -(q * n) && -q * n == -(q * n) && -q * -n == q * n
  {
  }

  lemma Euclid(m: nat, n: nat, q: int, r: int)
    requires n > 0 && q == m / n && r == m % n
    ensures m == q * n + r && 0 <= r < n
  {
  }

  lemma SignedQuotient(a: int, b: int, q: int, r: int, quotient: int, remainder: int)
    requires Abs(a) == q * Abs(b) + r && 0 <= r < Abs(b)
    requires quotient == if (a < 0) == (b < 0) then q else -q
    requires remainder == if a < 0 then -r else r
    ensures a == quotient * b + remainder && Abs(remainder) < Abs(b) && (remainder != 0 ==> (remainder < 0) == (a < 0))
  {
    SignsOut(q, Abs(b));
  }

  lemma QuotientAndRemainder(a: int, b: int)
    requires b != 0
    ensures a == TruncDiv(a, b) * b + TruncRem(a, b)
    ensures Abs(TruncRem(a, b)) < Abs(b) && (TruncRem(a, b) != 0 ==> (TruncRem(a, b) < 0) == (a < 0))
  {
    var (q, r) := (Abs(a) / Abs(b), Abs(a) % Abs(b));
    Euclid(Abs(a), Abs(b), q, r);
    SignedQuotient(a, b, q, r, TruncDiv(a, b), TruncRem(a, b));
  }

  /** It rounds toward negative infinity whatever the signs: what is left has the divisor's sign and is smaller. */
  lemma FloorDivIsFloor(a: int, b: int)
    requires b != 0
    ensures var left := a - FloorDiv(a, b) * b;
            if b > 0 then 0 <= left < b else b < left <= 0
  {
    QuotientAndRemainder(a, b);
    var (q, r) := (TruncDiv(a, b), TruncRem(a, b));
    assert (q - 1) * b == q * b - b;
  }

  // ------------------------------------------------------------------ percentages

  /** The tenths of a percent that part is of whole, before they are divided by ten. */
  function TenthsOf(part: int, whole: int): int
    requires whole != 0
  {
    FloorDiv(part * 2000 + whole, whole * 2)
  }

  /** How far u tenths of a percent of the whole are from the part, times a thousand. */
  function Distance(part: int, whole: int, u: int): nat {
    Abs(1000 * part - u * whole)
  }

  lemma TenthsAreFloored(part: int, whole: int)
    requires whole != 0
    ensures var left := part * 2000 + whole - TenthsOf(part, whole) * (whole * 2);
            if whole > 0 then 0 <= left < whole * 2 else whole * 2 < left <= 0
  {
    FloorDivIsFloor(part * 2000 + whole, whole * 2);
  }

  lemma HalfOfWhatIsLeft(part: int, whole: int, t: int)
    requires whole != 0
    requires var left := part * 2000 + whole - t * (whole * 2);
             if whole > 0 then 0 <= left < whole * 2 else whole * 2 < left <= 0
    ensures var rest := 1000 * part - t * whole;
            if whole > 0 then -whole <= 2 * rest < whole else whole < 2 * rest <= -whole
  {
    assert t * (whole * 2) == 2 * (t * whole);
  }

  lemma TenthsAreClose(part: int, whole: int, t: int)
    requires whole != 0 && t == TenthsOf(part, whole)
    ensures var rest := 1000 * part - t * whole;
            if whole > 0 then -whole <= 2 * rest < whole else whole < 2 * rest <= -whole
  {
    TenthsAreFloored(part, whole);
    HalfOfWhatIsLeft(part, whole, t);
  }

  lemma FartherByAWhole(whole: int, t: int, u: int)
    ensures u > t ==> (whole > 0 ==> u * whole >= t * whole + whole) && (whole < 0 ==> u * whole <= t * whole + whole)
    ensures u < t ==> (whole > 0 ==> u * whole <= t * whole - whole) && (whole < 0 ==> u * whole >= t * whole - whole)
  {
    var d := u - t;
    assert u * whole == t * whole + d * whole;
    if d > 0 {
      if whole > 0 { assert d * whole >= whole; }
      if whole < 0 { assert d * whole <= whole; }
    }
    if d < 0 {
      if whole > 0 { assert d * whole <= -whole; }
      if whole < 0 { assert d * whole >= -whole; }
    }
  }

  /** They are the nearest ones, and of two equally near the greater, for any signs. */
  lemma TenthsAreNearest(part: int, whole: int, u: int)
    requires whole != 0
    ensures Distance(part, whole, TenthsOf(part, whole)) <= Distance(part, whole, u)
    ensures Distance(part, whole, TenthsOf(part, whole)) == Distance(part, whole, u) ==> u <= TenthsOf(part, whole)
  {
    var t := TenthsOf(part, whole);
    TenthsAreClose(part, whole, t);
    FartherByAWhole(whole, t, u);
  }

  function FloorPercent(part: int, whole: int): int {
    if whole == 0 then 0 else FloorDiv(part * 100, whole)
  }

  /** A limit reads n percent or more exactly when that much of it is spent. */
  lemma PercentIsReached(part: int, whole: int, n: int)
    requires whole > 0
    ensures FloorPercent(part, whole) >= n <==> part * 100 >= n * whole
  {
    var p := FloorPercent(part, whole);
    FloorDivIsFloor(part * 100, whole);
    FartherByAWhole(whole, p, n);
  }
}

/**
 * Ether amounts as text: the printer of the call tree (`formatValue`) and the parser
 * of the simulation form (`toWeiHex`).
 */
module WeiText {
  import opened Options

  const WAD: nat := 1_000_000_000_000_000_000
  const WAD_DIGITS: nat := 18
  const SHOWN_DIGITS: nat := 6
  const UNIT := " ETH"

  // ---------- Decimal digits ----------

  predicate IsDigit(c: char) {
    '0' <= c <= '9'
  }

  predicate AllDigits(s: string) {
    forall i :: 0 <= i < |s| ==> IsDigit(s[i])
  }

  function Digit(d: nat): char
    requires d < 10
  {
    '0' + d as char
  }

  function DigitValue(c: char): nat
    requires IsDigit(c)
  {
    (c - '0') as nat
  }

  /** A number's decimal digits, without leading zeros. */
  function ToDigits(n: nat): string {
    if n < 10 then [Digit(n)] else ToDigits(n / 10) + [Digit(n % 10)]
  }

  /** The number a string of digits denotes; the empty string denotes zero. */
  function Value(s: string): nat
    requires AllDigits(s)
  {
    if s == [] then 0 else Value(s[..|s| - 1]) * 10 + DigitValue(s[|s| - 1])
  }

  function Pow10(n: nat): (p: nat)
    ensures p > 0
  {
    if n == 0 then 1 else 10 * Pow10(n - 1)
  }

  function Zeros(n: nat): (s: string)
    ensures |s| == n && AllDigits(s) && forall i :: 0 <= i < n ==> s[i] == '0'
  {
    seq(n, _ => '0')
  }

  lemma {:induction false} DigitsRoundTrip(n: nat)
    ensures AllDigits(ToDigits(n)) && ToDigits(n) != [] && Value(ToDigits(n)) == n
  {
    if n >= 10 {
      DigitsRoundTrip(n / 10);
      var s := ToDigits(n);
      assert s[..|s| - 1] == ToDigits(n / 10);
    }
  }

  lemma {:induction false} PowAdd(a: nat, b: nat)
    ensures Pow10(a + b) == Pow10(a) * Pow10(b)
  {
    if a > 0 {
      PowAdd(a - 1, b);
    }
  }

  lemma {:induction false} ValueConcat(a: string, b: string)
    requires AllDigits(a) && AllDigits(b)
    ensures AllDigits(a + b) && Value(a + b) == Value(a) * Pow10(|b|) + Value(b)
    decreases |b|
  {
    if b == [] {
      assert a + b == a;
    } else {
      var b' := b[..|b| - 1];
      assert (a + b)[..|a + b| - 1] == a + b';
      ValueConcat(a, b');
      ShiftDigits(Value(a), Pow10(|b'|), Value(b'), DigitValue(b[|b| - 1]));
    }
  }

  lemma ShiftDigits(x: nat, p: nat, v: nat, d: nat)
    ensures (x * p + v) * 10 + d == x * (10 * p) + (v * 10 + d)
  {}

  lemma {:induction false} ValueBound(s: string)
    requires AllDigits(s)
    ensures Value(s) < Pow10(|s|)
  {
    if s != [] {
      ValueBound(s[..|s| - 1]);
    }
  }

  lemma {:induction false} ValueOfZeros(s: string)
    requires forall i :: 0 <= i < |s| ==> s[i] == '0'
    ensures AllDigits(s) && Value(s) == 0
  {
    if s != [] {
      ValueOfZeros(s[..|s| - 1]);
    }
  }

  lemma AllDigitsSlice(s: string, n: nat)
    requires AllDigits(s) && n <= |s|
    ensures AllDigits(s[..n]) && AllDigits(s[n..])
  {}

  // ---------- Printing ----------

  function PadStart(s: string, n: nat): string {
    if |s| >= n then s else Zeros(n - |s|) + s
  }

  /** Without its trailing zeros. */
  function StripZeros(s: string): string {
    if s != [] && s[|s| - 1] == '0' then StripZeros(s[..|s| - 1]) else s
  }

  function Slice(s: string, n: nat): string {
    if |s| <= n then s else s[..n]
  }

  function Fraction(wei: nat): string {
    Slice(StripZeros(PadStart(ToDigits(wei % WAD), WAD_DIGITS)), SHOWN_DIGITS)
  }

  /** The number `formatValue` prints, without its unit. */
  function Printed(wei: nat): string {
    ToDigits(wei / WAD) + (if Fraction(wei) != [] then "." + Fraction(wei) else [])
  }

  function FormatValue(wei: Option<nat>): Option<string> {
    if wei.None? || wei.value == 0 then None else Some(Printed(wei.value) + UNIT)
  }

  // ---------- Parsing ----------

  predicate IsSpace(c: char) {
    c in " \t\n\r\U{000B}\U{000C}\U{00A0}\U{FEFF}\U{1680}\U{2028}\U{2029}\U{202F}\U{205F}\U{3000}"
    || '\U{2000}' <= c <= '\U{200A}'
  }

  function TrimStart(s: string): string {
    if s != [] && IsSpace(s[0]) then TrimStart(s[1..]) else s
  }

  function TrimEnd(s: string): string {
    if s != [] && IsSpace(s[|s| - 1]) then TrimEnd(s[..|s| - 1]) else s
  }

  function Trim(s: string): string {
    TrimEnd(TrimStart(s))
  }

  /** Where the first point is, or the end. */
  function PointAt(s: string): (at: nat)
    ensures at <= |s| && (at < |s| ==> s[at] == '.')
    ensures forall i :: 0 <= i < at ==> s[i] != '.'
  {
    if s == [] || s[0] == '.' then 0 else 1 + PointAt(s[1..])
  }

  function Whole(s: string): string {
    s[..PointAt(s)]
  }

  function Decimals(s: string): string {
    if PointAt(s) < |s| then s[PointAt(s) + 1..] else []
  }

  /** Digits, and optionally a point and more digits. */
  predicate IsDecimal(s: string) {
    && Whole(s) != [] && AllDigits(Whole(s)) && AllDigits(Decimals(s))
    && (PointAt(s) < |s| ==> Decimals(s) != [])
  }

  /** The decimals, cut or filled up to eighteen. */
  function Padded(decimals: string): string {
    (decimals + Zeros(WAD_DIGITS))[..WAD_DIGITS]
  }

  /** The amount `toWeiHex` answers, in wei; text that is not a decimal number reads as zero. */
  function ToWei(value: string): nat {
    var s := Trim(value);
    if !IsDecimal(s) then 0
    else
      var padded := Padded(Decimals(s));
      assert AllDigits(padded);
      Value(Whole(s)) * WAD + Value(padded)
  }

  // ---------- The parser rounds down ----------

  lemma WadIsPow()
    ensures Pow10(WAD_DIGITS) == WAD
    ensures Pow10(SHOWN_DIGITS) == 1_000_000 && Pow10(WAD_DIGITS - SHOWN_DIGITS) == 1_000_000_000_000
  {
    assert Pow10(6) == 1_000_000;
    PowAdd(6, 6);
    PowAdd(6, 12);
  }

  lemma MultiplyMonotone(a: nat, b: nat, d: nat)
    ensures a <= b ==> a * d <= b * d
  {}

  lemma DivideDown(x: nat, y: nat, d: nat)
    requires d > 0 && x * d <= y < x * d + d
    ensures y / d == x
  {
    var q := y / d;
    assert q * d <= y < q * d + d;
    MultiplyMonotone(q + 1, x, d);
    MultiplyMonotone(x + 1, q, d);
  }

  /** Up to eighteen decimals the amount is exact. */
  lemma {:induction false} ShortDecimals(whole: string, decimals: string)
    requires AllDigits(whole) && AllDigits(decimals) && |decimals| <= WAD_DIGITS
    ensures AllDigits(Padded(decimals)) && AllDigits(whole + decimals)
    ensures (Value(whole) * WAD + Value(Padded(decimals))) * Pow10(|decimals|) == Value(whole + decimals) * WAD
  {
    var k := |decimals|;
    var fill := WAD_DIGITS - k;
    assert Padded(decimals) == decimals + Zeros(fill);
    ValueConcat(decimals, Zeros(fill));
    ValueOfZeros(Zeros(fill));
    ValueConcat(whole, decimals);
    PowAdd(fill, k);
    WadIsPow();
    ShortArithmetic(Value(whole), Value(decimals), Pow10(k), Pow10(fill));
  }

  lemma ShortArithmetic(w: nat, f: nat, pk: nat, pf: nat)
    ensures (w * (pf * pk) + f * pf) * pk == (w * pk + f) * (pf * pk)
  {
    assert (w * (pf * pk)) * pk == (w * pk) * (pf * pk);
    assert (f * pf) * pk == f * (pf * pk);
  }

  /** Beyond eighteen decimals the rest is cut off. */
  lemma {:induction false} LongDecimals(whole: string, decimals: string)
    requires AllDigits(whole) && AllDigits(decimals) && |decimals| > WAD_DIGITS
    ensures AllDigits(Padded(decimals)) && AllDigits(whole + decimals)
    ensures
      var cut := Pow10(|decimals| - WAD_DIGITS);
      var amount := Value(whole) * WAD + Value(Padded(decimals));
      amount * cut <= Value(whole + decimals) < amount * cut + cut
  {
    hide Value, Pow10, AllDigits;
    var kept, lost := decimals[..WAD_DIGITS], decimals[WAD_DIGITS..];
    AllDigitsSlice(decimals, WAD_DIGITS);
    assert Padded(decimals) == kept;
    assert whole + decimals == (whole + kept) + lost;
    ValueConcat(whole, kept);
    ValueConcat(whole + kept, lost);
    ValueBound(lost);
    WadIsPow();
    LongCut(Value(whole), Value(kept), Value(lost), Pow10(|lost|));
  }

  lemma LongCut(w: nat, kept: nat, lost: nat, cut: nat)
    requires lost < cut
    ensures
      var amount := w * WAD + kept;
      amount * cut <= amount * cut + lost < amount * cut + cut
  {}

  /**
   * On any decimal number, read as its digits over a power of ten, the parser
   * answers that number times 10^18, rounded down; on any other text, zero.
   */
  lemma ParserRoundsDown(value: string)
    ensures
      var s := Trim(value);
      if IsDecimal(s) then
        AllDigits(Whole(s) + Decimals(s)) &&
        ToWei(value) == (Value(Whole(s) + Decimals(s)) * WAD) / Pow10(|Decimals(s)|)
      else
        ToWei(value) == 0
  {
    var s := Trim(value);
    if IsDecimal(s) {
      var whole, decimals := Whole(s), Decimals(s);
      var k := |decimals|;
      if k <= WAD_DIGITS {
        ShortDecimals(whole, decimals);
        DivideDown(ToWei(value), Value(whole + decimals) * WAD, Pow10(k));
      } else {
        LongDecimals(whole, decimals);
        PowAdd(k - WAD_DIGITS, WAD_DIGITS);
        WadIsPow();
        var cut, all, amount := Pow10(k - WAD_DIGITS), Value(whole + decimals), ToWei(value);
        LongArithmetic(all, amount, cut);
        DivideDown(amount, all * WAD, cut * WAD);
      }
    }
  }

  lemma LongArithmetic(all: nat, amount: nat, cut: nat)
    requires amount * cut <= all < amount * cut + cut
    ensures amount * (cut * WAD) <= all * WAD < amount * (cut * WAD) + cut * WAD
  {
    assert amount * (cut * WAD) == (amount * cut) * WAD;
  }

  // ---------- Printing and parsing back ----------

  lemma {:induction false} StripKeepsPrefix(s: string)
    ensures StripZeros(s) <= s
    ensures forall i :: |StripZeros(s)| <= i < |s| ==> s[i] == '0'
  {
    if s != [] && s[|s| - 1] == '0' {
      StripKeepsPrefix(s[..|s| - 1]);
    }
  }

  /** The digits below one ether, all eighteen of them. */
  lemma {:induction false} EighteenDigits(n: nat)
    requires n < WAD
    ensures
      var digits := PadStart(ToDigits(n), WAD_DIGITS);
      |digits| == WAD_DIGITS && AllDigits(digits) && Value(digits) == n
  {
    hide Value, ToDigits, Pow10;
    var raw := ToDigits(n);
    WadIsPow();
    DigitsRoundTrip(n);
    DigitsFit(n, WAD_DIGITS);
    ValueOfZeros(Zeros(WAD_DIGITS - |raw|));
    ValueConcat(Zeros(WAD_DIGITS - |raw|), raw);
    assert |raw| == WAD_DIGITS ==> Zeros(0) + raw == raw;
  }

  /** Stripped of trailing zeros, cut to six and filled up again, eighteen digits keep their first six. */
  lemma {:induction false} FirstSixKept(digits: string)
    requires |digits| == WAD_DIGITS && AllDigits(digits)
    ensures
      var fraction := Slice(StripZeros(digits), SHOWN_DIGITS);
      && AllDigits(fraction) && |fraction| <= SHOWN_DIGITS
      && Padded(fraction) == digits[..SHOWN_DIGITS] + Zeros(WAD_DIGITS - SHOWN_DIGITS)
  {
    StripKeepsPrefix(digits);
    hide StripZeros;
    var padded := Padded(Slice(StripZeros(digits), SHOWN_DIGITS));
    forall i | 0 <= i < WAD_DIGITS
      ensures padded[i] == (digits[..SHOWN_DIGITS] + Zeros(WAD_DIGITS - SHOWN_DIGITS))[i]
    {}
  }

  lemma {:induction false} FractionIsFirstSix(wei: nat)
    ensures
      var digits := PadStart(ToDigits(wei % WAD), WAD_DIGITS);
      && |digits| == WAD_DIGITS && AllDigits(digits) && Value(digits) == wei % WAD
      && AllDigits(Fraction(wei))
      && Padded(Fraction(wei)) == digits[..SHOWN_DIGITS] + Zeros(WAD_DIGITS - SHOWN_DIGITS)
  {
    hide Value, ToDigits, PadStart, Padded, Slice, StripZeros;
    EighteenDigits(wei % WAD);
    FirstSixKept(PadStart(ToDigits(wei % WAD), WAD_DIGITS));
  }

  /** A number below a power of ten has no more digits than that. */
  lemma {:induction false} DigitsFit(n: nat, k: nat)
    requires n < Pow10(k) && k > 0
    ensures |ToDigits(n)| <= k
  {
    if n >= 10 {
      DigitsFit(n / 10, k - 1);
    }
  }

  lemma DigitsAreNotSpaces(s: string)
    requires s != [] && !IsSpace(s[0]) && !IsSpace(s[|s| - 1])
    ensures Trim(s) == s
  {}

  /** The first point of digits followed by nothing, or by a point. */
  lemma {:induction false} PointAfter(whole: string, rest: string)
    requires AllDigits(whole) && (rest == [] || rest[0] == '.')
    ensures PointAt(whole + rest) == |whole|
  {
    hide PointAt;
    var s := whole + rest;
    forall i | 0 <= i < |whole| ensures s[i] != '.' {
      assert s[i] == whole[i] && IsDigit(whole[i]);
    }
    assert |whole| < |s| ==> s[|whole|] == rest[0] == '.';
  }

  /** Digits, a point and digits, or digits alone, come apart where they were joined. */
  lemma JoinedParts(whole: string, fraction: string)
    requires whole != [] && AllDigits(whole) && AllDigits(fraction)
    ensures
      var s := whole + (if fraction != [] then "." + fraction else []);
      Trim(s) == s && IsDecimal(s) && Whole(s) == whole && Decimals(s) == fraction
  {
    hide PointAt, Trim, IsSpace;
    var rest := if fraction != [] then "." + fraction else [];
    var s := whole + rest;
    assert IsDigit(s[0]) && IsDigit(s[|s| - 1]) by {
      assert s[0] == whole[0];
      assert s[|s| - 1] == if fraction != [] then fraction[|fraction| - 1] else whole[|whole| - 1];
    }
    NoDigitIsSpace(s[0]);
    NoDigitIsSpace(s[|s| - 1]);
    DigitsAreNotSpaces(s);
    PointAfter(whole, rest);
    assert s[..|whole|] == whole && s[|whole|..] == rest;
  }

  lemma NoDigitIsSpace(c: char)
    requires IsDigit(c)
    ensures !IsSpace(c)
  {}

  lemma {:induction false} PrintedParts(wei: nat)
    ensures
      var s := Printed(wei);
      && Trim(s) == s && IsDecimal(s)
      && Whole(s) == ToDigits(wei / WAD) && Decimals(s) == Fraction(wei)
  {
    hide Fraction, ToDigits, Value, IsDecimal, Trim, Whole, Decimals;
    DigitsRoundTrip(wei / WAD);
    FractionIsFirstSix(wei);
    JoinedParts(ToDigits(wei / WAD), Fraction(wei));
  }

  /**
   * Printing an amount and reading the number back truncates it to six decimals and
   * changes nothing else.
   */
  lemma PrintedReadsBack(wei: nat)
    ensures ToWei(Printed(wei)) == wei - wei % 1_000_000_000_000
  {
    PrintedParts(wei);
    DigitsRoundTrip(wei / WAD);
    FractionIsFirstSix(wei);
    SixAndTwelve(PadStart(ToDigits(wei % WAD), WAD_DIGITS));
    var digits := PadStart(ToDigits(wei % WAD), WAD_DIGITS);
    Truncates(wei, Value(digits[..SHOWN_DIGITS]), Value(digits[SHOWN_DIGITS..]));
  }

  /** Eighteen digits as six and twelve. */
  lemma {:induction false} SixAndTwelve(digits: string)
    requires |digits| == WAD_DIGITS && AllDigits(digits)
    ensures
      var shown, hidden := digits[..SHOWN_DIGITS], digits[SHOWN_DIGITS..];
      && AllDigits(shown + Zeros(WAD_DIGITS - SHOWN_DIGITS))
      && Value(digits) == Value(shown) * 1_000_000_000_000 + Value(hidden)
      && Value(hidden) < 1_000_000_000_000
      && Value(shown + Zeros(WAD_DIGITS - SHOWN_DIGITS)) == Value(shown) * 1_000_000_000_000
  {
    hide Value, Pow10, AllDigits;
    var shown, hidden := digits[..SHOWN_DIGITS], digits[SHOWN_DIGITS..];
    AllDigitsSlice(digits, SHOWN_DIGITS);
    WadIsPow();
    assert digits == shown + hidden;
    ValueConcat(shown, hidden);
    ValueBound(hidden);
    ValueOfZeros(Zeros(WAD_DIGITS - SHOWN_DIGITS));
    ValueConcat(shown, Zeros(WAD_DIGITS - SHOWN_DIGITS));
  }

  lemma Truncates(wei: nat, shown: nat, hidden: nat)
    requires wei % WAD == shown * 1_000_000_000_000 + hidden && hidden < 1_000_000_000_000
    ensures (wei / WAD) * WAD + shown * 1_000_000_000_000 == wei - wei % 1_000_000_000_000
  {
    assert wei == ((wei / WAD) * 1_000_000 + shown) * 1_000_000_000_000 + hidden;
  }

  /** The displayed text without its unit; an amount that is not displayed leaves no text. */
  function WithoutUnit(display: Option<string>): string {
    if display.Some? && |display.value| >= |UNIT| then display.value[..|display.value| - |UNIT|] else ""
  }

  /**
   * Reading back what the call tree displays, its unit taken off, gives any amount
   * less its remainder modulo 10^12: nothing for an absent or zero one.
   */
  lemma DisplayReadsBack(wei: Option<nat>)
    ensures
      var amount := wei.GetOr(0);
      ToWei(WithoutUnit(FormatValue(wei))) == amount - amount % 1_000_000_000_000
  {
    hide Printed;
    if FormatValue(wei).Some? {
      assert WithoutUnit(FormatValue(wei)) == Printed(wei.value);
      PrintedReadsBack(wei.value);
    } else {
      assert Trim("") == "" && PointAt("") == 0 && Whole("") == "";
    }
  }

  /** Amounts displayed alike differ by less than 10^12 wei. */
  lemma AlikeMeansClose(a: nat, b: nat)
    requires FormatValue(Some(a)) == FormatValue(Some(b))
    ensures a - a % 1_000_000_000_000 == b - b % 1_000_000_000_000
  {
    hide FormatValue, ToWei, WithoutUnit;
    DisplayReadsBack(Some(a));
    DisplayReadsBack(Some(b));
  }

  // ---------- What is printed, digit by digit ----------

  lemma {:induction false} NoLeadingZero(n: nat)
    ensures ToDigits(n) != [] && (n == 0 ==> |ToDigits(n)| == 1)
    ensures n > 0 ==> ToDigits(n)[0] != '0'
  {
    if n >= 10 {
      NoLeadingZero(n / 10);
      assert ToDigits(n)[0] == ToDigits(n / 10)[0];
    }
  }

  lemma {:induction false} StrippedEndsWell(s: string)
    ensures StripZeros(s) == [] || StripZeros(s)[|StripZeros(s)| - 1] != '0'
  {
    if s != [] && s[|s| - 1] == '0' {
      StrippedEndsWell(s[..|s| - 1]);
    }
  }

  lemma {:induction false} ZeroIsAllZeros(s: string)
    requires AllDigits(s)
    ensures Value(s) == 0 <==> forall i :: 0 <= i < |s| ==> s[i] == '0'
  {
    if s != [] {
      var front := s[..|s| - 1];
      ZeroIsAllZeros(front);
      assert forall i :: 0 <= i < |front| ==> s[i] == front[i];
    }
  }

  /**
   * Six digits of eighteen, without the zeros at their end when nothing is hidden behind
   * them; nothing at all when every digit is zero.
   */
  lemma {:induction false} FractionShape(digits: string)
    requires |digits| == WAD_DIGITS && AllDigits(digits)
    ensures
      var fraction := Slice(StripZeros(digits), SHOWN_DIGITS);
      && fraction <= digits[..SHOWN_DIGITS]
      && (fraction == [] <==> Value(digits) == 0)
      && (Value(digits[SHOWN_DIGITS..]) != 0 ==> |fraction| == SHOWN_DIGITS)
      && (Value(digits[SHOWN_DIGITS..]) == 0 && fraction != [] ==> fraction[|fraction| - 1] != '0')
  {
    hide Value, StripZeros;
    StripKeepsPrefix(digits);
    StrippedEndsWell(digits);
    ZeroIsAllZeros(digits);
    ZeroIsAllZeros(digits[SHOWN_DIGITS..]);
    var stripped := StripZeros(digits);
    if |stripped| > SHOWN_DIGITS {
      assert digits[SHOWN_DIGITS..][|stripped| - 1 - SHOWN_DIGITS] == stripped[|stripped| - 1];
    } else {
      forall i | 0 <= i < |digits[SHOWN_DIGITS..]| ensures digits[SHOWN_DIGITS..][i] == '0' {}
    }
  }

  /**
   * What is printed: the whole ethers without leading zeros, and up to six decimals;
   * exactly six when wei beyond the sixth are left out, and otherwise none too many.
   */
  lemma PrintedShape(wei: nat) returns (whole: string, fraction: string)
    ensures Printed(wei) == whole + (if fraction == [] then [] else "." + fraction)
    ensures FormatValue(Some(wei)) == if wei == 0 then None else Some(Printed(wei) + " ETH")
    ensures AllDigits(whole) && AllDigits(fraction) && |fraction| <= 6
    ensures Value(whole) == wei / WAD && whole != [] && (whole[0] != '0' || |whole| == 1)
    ensures Value(fraction) * Pow10(18 - |fraction|) == wei % WAD - wei % 1_000_000_000_000
    ensures fraction == [] <==> wei % WAD == 0
    ensures wei % 1_000_000_000_000 != 0 ==> |fraction| == 6
    ensures wei % 1_000_000_000_000 == 0 && fraction != [] ==> fraction[|fraction| - 1] != '0'
  {
    hide Value, ToDigits, Slice, StripZeros, PadStart, Pow10;
    whole, fraction := ToDigits(wei / WAD), Fraction(wei);
    DigitsRoundTrip(wei / WAD);
    NoLeadingZero(wei / WAD);
    var digits := PadStart(ToDigits(wei % WAD), WAD_DIGITS);
    FractionIsFirstSix(wei);
    SixAndTwelve(digits);
    FractionShape(digits);
    HiddenIsRemainder(wei, Value(digits[..SHOWN_DIGITS]), Value(digits[SHOWN_DIGITS..]));
    ShortDecimals([], fraction);
    PaddedValue(fraction);
  }

  lemma HiddenIsRemainder(wei: nat, shown: nat, hidden: nat)
    requires wei % WAD == shown * 1_000_000_000_000 + hidden && hidden < 1_000_000_000_000
    ensures hidden == wei % 1_000_000_000_000
  {
    assert wei == ((wei / WAD) * 1_000_000 + shown) * 1_000_000_000_000 + hidden;
  }

  lemma {:induction false} PaddedValue(fraction: string)
    requires AllDigits(fraction) && |fraction| <= WAD_DIGITS
    ensures AllDigits(Padded(fraction)) && Value(Padded(fraction)) == Value(fraction) * Pow10(WAD_DIGITS - |fraction|)
  {
    hide Value, Pow10;
    var fill := Zeros(WAD_DIGITS - |fraction|);
    assert Padded(fraction) == fraction + fill;
    ValueConcat(fraction, fill);
    ValueOfZeros(fill);
  }

  // ---------- What is read, character by character ----------

  /** Digits alone, or digits, one point, and digits. */
  lemma DecimalIsDigitsAndAPoint(s: string)
    ensures IsDecimal(s) <==>
      || (s != [] && AllDigits(s))
      || (exists k :: 0 < k < |s| - 1 && SplitsAt(s, k))
  {
    hide PointAt, AllDigits;
    if IsDecimal(s) {
      if PointAt(s) < |s| {
        assert SplitsAt(s, PointAt(s));
      } else {
        assert s[..|s|] == s;
      }
    }
    if s != [] && AllDigits(s) {
      DigitsAreDecimal(s);
    }
    if k :| 0 < k < |s| - 1 && SplitsAt(s, k) {
      SplitIsDecimal(s, k);
    }
  }

  lemma DigitsAreDecimal(s: string)
    requires s != [] && AllDigits(s)
    ensures IsDecimal(s)
  {
    PointAfter(s, []);
    assert s + [] == s && s[..|s|] == s;
  }

  lemma SplitIsDecimal(s: string, k: nat)
    requires 0 < k < |s| - 1 && SplitsAt(s, k)
    ensures IsDecimal(s)
  {
    hide PointAt, AllDigits;
    PointAfter(s[..k], s[k..]);
    assert s[..k] + s[k..] == s;
  }

  ghost predicate SplitsAt(s: string, k: nat)
    requires k < |s|
  {
    s[k] == '.' && AllDigits(s[..k]) && AllDigits(s[k + 1..])
  }

  /** White space and line ends, as the language's own trimming knows them. */
  ghost predicate IsWhite(c: char) {
    var code := c as int;
    || 9 <= code <= 13 || code == 32 || code == 0xA0 || code == 0x1680 || 0x2000 <= code <= 0x200A
    || code == 0x2028 || code == 0x2029 || code == 0x202F || code == 0x205F || code == 0x3000 || code == 0xFEFF
  }

  lemma SpacesAreWhite(c: char)
    ensures IsSpace(c) <==> IsWhite(c)
  {}

  ghost predicate AllSpaces(s: string) {
    forall i :: 0 <= i < |s| ==> IsWhite(s[i])
  }

  lemma {:induction false} TrimStartDrops(pre: string, s: string)
    requires AllSpaces(pre) && s != [] && !IsSpace(s[0])
    ensures TrimStart(pre + s) == s
    decreases |pre|
  {
    hide IsSpace, IsWhite;
    if pre == [] {
      assert pre + s == s;
    } else {
      SpacesAreWhite(pre[0]);
      assert (pre + s)[1..] == pre[1..] + s;
      TrimStartDrops(pre[1..], s);
    }
  }

  lemma {:induction false} TrimEndDrops(s: string, post: string)
    requires AllSpaces(post) && s != [] && !IsSpace(s[|s| - 1])
    ensures TrimEnd(s + post) == s
    decreases |post|
  {
    hide IsSpace, IsWhite;
    if post == [] {
      assert s + post == s;
    } else {
      SpacesAreWhite(post[|post| - 1]);
      assert (s + post)[..|s + post| - 1] == s + post[..|post| - 1];
      TrimEndDrops(s, post[..|post| - 1]);
    }
  }

  /**
   * Whatever spaces are around it, a number of ethers with any decimals is read as
   * that many wei, rounded down.
   */
  lemma {:induction false} ParserReadsNumbers(pre: string, whole: string, fraction: string, post: string)
    requires AllSpaces(pre) && AllSpaces(post)
    requires whole != [] && AllDigits(whole) && AllDigits(fraction)
    ensures AllDigits(whole + fraction)
    ensures
      var number := whole + (if fraction == [] then [] else "." + fraction);
      ToWei(pre + number + post) == Value(whole + fraction) * 1_000_000_000_000_000_000 / Pow10(|fraction|)
  {
    hide ToWei, IsSpace, AllSpaces, IsDecimal, Whole, Decimals, TrimStart, TrimEnd, Value, Pow10;
    var number := whole + (if fraction == [] then [] else "." + fraction);
    assert IsDigit(number[0]) by {
      assert number[0] == whole[0];
    }
    assert IsDigit(number[|number| - 1]) by {
      assert number[|number| - 1] == if fraction != [] then fraction[|fraction| - 1] else whole[|whole| - 1];
    }
    NoDigitIsSpace(number[0]);
    NoDigitIsSpace(number[|number| - 1]);
    assert pre + number + post == pre + (number + post);
    TrimStartDrops(pre, number + post);
    TrimEndDrops(number, post);
    JoinedParts(whole, fraction);
    ParserRoundsDown(pre + number + post);
  }
}

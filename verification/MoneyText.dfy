/** Money as text: how amounts are validated, read into cents, printed and added. */
module MoneyText {
  import opened Basics
  import opened Text

  /** centsToMoneyString, for amounts that are not negative. */
  function CentsToMoney(cents: nat): string {
    Decimal(cents / 100) + "." + TwoDigits(cents % 100)
  }

  /** %02d. */
  function TwoDigits(n: nat): string
    requires n < 100
  {
    [Digit(n / 10), Digit(n % 10)]
  }

  /** The fraction of an amount, padded to two digits. */
  function Padded(fraction: string): string
    requires |fraction| <= 2
  {
    if |fraction| == 0 then "00" else if |fraction| == 1 then fraction + "0" else fraction
  }

  /** moneyStringToCents; None stands for ErrInvalidCreditPrepayment. */
  function MoneyToCents(amount: string): Option<int> {
    var normalized := TrimSpace(amount);
    var parts := Split(normalized, '.');
    if normalized == "" || |parts| > 2 || parts[0] == "" then None
    else
      var whole := ParseInt(parts[0]);
      var fraction := if |parts| == 2 then parts[1] else "00";
      if whole.None? || whole.value < 0 || |fraction| > 2 then None
      else
        var fractionValue := ParseInt(Padded(fraction));
        if fractionValue.None? || fractionValue.value < 0 then None
        else Some(Wrap64(whole.value * 100 + fractionValue.value))
  }

  // ----- plain decimals and the numbers they denote -----

  /** A non-negative rational, not necessarily in lowest terms. */
  datatype Rat = Rat(numerator: nat, denominator: nat)

  function Pow10(n: nat): (p: nat)
    ensures p > 0
  {
    if n == 0 then 1 else 10 * Pow10(n - 1)
  }

  /** Digits, and optionally a point and more digits. */
  predicate IsPlain(s: string) {
    var parts := Split(s, '.');
    |parts| <= 2 && forall i :: 0 <= i < |parts| ==> parts[i] != "" && AllDigits(parts[i])
  }

  /** big.Rat's SetString on plain decimals: all digits over a power of ten. */
  function Exact(s: string): (r: Rat)
    requires IsPlain(s)
    ensures r.denominator > 0
  {
    var parts := Split(s, '.');
    if |parts| == 1 then Rat(Value(parts[0]), 1)
    else
      DigitsConcat(parts[0], parts[1]);
      Rat(Value(parts[0] + parts[1]), Pow10(|parts[1]|))
  }

  lemma DigitsConcat(s: string, t: string)
    requires AllDigits(s) && AllDigits(t)
    ensures AllDigits(s + t)
  {
  }

  /** The grammar of amounts: at most two digits after the point. */
  predicate IsAmount(s: string) {
    IsPlain(s) && (|Split(s, '.')| == 2 ==> |Split(s, '.')[1]| <= 2)
  }

  /** normalizeAmount; None stands for ErrInvalidAmount. */
  function NormalizeAmount(amount: string): Option<string> {
    var trimmed := TrimSpace(amount);
    if !IsAmount(trimmed) || Exact(trimmed).numerator == 0 then None else Some(trimmed)
  }

  // ----- reading -----

  /** The cents an amount denotes. */
  function ExactCents(s: string): nat
    requires IsAmount(s)
  {
    Exact(s).numerator * 100 / Exact(s).denominator
  }

  lemma Tenfold(v: nat, p: nat)
    ensures v * (10 * p) == 10 * (v * p)
  {
  }

  lemma {:induction false} ValueConcat(s: string, t: string)
    requires AllDigits(s) && AllDigits(t)
    ensures AllDigits(s + t) && Value(s + t) == Value(s) * Pow10(|t|) + Value(t)
  {
    if t == "" {
      assert s + t == s;
    } else {
      var front := t[..|t| - 1];
      ValueConcat(s, front);
      ValueAppend(s + front, t[|t| - 1]);
      assert s + t == (s + front) + [t[|t| - 1]];
      Tenfold(Value(s), Pow10(|front|));
    }
  }

  lemma TwoDigitValue(s: string)
    requires |s| == 2 && AllDigits(s)
    ensures Value(s) == 10 * DigitValue(s[0]) + DigitValue(s[1]) && Value([s[0]]) == DigitValue(s[0])
  {
    assert s == [s[0]] + [s[1]] && "" + [s[0]] == [s[0]];
    ValueAppend("", s[0]);
    ValueAppend([s[0]], s[1]);
  }

  lemma PaddedValue(fraction: string)
    requires AllDigits(fraction) && 1 <= |fraction| <= 2
    ensures AllDigits(Padded(fraction))
    ensures Value(Padded(fraction)) * Pow10(|fraction|) == Value(fraction) * 100
    ensures Value(Padded(fraction)) < 100
  {
    hide Value;
    TwoDigitValue(Padded(fraction));
    if |fraction| == 1 {
      assert fraction == [Padded(fraction)[0]];
      assert Pow10(1) == 10;
    } else {
      assert Pow10(2) == 10 * Pow10(1);
    }
  }

  /** An amount denotes a whole number of cents, and its parts give it. */
  lemma AmountIsWholeCents(s: string)
    requires IsAmount(s)
    ensures var parts := Split(s, '.');
            && ExactCents(s) * Exact(s).denominator == Exact(s).numerator * 100
            && ExactCents(s) == Value(parts[0]) * 100 + if |parts| == 2 then Value(Padded(parts[1])) else 0
  {
    hide Value, Split, Padded, Pow10;
    var parts := Split(s, '.');
    if |parts| == 2 {
      var whole, fraction := Value(parts[0]), Value(parts[1]);
      ValueConcat(parts[0], parts[1]);
      PaddedValue(parts[1]);
      SmallPowers();
      assert Exact(s).numerator == whole * Pow10(|parts[1]|) + fraction;
      WholeCents(whole, fraction, Value(Padded(parts[1])), Pow10(|parts[1]|));
    }
  }

  lemma SmallPowers()
    ensures Pow10(1) == 10 && Pow10(2) == 100
  {
    assert Pow10(2) == 10 * Pow10(1);
  }

  lemma WholeCents(whole: nat, fraction: nat, padded: nat, p: nat)
    requires (p == 10 || p == 100) && padded * p == fraction * 100
    ensures (whole * p + fraction) * 100 / p == whole * 100 + padded
    ensures (whole * 100 + padded) * p == (whole * p + fraction) * 100
  {
    if p == 10 {
      assert padded == 10 * fraction;
    } else {
      assert padded == fraction;
    }
  }

  lemma PlainHasNoSpace(s: string)
    requires IsPlain(s)
    ensures s != "" && TrimSpace(s) == s
  {
    var parts := Split(s, '.');
    EndsOfSplit(s);
    assert s != "";
    assert s[0] == '.' || IsDigit(s[0]);
    assert s[|s| - 1] == '.' || IsDigit(s[|s| - 1]);
  }

  /** The outer characters of a string are separators or the outer characters of its outer parts. */
  lemma {:induction false} EndsOfSplit(s: string)
    ensures var parts := Split(s, '.');
            var last := parts[|parts| - 1];
            && (s != "" && s[0] != '.' ==> parts[0] != "" && s[0] == parts[0][0])
            && (s != "" && s[|s| - 1] != '.' ==> last != "" && s[|s| - 1] == last[|last| - 1])
            && (s == "" <==> parts == [""])
  {
    if s != "" {
      EndsOfSplit(s[1..]);
    }
  }

  /** Any amount parses to the exact number of cents, as int64 arithmetic gives it; a whole part beyond int64 is an
      error. */
  lemma ParseOfAmount(s: string)
    requires IsAmount(s)
    ensures MoneyToCents(s) ==
            if Value(Split(s, '.')[0]) <= MAX_INT64 then Some(Wrap64(ExactCents(s))) else None
  {
    hide ExactCents, TrimSpace, Split, Value, Exact, Wrap64;
    PlainHasNoSpace(s);
    AmountIsWholeCents(s);
    var parts := Split(s, '.');
    assert AllDigits(parts[0]) && parts[0] != "" && IsDigit(parts[0][0]);
    if |parts| == 2 {
      PaddedValue(parts[1]);
      assert IsDigit(Padded(parts[1])[0]);
    } else {
      NoFraction();
    }
  }

  lemma NoFraction()
    ensures ParseInt("00") == Some(0)
  {
    assert "00"[..1] == "0" && "0"[..0] == "";
  }

  /** Parsing an accepted amount is exact precisely when the number of cents fits int64. */
  lemma ParsingIsExactIffItFits(amount: string)
    requires NormalizeAmount(amount).Some?
    ensures var s := NormalizeAmount(amount).value;
            && MoneyToCents(amount) == MoneyToCents(s)
            && (MoneyToCents(s) == Some(ExactCents(s)) <==> ExactCents(s) <= MAX_INT64)
            && 0 < ExactCents(s) && ExactCents(s) * Exact(s).denominator == Exact(s).numerator * 100
  {
    hide ExactCents, Exact, MoneyToCents, TrimSpace, Wrap64, Value;
    var s := NormalizeAmount(amount).value;
    TrimmedParsesAlike(amount);
    ParseOfAmount(s);
    AmountIsWholeCents(s);
    DenominatorDivides(ExactCents(s), Exact(s));
    assert 100 * Value(Split(s, '.')[0]) <= ExactCents(s);
  }

  lemma TrimmedParsesAlike(amount: string)
    requires IsAmount(TrimSpace(amount))
    ensures MoneyToCents(amount) == MoneyToCents(TrimSpace(amount))
  {
    hide Split, ParseInt, IsPlain;
    PlainHasNoSpace(TrimSpace(amount));
  }

  lemma DenominatorDivides(cents: nat, r: Rat)
    requires cents * r.denominator == r.numerator * 100 && r.numerator > 0
    ensures cents > 0
  {
  }

  // ----- printing -----

  lemma PrintedParts(cents: nat)
    ensures Split(CentsToMoney(cents), '.') == [Decimal(cents / 100), TwoDigits(cents % 100)]
    ensures IsAmount(CentsToMoney(cents)) && ExactCents(CentsToMoney(cents)) == cents
  {
    DecimalRoundTrip(cents / 100);
    SplitFirst(Decimal(cents / 100), TwoDigits(cents % 100), '.');
    SplitPlain(TwoDigits(cents % 100), '.');
    TwoDigitValue(TwoDigits(cents % 100));
    AmountIsWholeCents(CentsToMoney(cents));
  }

  /** Reading a printed amount gives it back exactly when it fits int64. */
  lemma MoneyRoundTrip(cents: nat)
    ensures cents <= MAX_INT64 <==> MoneyToCents(CentsToMoney(cents)) == Some(cents)
  {
    PrintedParts(cents);
    DecimalRoundTrip(cents / 100);
    ParseOfAmount(CentsToMoney(cents));
  }

  /** Beyond int64 the sum wraps: 2^63 cents are read as the most negative amount. */
  lemma LargeAmountsWrap()
    ensures NormalizeAmount(CentsToMoney(MAX_INT64 + 1)).Some?
    ensures MoneyToCents(CentsToMoney(MAX_INT64 + 1)) == Some(MIN_INT64)
  {
    hide ExactCents, Split, MoneyToCents, Decimal, Exact;
    PrintedParts(MAX_INT64 + 1);
    DecimalRoundTrip((MAX_INT64 + 1) / 100);
    ParseOfAmount(CentsToMoney(MAX_INT64 + 1));
    PlainHasNoSpace(CentsToMoney(MAX_INT64 + 1));
    AmountIsWholeCents(CentsToMoney(MAX_INT64 + 1));
  }

  /** The parser alone is laxer than the grammar: a negative zero whole part is read as its fraction. */
  lemma NegativeZeroIsRead(fraction: nat)
    requires fraction < 100
    ensures var s := "-0." + TwoDigits(fraction);
            MoneyToCents(s) == Some(fraction) && NormalizeAmount(s) == None
  {
    hide Value, Split, Exact;
    var f := TwoDigits(fraction);
    var s := "-0." + f;
    SplitFirst("-0", f, '.');
    SplitPlain(f, '.');
    assert "-0" + ['.'] + f == s;
    assert TrimSpace(s) == s;
    TwoDigitValue(f);
    NegativeZero();
  }

  lemma NegativeZero()
    ensures ParseInt("-0") == Some(0) && !AllDigits("-0")
  {
    assert "-0"[1..] == "0" && "0"[..0] == "";
    assert !IsDigit("-0"[0]);
  }

  // ----- exactly what the parser reads -----

  predicate HasSign(s: string) {
    s != "" && (s[0] == '+' || s[0] == '-')
  }

  /** The digits after a sign, if there is one. */
  function Unsigned(s: string): string {
    if HasSign(s) then s[1..] else s
  }

  /** Digits within int64, perhaps after a plus, or zeros after a minus. */
  predicate IsWhole(w: string) {
    && Unsigned(w) != "" && AllDigits(Unsigned(w)) && Value(Unsigned(w)) <= MAX_INT64
    && (w[0] == '-' ==> forall i :: 1 <= i < |w| ==> w[i] == '0')
  }

  /** At most two digits, or a plus and at most one digit, or a minus and perhaps a zero. */
  predicate IsFraction(f: string) {
    || (|f| <= 2 && AllDigits(f))
    || f == "+" || (|f| == 2 && f[0] == '+' && IsDigit(f[1]))
    || f == "-" || f == "-0"
  }

  /** A signed fraction counts single cents, an unsigned one is padded. */
  function FractionCents(f: string): nat
    requires IsFraction(f)
  {
    if |f| == 2 && f[0] == '+' then DigitValue(f[1])
    else if f == "" || HasSign(f) then 0
    else if |f| == 1 then 10 * DigitValue(f[0])
    else 10 * DigitValue(f[0]) + DigitValue(f[1])
  }

  predicate IsRead(s: string) {
    var parts := Split(s, '.');
    |parts| <= 2 && IsWhole(parts[0]) && (|parts| == 2 ==> IsFraction(parts[1]))
  }

  lemma {:induction false} ValueZero(s: string)
    requires AllDigits(s)
    ensures Value(s) == 0 <==> forall i :: 0 <= i < |s| ==> s[i] == '0'
  {
    if s != "" {
      ValueZero(s[..|s| - 1]);
    }
  }

  /** Whole parts: what is parsed without error and is not negative. */
  lemma WholeIsRead(w: string)
    ensures ParseInt(w).Some? && ParseInt(w).value >= 0 <==> IsWhole(w)
    ensures IsWhole(w) ==> ParseInt(w) == Some(Value(Unsigned(w)))
  {
    if AllDigits(Unsigned(w)) {
      ValueZero(Unsigned(w));
    }
  }

  lemma FractionIsRead(f: string)
    requires |f| <= 2
    ensures ParseInt(Padded(f)).Some? && ParseInt(Padded(f)).value >= 0 <==> IsFraction(f)
    ensures IsFraction(f) ==> ParseInt(Padded(f)) == Some(FractionCents(f))
  {
    hide Value, ParseInt;
    var p := Padded(f);
    WholeIsRead(p);
    if AllDigits(p) {
      TwoDigitValue(p);
    } else if HasSign(p) {
      assert Unsigned(p) == [p[1]];
      if IsDigit(p[1]) {
        OneDigitValue(p[1]);
      }
    }
  }

  lemma OneDigitValue(c: char)
    requires IsDigit(c)
    ensures Value([c]) == DigitValue(c)
  {
    assert "" + [c] == [c];
    ValueAppend("", c);
  }

  /** The parser reads exactly these strings, and what it makes of them. */
  lemma WhatTheParserReads(s: string)
    ensures MoneyToCents(s).Some? <==> IsRead(TrimSpace(s))
    ensures IsRead(TrimSpace(s)) ==>
              var parts := Split(TrimSpace(s), '.');
              MoneyToCents(s) == Some(Wrap64(
                Value(Unsigned(parts[0])) * 100 + if |parts| == 2 then FractionCents(parts[1]) else 0))
  {
    hide Value, ParseInt, IsFraction, FractionCents, Padded, Wrap64, TrimSpace, IsWhole, Split;
    var parts := Split(TrimSpace(s), '.');
    WholeIsRead(parts[0]);
    NoFraction();
    EmptyIsNotRead();
    if |parts| == 2 {
      LongFractions(parts[1]);
      if |parts[1]| <= 2 {
        FractionIsRead(parts[1]);
      }
    }
  }

  lemma LongFractions(f: string)
    ensures IsFraction(f) ==> |f| <= 2
  {
  }

  lemma EmptyIsNotRead()
    ensures !IsWhole("") && Split("", '.') == [""] && Padded("00") == "00"
  {
  }

  /** Of those, the strings outside the amount grammar are the ones with a sign on a part or a point without digits. */
  lemma ReadOutsideTheGrammar(s: string)
    requires IsRead(s)
    ensures var parts := Split(s, '.');
            !IsAmount(s) <==> HasSign(parts[0]) || (|parts| == 2 && (parts[1] == "" || HasSign(parts[1])))
  {
    var parts := Split(s, '.');
    assert HasSign(parts[0]) ==> !IsDigit(parts[0][0]);
    assert |parts| == 2 && HasSign(parts[1]) ==> !IsDigit(parts[1][0]);
  }

  // ----- adding -----

  function AddRat(a: Rat, b: Rat): Rat {
    Rat(a.numerator * b.denominator + b.numerator * a.denominator, a.denominator * b.denominator)
  }

  /** The hundredths nearest to a fraction below one, halves rounded up. */
  function Hundredths(numerator: nat, denominator: nat): (h: nat)
    requires numerator < denominator
    ensures h <= 100
  {
    RemainderBelow(numerator, denominator);
    numerator * 100 / denominator + if denominator <= 2 * (numerator * 100 % denominator) then 1 else 0
  }

  /** FloatString(2). */
  function FloatString2(r: Rat): string
    requires r.denominator > 0
  {
    hide Hundredths;
    var whole := r.numerator / r.denominator;
    var hundredths := Hundredths(r.numerator % r.denominator, r.denominator);
    if hundredths == 100 then Decimal(whole + 1) + "." + TwoDigits(0)
    else Decimal(whole) + "." + TwoDigits(hundredths)
  }

  lemma RemainderBelow(r: nat, d: nat)
    requires r < d
    ensures 0 <= r * 100 / d < 100
  {
    var q := r * 100 / d;
    assert r * 100 == q * d + r * 100 % d;
    Between(q - 99, d);
    Between(q, d);
    assert (q - 99) * d == q * d - 99 * d;
  }

  /** addMoneyAmounts on plain decimals. */
  function AddMoney(first: string, second: string): Option<string> {
    if !IsPlain(first) || !IsPlain(second) then None
    else Some(FloatString2(AddRat(Exact(first), Exact(second))))
  }

  /** isPositiveMoney on plain decimals. */
  predicate IsPositiveMoney(amount: string) {
    IsPlain(amount) && Exact(amount).numerator > 0
  }

  /** A rational that is a whole number of cents prints as those cents. */
  lemma FloatString2IsExact(r: Rat, cents: nat)
    requires r.denominator > 0 && cents * r.denominator == r.numerator * 100
    ensures FloatString2(r) == CentsToMoney(cents)
  {
    var d := r.denominator;
    var whole, rest := r.numerator / d, r.numerator % d;
    assert r.numerator == whole * d + rest;
    assert (cents - 100 * whole) * d == rest * 100;
    QuotientIs(rest * 100, d, cents - 100 * whole);
    RemainderBelow(rest, d);
    assert Hundredths(rest, d) == cents - 100 * whole;
    assert cents / 100 == whole && cents % 100 == cents - 100 * whole;
  }

  lemma QuotientIs(a: nat, d: nat, q: int)
    requires d > 0 && q * d == a
    ensures q >= 0 && a / d == q && a % d == 0
  {
    Between(a / d - q, d);
    Between(q, d);
    assert (a / d - q) * d == (a / d) * d - q * d;
  }

  lemma Between(k: int, d: int)
    requires d >= 0
    ensures k >= 1 ==> k * d >= d
    ensures k <= -1 ==> k * d <= -d
  {
    if k >= 1 {
      assert (k - 1) * d >= 0;
      assert k * d == (k - 1) * d + d;
    } else if k <= -1 {
      assert (-1 - k) * d >= 0;
      assert k * d == -((-1 - k) * d) - d;
    }
  }

  /** Adding money texts is adding their cents. */
  lemma AddMoneyAddsCents(first: string, second: string)
    requires IsAmount(first) && IsAmount(second)
    ensures AddMoney(first, second) == Some(CentsToMoney(ExactCents(first) + ExactCents(second)))
  {
    AmountIsWholeCents(first);
    AmountIsWholeCents(second);
    var a, b := Exact(first), Exact(second);
    var m, n := ExactCents(first), ExactCents(second);
    CrossMultiply(m, n, a.numerator, a.denominator, b.numerator, b.denominator);
    FloatString2IsExact(AddRat(a, b), m + n);
  }

  lemma CrossMultiply(m: int, n: int, an: int, ad: int, bn: int, bd: int)
    requires m * ad == an * 100 && n * bd == bn * 100
    ensures (m + n) * (ad * bd) == (an * bd + bn * ad) * 100
  {
    calc {
      (m + n) * (ad * bd);
      (m * ad) * bd + (n * bd) * ad;
      (an * 100) * bd + (bn * 100) * ad;
      (an * bd + bn * ad) * 100;
    }
  }

  /** On the amounts the tables hold: what is printed, added as text, is the printed sum, and the sign is right. */
  lemma StoredMoneyAdds(a: nat, b: nat)
    ensures AddMoney(CentsToMoney(a), CentsToMoney(b)) == Some(CentsToMoney(a + b))
    ensures IsPositiveMoney(CentsToMoney(a)) <==> a > 0
  {
    hide ExactCents, TrimSpace, AddMoney, CentsToMoney, Split;
    PrintedParts(a);
    PrintedParts(b);
    AddMoneyAddsCents(CentsToMoney(a), CentsToMoney(b));
    AmountIsWholeCents(CentsToMoney(a));
  }
}

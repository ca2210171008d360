/** Card numbers and the Luhn check digit (ISO/IEC 7812-1, Annex B), for digit strings of any length. */
module Card {
  import opened Basics
  import opened Text

  /** A doubled digit, with nine taken off when it has two digits. */
  function Doubled(d: nat): nat {
    if 2 * d > 9 then 2 * d - 9 else 2 * d
  }

  /** The contribution of position i when the positions at this parity, counted from the right end, are doubled. */
  function Weight(s: string, i: nat, parity: nat): nat
    requires AllDigits(s) && i < |s|
  {
    if (|s| - i) % 2 == parity then Doubled(DigitValue(s[i])) else DigitValue(s[i])
  }

  /** The weighted sum of the positions from i on. */
  function LuhnFrom(s: string, i: nat, parity: nat): nat
    requires AllDigits(s) && i <= |s|
    decreases |s| - i
  {
    if i == |s| then 0 else Weight(s, i, parity) + LuhnFrom(s, i + 1, parity)
  }

  /** The validator leaves the last digit as it is; the check digit is computed before it is there. */
  const LAST_PLAIN := 0
  const LAST_DOUBLED := 1

  function CheckDigit(s: string): (d: nat)
    requires AllDigits(s)
    ensures d < 10
  {
    (10 - LuhnFrom(s, 0, LAST_DOUBLED) % 10) % 10
  }

  predicate HasLuhnSum(s: string) {
    AllDigits(s) && LuhnFrom(s, 0, LAST_PLAIN) % 10 == 0
  }

  /** NormalizeCardNumber: the ASCII digits, in order. */
  function DigitsOf(s: string): (r: string)
    ensures AllDigits(r)
  {
    if s == "" then "" else DigitsOf(s[..|s| - 1]) + if IsDigit(s[|s| - 1]) then [s[|s| - 1]] else ""
  }

  predicate Accepted(number: string) {
    12 <= |DigitsOf(number)| <= 19 && HasLuhnSum(DigitsOf(number))
  }

  // ----- the loops -----

  method NormalizeCardNumber(number: string) returns (r: string)
    ensures r == DigitsOf(number)
  {
    var trimmed := TrimSpace(number);
    r := "";
    for i := 0 to |trimmed|
      invariant r == DigitsOf(trimmed[..i])
    {
      assert trimmed[..i + 1][..i] == trimmed[..i];
      if '0' <= trimmed[i] <= '9' {
        r := r + [trimmed[i]];
      }
    }
    assert trimmed[..|trimmed|] == trimmed;
    TrimKeepsDigits(number);
  }

  method IsValidCardNumber(number: string) returns (valid: bool)
    ensures valid <==> Accepted(number)
  {
    var n := NormalizeCardNumber(number);
    if |n| < 12 || |n| > 19 {
      return false;
    }
    var sum, doubleDigit := 0, false;
    var i := |n| - 1;
    while i >= 0
      invariant -1 <= i < |n|
      invariant doubleDigit <==> (|n| - i) % 2 == 0
      invariant sum == LuhnFrom(n, i + 1, LAST_PLAIN)
    {
      var digit := DigitValue(n[i]);
      if doubleDigit {
        digit := digit * 2;
        if digit > 9 {
          digit := digit - 9;
        }
      }
      sum := sum + digit;
      doubleDigit := !doubleDigit;
      i := i - 1;
    }
    return sum % 10 == 0;
  }

  /** None stands for the error on a character that is not a digit. */
  method CalculateLuhnCheckDigit(number: string) returns (digit: Option<nat>)
    ensures digit == if AllDigits(number) then Some(CheckDigit(number)) else None
  {
    var sum := 0;
    var i := |number| - 1;
    while i >= 0
      invariant -1 <= i < |number|
      invariant AllDigits(number[i + 1..])
      invariant sum == LuhnFrom(number[i + 1..], 0, LAST_DOUBLED)
    {
      if !('0' <= number[i] <= '9') {
        return None;
      }
      var d := DigitValue(number[i]);
      var positionFromRight := |number| - i;
      if positionFromRight % 2 == 1 {
        d := d * 2;
        if d > 9 {
          d := d - 9;
        }
      }
      sum := sum + d;
      assert number[i..] == [number[i]] + number[i + 1..];
      LuhnPrepend(number[i], number[i + 1..], LAST_DOUBLED);
      i := i - 1;
    }
    assert number[0..] == number;
    return Some((10 - sum % 10) % 10);
  }

  const PREFIX := "2200"
  const LENGTH_WITHOUT_CHECK_DIGIT := 15

  /** Whatever digits the random source yields, the number has sixteen digits, starts with 2200 and is accepted. */
  method GenerateCardNumber(randomDigits: seq<nat>) returns (number: string)
    requires |randomDigits| == LENGTH_WITHOUT_CHECK_DIGIT - |PREFIX|
    requires forall i :: 0 <= i < |randomDigits| ==> randomDigits[i] < 10
    ensures |number| == 16 && PREFIX <= number && AllDigits(number)
    ensures forall i :: 0 <= i < |randomDigits| ==> number[|PREFIX| + i] == Digit(randomDigits[i])
    ensures Accepted(number)
  {
    number := PREFIX;
    while |number| < LENGTH_WITHOUT_CHECK_DIGIT
      invariant |PREFIX| <= |number| <= LENGTH_WITHOUT_CHECK_DIGIT && PREFIX <= number && AllDigits(number)
      invariant forall i :: 0 <= i < |number| - |PREFIX| ==> number[|PREFIX| + i] == Digit(randomDigits[i])
    {
      number := number + [Digit(randomDigits[|number| - |PREFIX|])];
    }
    var checkDigit := CalculateLuhnCheckDigit(number);
    CheckDigitCompletes(number, checkDigit.value);
    number := number + [Digit(checkDigit.value)];
    DigitsOfDigits(number);
  }

  // ----- what the sums mean -----

  /** A digit in front keeps the parity of the others, which is counted from the right. */
  lemma LuhnPrepend(c: char, s: string, parity: nat)
    requires IsDigit(c) && AllDigits(s)
    ensures var whole := [c] + s;
            AllDigits(whole) && LuhnFrom(whole, 0, parity) == Weight(whole, 0, parity) + LuhnFrom(s, 0, parity)
  {
    LuhnShift(c, s, 0, parity);
  }

  lemma {:induction false} LuhnShift(c: char, s: string, i: nat, parity: nat)
    requires IsDigit(c) && AllDigits(s) && i <= |s|
    ensures AllDigits([c] + s) && LuhnFrom([c] + s, i + 1, parity) == LuhnFrom(s, i, parity)
    decreases |s| - i
  {
    if i < |s| {
      LuhnShift(c, s, i + 1, parity);
    }
  }

  /** A digit at the end swaps which positions are doubled. */
  lemma {:induction false} LuhnAppend(s: string, c: char, i: nat)
    requires AllDigits(s) && IsDigit(c) && i <= |s|
    ensures AllDigits(s + [c])
    ensures LuhnFrom(s + [c], i, LAST_PLAIN) == LuhnFrom(s, i, LAST_DOUBLED) + DigitValue(c)
    decreases |s| - i
  {
    if i < |s| {
      LuhnAppend(s, c, i + 1);
    } else {
      assert LuhnFrom(s + [c], i + 1, LAST_PLAIN) == 0;
    }
  }

  /** The check digit is the one and only digit that completes the number to a multiple of ten. */
  lemma CheckDigitCompletes(s: string, d: nat)
    requires AllDigits(s) && d < 10
    ensures HasLuhnSum(s + [Digit(d)]) <==> d == CheckDigit(s)
  {
    LuhnAppend(s, Digit(d), 0);
    Completion(LuhnFrom(s, 0, LAST_DOUBLED), d);
  }

  lemma Completion(sum: nat, d: nat)
    requires d < 10
    ensures (sum + d) % 10 == 0 <==> d == (10 - sum % 10) % 10
  {
    var r := sum % 10;
    assert (sum + d) % 10 == (r + d) % 10;
  }

  lemma {:induction false} LuhnUpdate(s: string, i: nat, c: char, k: nat, parity: nat)
    requires AllDigits(s) && IsDigit(c) && i < |s| && k <= |s|
    ensures AllDigits(s[i := c])
    ensures LuhnFrom(s[i := c], k, parity) - LuhnFrom(s, k, parity) ==
            if k <= i then Weight(s[i := c], i, parity) - Weight(s, i, parity) else 0
    decreases |s| - k
  {
    if k < |s| {
      LuhnUpdate(s, i, c, k + 1, parity);
    }
  }

  /** Changing any single digit of an accepted number makes it rejected. */
  lemma SingleErrorIsDetected(s: string, i: nat, c: char)
    requires HasLuhnSum(s) && i < |s| && IsDigit(c) && c != s[i]
    ensures !HasLuhnSum(s[i := c])
  {
    LuhnUpdate(s, i, c, 0, LAST_PLAIN);
    var a, b := DigitValue(s[i]), DigitValue(c);
    assert a != b;
    assert Doubled(a) != Doubled(b) && Doubled(a) <= 9 && Doubled(b) <= 9;
    DifferenceBelowTen(LuhnFrom(s, 0, LAST_PLAIN), LuhnFrom(s[i := c], 0, LAST_PLAIN));
  }

  lemma DifferenceBelowTen(x: int, y: int)
    requires x % 10 == 0 && -10 < y - x < 10
    ensures y % 10 == 0 <==> x == y
  {
  }

  /** By how much two neighbours contribute more when swapped; the first is the doubled one, or the second. */
  lemma SwapDifference(a: int, b: int)
    requires 0 <= a < 10 && 0 <= b < 10
    ensures var d := Doubled(b) + a - Doubled(a) - b;
            -10 < d < 10 && (d == 0 <==> a == b || (a == 0 && b == 9) || (a == 9 && b == 0))
  {
  }

  /** Swapping two neighbours of an accepted number goes unnoticed exactly for equal digits and for 0 and 9. */
  lemma SwapIsDetectedIff(s: string, i: nat)
    requires HasLuhnSum(s) && i + 1 < |s|
    ensures var a, b := DigitValue(s[i]), DigitValue(s[i + 1]);
            HasLuhnSum(s[i := s[i + 1]][i + 1 := s[i]]) <==> a == b || (a == 0 && b == 9) || (a == 9 && b == 0)
  {
    hide LuhnFrom, Doubled;
    var t := s[i := s[i + 1]];
    LuhnUpdate(s, i, s[i + 1], 0, LAST_PLAIN);
    LuhnUpdate(t, i + 1, s[i], 0, LAST_PLAIN);
    SwapDifference(DigitValue(s[i]), DigitValue(s[i + 1]));
    DifferenceBelowTen(LuhnFrom(s, 0, LAST_PLAIN), LuhnFrom(t[i + 1 := s[i]], 0, LAST_PLAIN));
  }

  // ----- normalisation -----

  lemma {:induction false} DigitsOfDigits(s: string)
    requires AllDigits(s)
    ensures DigitsOf(s) == s
  {
    if s != "" {
      DigitsOfDigits(s[..|s| - 1]);
    }
  }

  lemma {:induction false} DigitsOfPrepend(c: char, s: string)
    requires !IsDigit(c)
    ensures DigitsOf([c] + s) == DigitsOf(s)
  {
    if s == "" {
      assert ([c] + s)[..0] == "";
    } else {
      assert ([c] + s)[..|s|] == [c] + s[..|s| - 1];
      DigitsOfPrepend(c, s[..|s| - 1]);
    }
  }

  lemma {:induction false} TrimKeepsDigits(s: string)
    ensures DigitsOf(TrimSpace(s)) == DigitsOf(s)
    decreases |s|
  {
    if s == "" {
    } else if IsSpace(s[0]) {
      TrimKeepsDigits(s[1..]);
      assert [s[0]] + s[1..] == s;
      DigitsOfPrepend(s[0], s[1..]);
    } else if IsSpace(s[|s| - 1]) {
      TrimKeepsDigits(s[..|s| - 1]);
    }
  }
}

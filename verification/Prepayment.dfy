/** The two ways a partial prepayment rewrites the pending amounts of a credit:
    from the back of the schedule (reduce term) or evenly (reduce payment). */
module Prepayment {
  import opened Basics

  ghost predicate AllPositive(s: seq<int>) {
    forall i :: 0 <= i < |s| ==> 0 < s[i]
  }

  ghost predicate NonIncreasing(s: seq<int>) {
    forall i, j :: 0 <= i < j < |s| ==> s[j] <= s[i]
  }

  /** The amounts that survive, in order: filterPositivePendingPayments. */
  function Positive(s: seq<int>): seq<int> {
    if s == [] then []
    else Positive(s[..|s| - 1]) + (if s[|s| - 1] > 0 then [s[|s| - 1]] else [])
  }

  /** Takes the prepayment off the schedule from its last row backwards; a row taken off whole becomes 0. */
  function ReduceTerm(amounts: seq<int>, prepayment: int): (news: seq<int>)
    ensures |news| == |amounts|
  {
    if amounts == [] || prepayment <= 0 then amounts
    else
      var last := |amounts| - 1;
      if prepayment >= amounts[last] then ReduceTerm(amounts[..last], prepayment - amounts[last]) + [0]
      else amounts[..last] + [amounts[last] - prepayment]
  }

  /** Spreads the remaining debt over n rows; the first (debt mod n) rows carry one cent more. */
  function EvenSplit(debt: int, n: nat): (news: seq<int>)
    requires n > 0
    ensures |news| == n
  {
    seq(n, i => debt / n + if i < debt % n then 1 else 0)
  }

  // ----- reduce term -----

  /** The term after a reduce-term prepayment that leaves `debt`: the least k whose first k old amounts cover it. */
  ghost predicate LeastCover(amounts: seq<int>, debt: int, k: nat) {
    && k <= |amounts|
    && debt <= Total(amounts[..k])
    && forall j :: 0 <= j < k ==> Total(amounts[..j]) < debt
  }

  /** The first `term` rows of `news` are the old ones except that the last may be lowered; the rest are 0. */
  ghost predicate Shortened(amounts: seq<int>, news: seq<int>, term: nat) {
    && 0 < term <= |news| == |amounts|
    && (forall i :: 0 <= i < term - 1 ==> news[i] == amounts[i])
    && 0 < news[term - 1] <= amounts[term - 1]
    && forall i :: term <= i < |news| ==> news[i] == 0
  }

  lemma {:induction false} PrefixTotals(s: seq<int>, i: nat, j: nat)
    requires AllPositive(s) && i < j <= |s|
    ensures Total(s[..i]) < Total(s[..j])
  {
    var front := s[..j - 1];
    assert s[..j] == front + [s[j - 1]];
    SumAppend(front, s[j - 1], Cents);
    if i < j - 1 {
      PrefixTotals(s, i, j - 1);
    }
  }

  lemma {:induction false} ReduceTermTotal(amounts: seq<int>, prepayment: int)
    requires 0 <= prepayment <= Total(amounts)
    ensures Total(ReduceTerm(amounts, prepayment)) == Total(amounts) - prepayment
  {
    if prepayment > 0 {
      var last := |amounts| - 1;
      var front, x := amounts[..last], amounts[last];
      if prepayment < x {
        SumAppend(front, x - prepayment, Cents);
      } else {
        ReduceTermTotal(front, prepayment - x);
        SumAppend(ReduceTerm(front, prepayment - x), 0, Cents);
      }
    }
  }

  /** How many rows a reduce-term prepayment leaves. */
  function TermLeft(amounts: seq<int>, prepayment: int): nat {
    if amounts == [] then 0
    else
      var last := |amounts| - 1;
      if prepayment < amounts[last] then |amounts| else TermLeft(amounts[..last], prepayment - amounts[last])
  }

  lemma {:induction false} ReduceTermShortens(amounts: seq<int>, prepayment: int)
    requires AllPositive(amounts)
    requires 0 <= prepayment < Total(amounts)
    ensures Shortened(amounts, ReduceTerm(amounts, prepayment), TermLeft(amounts, prepayment))
  {
    var last := |amounts| - 1;
    if prepayment >= amounts[last] {
      var front, rest := amounts[..last], prepayment - amounts[last];
      ReduceTermShortens(front, rest);
      ShortenedFurther(front, ReduceTerm(front, rest), TermLeft(front, rest), amounts[last]);
      assert amounts == front + [amounts[last]];
    }
  }

  lemma ShortenedFurther(amounts: seq<int>, news: seq<int>, term: nat, x: int)
    requires Shortened(amounts, news, term)
    ensures Shortened(amounts + [x], news + [0], term)
  {
  }

  /** The total of a shortened schedule lies between the old prefixes of one row less and of its own length. */
  lemma ShortenedTotal(amounts: seq<int>, news: seq<int>, term: nat)
    requires Shortened(amounts, news, term)
    ensures Total(amounts[..term - 1]) < Total(news) <= Total(amounts[..term])
  {
    assert news == (news[..term - 1] + [news[term - 1]]) + news[term..];
    assert news[..term - 1] == amounts[..term - 1];
    SumConcat(news[..term - 1] + [news[term - 1]], news[term..], Cents);
    SumZero(news[term..], Cents);
    SumAppend(news[..term - 1], news[term - 1], Cents);
    assert amounts[..term] == amounts[..term - 1] + [amounts[term - 1]];
    SumAppend(amounts[..term - 1], amounts[term - 1], Cents);
  }

  lemma {:induction false} PositivePrefix(s: seq<int>, k: nat)
    requires k <= |s|
    requires forall i :: 0 <= i < |s| ==> if i < k then 0 < s[i] else s[i] == 0
    ensures Positive(s) == s[..k]
  {
    if s != [] {
      PositivePrefix(s[..|s| - 1], if k == |s| then k - 1 else k);
    }
  }

  /** Reduce term is exact and minimal: a prefix of the old rows survives, only its last row may be lowered,
      what survives sums to the remaining debt, and no shorter term would cover that debt. */
  lemma ReduceTermIsExactAndMinimal(amounts: seq<int>, prepayment: int)
    requires AllPositive(amounts)
    requires 0 < prepayment < Total(amounts)
    ensures var news := ReduceTerm(amounts, prepayment);
            var debt := Total(amounts) - prepayment;
            var term := |Positive(news)|;
            && Shortened(amounts, news, term)
            && Positive(news) == news[..term]
            && Total(news) == debt
            && LeastCover(amounts, debt, term)
  {
    var news := ReduceTerm(amounts, prepayment);
    var term := TermLeft(amounts, prepayment);
    ReduceTermShortens(amounts, prepayment);
    ReduceTermTotal(amounts, prepayment);
    PositivePrefix(news, term);
    ShortenedTotal(amounts, news, term);
    forall j | 0 <= j < term ensures Total(amounts[..j]) < Total(news) {
      if j < term - 1 {
        PrefixTotals(amounts, j, term - 1);
      }
    }
  }

  // ----- reduce payment -----

  lemma {:induction false} EvenSplitTotal(base: int, extra: int, n: nat)
    requires 0 <= extra
    ensures Total(seq(n, i => base + if i < extra then 1 else 0)) == base * n + if extra < n then extra else n
  {
    var s := seq(n, i => base + if i < extra then 1 else 0);
    if n > 0 {
      assert s[..n - 1] == seq(n - 1, i => base + if i < extra then 1 else 0);
      EvenSplitTotal(base, extra, n - 1);
      assert base * n == base * (n - 1) + base;
    } else {
      assert s == [];
    }
  }

  /** Reduce payment is an exact even split of the debt, larger amounts first. */
  lemma EvenSplitIsExact(debt: int, n: nat)
    requires n > 0
    ensures var news := EvenSplit(debt, n);
            && Total(news) == debt
            && NonIncreasing(news)
            && (forall i, j :: 0 <= i < j < n ==> news[i] - news[j] <= 1)
            && (n <= debt ==> AllPositive(news))
  {
    EvenSplitTotal(debt / n, debt % n, n);
    assert EvenSplit(debt, n) == seq(n, i => debt / n + if i < debt % n then 1 else 0);
    assert debt == debt / n * n + debt % n;
    Scale(debt / n, 0, n);
  }

  lemma Scale(x: int, y: int, n: nat)
    ensures x <= y ==> x * n <= y * n
  {
    if x <= y {
      assert (y - x) * n >= 0;
      assert y * n == x * n + (y - x) * n;
    }
  }

  /** The even split is the only one: any non-increasing split of the debt over n rows
      whose amounts differ by at most a cent is this one. */
  lemma {:induction false} EvenSplitIsUnique(s: seq<int>, debt: int)
    requires |s| > 0 && Total(s) == debt
    requires NonIncreasing(s) && s[0] - s[|s| - 1] <= 1
    ensures s == EvenSplit(debt, |s|)
  {
    var n := |s|;
    var low := s[n - 1];
    var k := CountAbove(s, low);
    TotalOfSteps(s, low, k);
    DivModUnique(debt, n, low, k);
  }

  /** How many leading amounts exceed `low`. */
  function CountAbove(s: seq<int>, low: int): nat {
    if s == [] then 0 else if s[|s| - 1] > low then |s| else CountAbove(s[..|s| - 1], low)
  }

  lemma {:induction false} TotalOfSteps(s: seq<int>, low: int, k: nat)
    requires NonIncreasing(s) && k == CountAbove(s, low)
    requires forall i :: 0 <= i < |s| ==> low <= s[i] <= low + 1
    ensures k <= |s|
    ensures s == seq(|s|, i => low + if i < k then 1 else 0)
    ensures Total(s) == low * |s| + k
  {
    CountAboveSplits(s, low);
    EvenSplitTotal(low, k, |s|);
  }

  lemma {:induction false} CountAboveSplits(s: seq<int>, low: int)
    requires NonIncreasing(s)
    ensures var k := CountAbove(s, low);
            && k <= |s|
            && (forall i :: 0 <= i < |s| ==> (low < s[i] <==> i < k))
  {
    if s != [] {
      CountAboveSplits(s[..|s| - 1], low);
    }
  }

  lemma DivModUnique(debt: int, n: nat, q: int, r: nat)
    requires n > 0 && debt == q * n + r && r < n
    ensures debt / n == q && debt % n == r
  {
    var d := debt / n - q;
    assert debt == debt / n * n + debt % n;
    assert d * n == r - debt % n;
    Scale(1, d, n);
    Scale(d, -1, n);
  }

  /** No new amount exceeds the largest old one. */
  lemma EvenSplitNeverRaises(oldAmounts: seq<int>, debt: int, m: int)
    requires oldAmounts != [] && 0 <= debt <= Total(oldAmounts)
    requires forall i :: 0 <= i < |oldAmounts| ==> oldAmounts[i] <= m
    ensures forall i :: 0 <= i < |oldAmounts| ==> EvenSplit(debt, |oldAmounts|)[i] <= m
  {
    SumAtMost(oldAmounts, Cents, m);
    CeilingBound(debt, |oldAmounts|, m);
  }

  lemma CeilingBound(debt: int, n: nat, m: int)
    requires 0 < n && debt <= n * m
    ensures debt / n + (if debt % n > 0 then 1 else 0) <= m
  {
    var q, r := debt / n, debt % n;
    assert debt == q * n + r;
    Scale(m + 1, q, n);
    assert (m + 1) * n == m * n + n;
    Scale(m, q, n);
  }
}

/** Performance figures over closed trades and marked positions, app/metrics/engine.py: one-pass loops against
    the definitions they stand for. */
module Metrics {
  import opened Basics
  import opened Sorting
  import opened FillLedger
  import opened PositionBook
  import opened CashLedger

  datatype ClosedTrade = ClosedTrade(closedAt: int, pnl: real, fees: real)

  // ---- drawdown ----

  /** The highest point up to j. */
  function Peak(curve: seq<real>, j: nat): (peak: real)
    requires j < |curve|
    ensures forall i :: 0 <= i <= j ==> curve[i] <= peak
    ensures exists i :: 0 <= i <= j && curve[i] == peak
  {
    if j == 0 then curve[0] else Max(Peak(curve, j - 1), curve[j])
  }

  function Percent(money: real, peak: real): real {
    if peak > 0.0 then money / peak * 100.0 else 0.0
  }

  /** The fall below the peak so far, in money and in percent of that peak. */
  function Fall(curve: seq<real>, j: nat): real
    requires j < |curve|
  {
    Peak(curve, j) - curve[j]
  }

  function RelativeFall(curve: seq<real>, j: nat): real
    requires j < |curve|
  {
    Percent(Fall(curve, j), Peak(curve, j))
  }

  /** money is a fall from some point to a later one, and no such fall is larger. */
  ghost predicate LargestFall(curve: seq<real>, money: real) {
    && (forall i, j :: 0 <= i <= j < |curve| ==> curve[i] - curve[j] <= money)
    && exists i, j :: 0 <= i <= j < |curve| && curve[i] - curve[j] == money
  }

  /** The largest fall below the running peak among the first n points, and the largest relative one. */
  function MaxFall(curve: seq<real>, n: nat): real
    requires n <= |curve|
  {
    if n == 0 then 0.0 else Max(MaxFall(curve, n - 1), Fall(curve, n - 1))
  }

  function MaxRelativeFall(curve: seq<real>, n: nat): real
    requires n <= |curve|
  {
    if n == 0 then 0.0 else Max(MaxRelativeFall(curve, n - 1), RelativeFall(curve, n - 1))
  }

  /** _max_drawdown: one pass with a running peak. */
  method MaxDrawdown(curve: seq<real>) returns (currentMoney: real, currentPct: real, maxMoney: real, maxPct: real)
    requires curve != []
    ensures maxMoney == MaxFall(curve, |curve|) && maxPct == MaxRelativeFall(curve, |curve|)
    ensures currentMoney == Fall(curve, |curve| - 1) && currentPct == RelativeFall(curve, |curve| - 1)
  {
    var peak := curve[0];
    maxMoney, maxPct, currentMoney, currentPct := 0.0, 0.0, 0.0, 0.0;
    for n := 0 to |curve|
      invariant if n == 0 then peak == curve[0] else peak == Peak(curve, n - 1)
      invariant maxMoney == MaxFall(curve, n) && maxPct == MaxRelativeFall(curve, n)
      invariant n > 0 ==> currentMoney == Fall(curve, n - 1) && currentPct == RelativeFall(curve, n - 1)
    {
      peak := Max(peak, curve[n]);
      currentMoney := peak - curve[n];
      currentPct := Percent(currentMoney, peak);
      maxMoney := Max(maxMoney, currentMoney);
      maxPct := Max(maxPct, currentPct);
    }
  }

  /** No point fell further below its peak, and some point fell exactly that far. */
  lemma {:induction false} MaxFallIsReached(curve: seq<real>, n: nat) returns (at: nat)
    requires 0 < n <= |curve|
    ensures at < n && Fall(curve, at) == MaxFall(curve, n)
    ensures forall j: nat :: j < n ==> Fall(curve, j) <= MaxFall(curve, n)
    decreases n
  {
    if n == 1 {
      at := 0;
    } else {
      at := MaxFallIsReached(curve, n - 1);
      if Fall(curve, n - 1) > MaxFall(curve, n - 1) {
        at := n - 1;
      }
    }
  }

  /** The largest fall from the running peak is the largest fall over all pairs of points. */
  lemma {:induction false} PeakFallsAreTheLargest(curve: seq<real>)
    requires curve != []
    ensures LargestFall(curve, MaxFall(curve, |curve|))
  {
    var j := MaxFallIsReached(curve, |curve|);
    var i :| 0 <= i <= j && curve[i] == Peak(curve, j);
    assert curve[i] - curve[j] == MaxFall(curve, |curve|);
    forall i, j | 0 <= i <= j < |curve|
      ensures curve[i] - curve[j] <= MaxFall(curve, |curve|)
    {
      assert Fall(curve, j) <= MaxFall(curve, |curve|);
    }
  }

  lemma {:induction false} RelativeFallIsBounded(curve: seq<real>, n: nat, j: nat)
    requires j < n <= |curve|
    ensures RelativeFall(curve, j) <= MaxRelativeFall(curve, n)
    decreases n
  {
    if j == n - 1 {
    } else {
      RelativeFallIsBounded(curve, n - 1, j);
    }
  }

  /** While equity never goes negative, the percentage measured from the running peak is the largest relative fall
      between any two points. */
  lemma {:induction false} PeakFallsAreTheRelativelyLargest(curve: seq<real>, i: nat, j: nat)
    requires i <= j < |curve| && curve[i] > 0.0 && curve[j] >= 0.0
    ensures Percent(curve[i] - curve[j], curve[i]) <= MaxRelativeFall(curve, |curve|)
  {
    RelativeFallIsBounded(curve, |curve|, j);
    RelativeFallGrowsWithThePeak(curve[i], Peak(curve, j), curve[j]);
  }

  lemma {:induction false} RelativeFallGrowsWithThePeak(from: real, peak: real, v: real)
    requires 0.0 < from <= peak && v >= 0.0
    ensures Percent(from - v, from) <= Percent(peak - v, peak)
  {
    QuotientOfDifference(from, v);
    QuotientOfDifference(peak, v);
    QuotientShrinks(v, from, peak);
  }

  lemma {:induction false} RelativeFallShrinksBelowZero(from: real, peak: real, v: real)
    requires 0.0 < from < peak && v < 0.0
    ensures Percent(from - v, from) > Percent(peak - v, peak)
  {
    QuotientOfDifference(from, v);
    QuotientOfDifference(peak, v);
    NegativeQuotientGrows(v, from, peak);
  }

  lemma {:induction false} NegativeQuotientGrows(v: real, x: real, y: real)
    requires v < 0.0 && 0.0 < x < y
    ensures v / x < v / y
  {
    var q, p := v / y, v / x;
    assert q * y == v && p * x == v && q < 0.0;
    assert (y - x) * q < 0.0;
    assert (p - q) * x < 0.0;
    assert p >= q ==> (p - q) * x >= 0.0;
  }

  lemma {:induction false} QuotientOfDifference(x: real, v: real)
    requires x > 0.0
    ensures (x - v) / x == 1.0 - v / x
  {
    assert v / x * x == v;
    assert (x - v) / x * x == x - v;
    SameProductSameFactor((x - v) / x, 1.0 - v / x, x);
  }

  lemma {:induction false} SameProductSameFactor(a: real, b: real, x: real)
    requires x != 0.0 && a * x == b * x
    ensures a == b
  {
  }

  lemma {:induction false} QuotientShrinks(v: real, x: real, y: real)
    requires v >= 0.0 && 0.0 < x <= y
    ensures v / y <= v / x
  {
    var q, p := v / y, v / x;
    assert q * y == v && p * x == v && q >= 0.0;
    NonNegativeProduct(q, y - x);
    assert (p - q) * x >= 0.0;
    assert q > p ==> (q - p) * x > 0.0;
  }

  /** Exactly when the fall measured from the running peak is relatively as large as the one from an earlier positive
      point: when the curve has not gone below zero, or that point is the peak. */
  lemma {:induction false} PeakFallIsRelativelyLargestExactlyWhen(curve: seq<real>, i: nat, j: nat)
    requires i <= j < |curve| && curve[i] > 0.0
    ensures Percent(curve[i] - curve[j], curve[i]) <= RelativeFall(curve, j) <==>
      curve[j] >= 0.0 || curve[i] == Peak(curve, j)
  {
    if curve[j] >= 0.0 {
      RelativeFallGrowsWithThePeak(curve[i], Peak(curve, j), curve[j]);
    } else if curve[i] < Peak(curve, j) {
      RelativeFallShrinksBelowZero(curve[i], Peak(curve, j), curve[j]);
    }
  }

  /** Below zero a far larger relative fall goes unreported: 10100 percent from 1 to -100, where the largest reported one
      is 200 percent. */
  lemma {:induction false} NegativeEquityHidesRelativeFalls()
    ensures var curve := [1.0, 100.0, -100.0];
      MaxRelativeFall(curve, |curve|) == 200.0 && Percent(curve[0] - curve[2], curve[0]) == 10100.0
  {
    var curve := [1.0, 100.0, -100.0];
    assert Peak(curve, 0) == 1.0 && Peak(curve, 1) == 100.0 && Peak(curve, 2) == 100.0;
    assert MaxRelativeFall(curve, 1) == 0.0 && MaxRelativeFall(curve, 2) == 0.0;
  }

  // ---- streaks ----

  /** The length of the run of results with the given sign that ends at n. */
  function Current(pnls: seq<real>, sign: real, n: nat): (k: nat)
    requires n <= |pnls|
    ensures k <= n
  {
    if n == 0 || sign * pnls[n - 1] <= 0.0 then 0 else Current(pnls, sign, n - 1) + 1
  }

  function Longest(pnls: seq<real>, sign: real, n: nat): nat
    requires n <= |pnls|
  {
    if n == 0 then 0
    else
      var before, here := Longest(pnls, sign, n - 1), Current(pnls, sign, n);
      if here > before then here else before
  }

  /** _streaks: one pass over the results. */
  method Streaks(pnls: seq<real>) returns (maxWin: nat, maxLoss: nat)
    ensures maxWin == Longest(pnls, 1.0, |pnls|) && maxLoss == Longest(pnls, -1.0, |pnls|)
  {
    maxWin, maxLoss := 0, 0;
    var curWin, curLoss: nat := 0, 0;
    for n := 0 to |pnls|
      invariant curWin == Current(pnls, 1.0, n) && curLoss == Current(pnls, -1.0, n)
      invariant maxWin == Longest(pnls, 1.0, n) && maxLoss == Longest(pnls, -1.0, n)
    {
      var pnl := pnls[n];
      if pnl > 0.0 {
        curWin, curLoss := curWin + 1, 0;
      } else if pnl < 0.0 {
        curLoss, curWin := curLoss + 1, 0;
      } else {
        curWin, curLoss := 0, 0;
      }
      maxWin := if curWin > maxWin then curWin else maxWin;
      maxLoss := if curLoss > maxLoss then curLoss else maxLoss;
    }
  }

  /** All results in [i, j) have the given sign, strictly. */
  ghost predicate AllSigned(pnls: seq<real>, sign: real, i: int, j: int) {
    0 <= i <= j <= |pnls| && forall k :: i <= k < j ==> sign * pnls[k] > 0.0
  }

  lemma {:induction false} CurrentIsTheRunEndingHere(pnls: seq<real>, sign: real, n: nat, i: nat)
    requires i <= n <= |pnls|
    ensures AllSigned(pnls, sign, n - Current(pnls, sign, n), n)
    ensures AllSigned(pnls, sign, i, n) ==> n - i <= Current(pnls, sign, n)
    decreases n
  {
    if n == 0 {
    } else {
      var before := if i < n then i else n - 1;
      CurrentIsTheRunEndingHere(pnls, sign, n - 1, before);
      if i < n && AllSigned(pnls, sign, i, n) {
        assert sign * pnls[n - 1] > 0.0;
        assert AllSigned(pnls, sign, i, n - 1);
      }
    }
  }

  lemma {:induction false} LongestIsReached(pnls: seq<real>, sign: real, n: nat) returns (i: nat, j: nat)
    requires n <= |pnls|
    ensures AllSigned(pnls, sign, i, j) && j <= n && j - i == Longest(pnls, sign, n)
    decreases n
  {
    if n == 0 {
      return 0, 0;
    }
    i, j := LongestIsReached(pnls, sign, n - 1);
    if Current(pnls, sign, n) > Longest(pnls, sign, n - 1) {
      CurrentIsTheRunEndingHere(pnls, sign, n, n);
      i, j := n - Current(pnls, sign, n), n;
    }
  }

  lemma {:induction false} CurrentIsBounded(pnls: seq<real>, sign: real, n: nat, j: nat)
    requires j <= n <= |pnls|
    ensures Current(pnls, sign, j) <= Longest(pnls, sign, n)
    decreases n
  {
    if j == n {
    } else {
      CurrentIsBounded(pnls, sign, n - 1, j);
    }
  }

  /** The streaks are the longest contiguous runs of strictly positive and of strictly negative results. */
  lemma {:induction false} StreaksAreTheLongestRuns(pnls: seq<real>, sign: real)
    ensures exists i, j :: AllSigned(pnls, sign, i, j) && j - i == Longest(pnls, sign, |pnls|)
    ensures forall i, j :: AllSigned(pnls, sign, i, j) ==> j - i <= Longest(pnls, sign, |pnls|)
  {
    var i, j := LongestIsReached(pnls, sign, |pnls|);
    forall i, j | AllSigned(pnls, sign, i, j)
      ensures j - i <= Longest(pnls, sign, |pnls|)
    {
      CurrentIsTheRunEndingHere(pnls, sign, j, i);
      CurrentIsBounded(pnls, sign, |pnls|, j);
    }
  }

  // ---- closed trades ----

  function ClosedAtOf(t: ClosedTrade): int {
    t.closedAt
  }

  /** The trades by closing time; equal times keep their order. */
  function ByClose(trades: seq<ClosedTrade>): seq<ClosedTrade> {
    SortedBy(trades, ClosedAtOf)
  }

  function Pnls(trades: seq<ClosedTrade>): seq<real> {
    seq(|trades|, i requires 0 <= i < |trades| => trades[i].pnl)
  }

  function Wins(pnls: seq<real>): seq<real> {
    if pnls == [] then []
    else
      var rest := Wins(pnls[..|pnls| - 1]);
      if pnls[|pnls| - 1] > 0.0 then rest + [pnls[|pnls| - 1]] else rest
  }

  function Losses(pnls: seq<real>): seq<real> {
    if pnls == [] then []
    else
      var rest := Losses(pnls[..|pnls| - 1]);
      if pnls[|pnls| - 1] < 0.0 then rest + [pnls[|pnls| - 1]] else rest
  }

  function Total(xs: seq<real>): real {
    Sum(xs, (x: real) => x)
  }

  function Commissions(trades: seq<ClosedTrade>): real {
    Sum(trades, (t: ClosedTrade) => t.fees)
  }

  /** What the trades earned after their fees, in whatever order they are listed. */
  function NetOf(trades: seq<ClosedTrade>): real {
    Sum(trades, (t: ClosedTrade) => t.pnl - t.fees)
  }

  function FundingPart(funding: Option<real>): real {
    match funding case Some(x) => x case None => 0.0
  }

  datatype Figures = Figures(
    grossProfit: real, grossLoss: real, netProfit: real, winRate: real,
    avgWin: Option<real>, avgLoss: Option<real>, expectancy: Option<real>,
    maxWinStreak: nat, maxLossStreak: nat,
    currentDrawdown: real, currentDrawdownPct: real, maxDrawdown: real, maxDrawdownPct: real)

  function Ratio(x: real, n: real): real
    requires n != 0.0
  {
    x / n
  }

  function Product(x: real, y: real): real {
    x * y
  }

  function Weighted(rate: real, x: real, y: real): real {
    rate * x + (1.0 - rate) * y
  }

  function Mean(xs: seq<real>): Option<real> {
    if xs == [] then None else Some(Ratio(Total(xs), |xs| as real))
  }

  function WinRate(pnls: seq<real>): real
    requires pnls != []
  {
    Ratio(|Wins(pnls)| as real, |pnls| as real)
  }

  function Expectancy(pnls: seq<real>): Option<real>
    requires pnls != []
  {
    var winRate := WinRate(pnls);
    var avgWin, avgLoss := Mean(Wins(pnls)), Mean(Losses(pnls));
    if avgWin.Some? && avgLoss.Some? then Some(Weighted(winRate, avgWin.value, avgLoss.value))
    else if avgWin.Some? then Some(Product(winRate, avgWin.value))
    else None
  }

  /** The balance after each trade, from the starting balance on. */
  function Curve(starting: real, trades: seq<ClosedTrade>): (curve: seq<real>)
    ensures |curve| == |trades| + 1
  {
    if trades == [] then [starting]
    else
      var n := |trades| - 1;
      var before := Curve(starting, trades[..n]);
      before + [before[n] + (trades[n].pnl - trades[n].fees)]
  }

  method EquityCurve(starting: real, ordered: seq<ClosedTrade>) returns (curve: seq<real>)
    ensures curve == Curve(starting, ordered)
  {
    curve := [starting];
    var running := starting;
    for i := 0 to |ordered|
      invariant curve == Curve(starting, ordered[..i]) && running == curve[i]
    {
      assert ordered[..i + 1][..i] == ordered[..i];
      running := running + (ordered[i].pnl - ordered[i].fees);
      curve := curve + [running];
    }
    assert ordered[..|ordered|] == ordered;
  }

  /** compute_metrics: nothing without trades, otherwise the figures of the trades in closing order. */
  method ComputeMetrics(trades: seq<ClosedTrade>, starting: real, funding: Option<real>)
    returns (figures: Option<Figures>)
    ensures figures.None? <==> trades == []
    ensures figures.Some? ==>
      var f, pnls, curve := figures.value, Pnls(ByClose(trades)), Curve(starting, ByClose(trades));
      && |curve| == |trades| + 1
      && f.grossProfit == Total(Wins(pnls)) && f.grossLoss == Total(Losses(pnls))
      && f.netProfit == curve[|trades|] - starting + FundingPart(funding)
      && f.netProfit == NetOf(trades) + FundingPart(funding)
      && f.avgWin == Mean(Wins(pnls)) && f.avgLoss == Mean(Losses(pnls))
      && pnls != [] && f.winRate == WinRate(pnls) && f.expectancy == Expectancy(pnls)
      && f.maxWinStreak == Longest(pnls, 1.0, |pnls|) && f.maxLossStreak == Longest(pnls, -1.0, |pnls|)
      && f.maxDrawdown == MaxFall(curve, |curve|) && f.maxDrawdownPct == MaxRelativeFall(curve, |curve|)
      && f.currentDrawdown == Fall(curve, |trades|) && f.currentDrawdownPct == RelativeFall(curve, |trades|)
  {
    if trades == [] {
      return None;
    }
    var ordered := ByClose(trades);
    SortingSorts(trades, ClosedAtOf);
    var pnls := Pnls(ordered);
    var wins, losses := Wins(pnls), Losses(pnls);
    var net := Total(wins) + Total(losses) - Commissions(ordered) + FundingPart(funding);
    var maxWin, maxLoss := Streaks(pnls);
    var curve := EquityCurve(starting, ordered);
    NetProfitIsTheCurvesGain(starting, trades);
    var current, currentPct, maxFall, maxPct := MaxDrawdown(curve);
    return Some(Figures(Total(wins), Total(losses), net, WinRate(pnls), Mean(wins), Mean(losses),
                        Expectancy(pnls), maxWin, maxLoss, current, currentPct, maxFall, maxPct));
  }

  lemma {:induction false} CurveGain(starting: real, trades: seq<ClosedTrade>)
    ensures Curve(starting, trades)[|trades|] == starting + NetOf(trades)
    decreases |trades|
  {
    if trades == [] {
    } else {
      CurveGain(starting, trades[..|trades| - 1]);
    }
  }

  lemma {:induction false} WinsAndLossesMakeTheNet(trades: seq<ClosedTrade>)
    ensures Total(Wins(Pnls(trades))) + Total(Losses(Pnls(trades))) - Commissions(trades) == NetOf(trades)
    decreases |trades|
  {
    if trades == [] {
    } else {
      var n := |trades| - 1;
      var pnls := Pnls(trades);
      WinsAndLossesMakeTheNet(trades[..n]);
      assert pnls[..n] == Pnls(trades[..n]);
      TotalOfAppend(Wins(pnls[..n]), pnls[n]);
      TotalOfAppend(Losses(pnls[..n]), pnls[n]);
    }
  }

  lemma {:induction false} TotalOfAppend(xs: seq<real>, x: real)
    ensures Total(xs + [x]) == Total(xs) + x
  {
    assert (xs + [x])[..|xs|] == xs;
  }

  /** Net profit is the gain of the curve over its start, and does not depend on the order of the trades. */
  lemma {:induction false} NetProfitIsTheCurvesGain(starting: real, trades: seq<ClosedTrade>)
    ensures var ordered := ByClose(trades);
      var net := Total(Wins(Pnls(ordered))) + Total(Losses(Pnls(ordered))) - Commissions(ordered);
      |ordered| == |trades| && net == Curve(starting, ordered)[|trades|] - starting && net == NetOf(trades)
  {
    var ordered := ByClose(trades);
    SortingSorts(trades, ClosedAtOf);
    CurveGain(starting, ordered);
    WinsAndLossesMakeTheNet(ordered);
    SumOfPermutation(ordered, trades, (t: ClosedTrade) => t.pnl - t.fees);
  }

  lemma {:induction false} LossesAreNegative(pnls: seq<real>)
    ensures Losses(pnls) != [] ==> Total(Losses(pnls)) < 0.0
    ensures |Wins(pnls)| + |Losses(pnls)| <= |pnls|
    ensures Total(Wins(pnls)) + Total(Losses(pnls)) == Total(pnls)
    decreases |pnls|
  {
    if pnls == [] {
    } else {
      var n := |pnls| - 1;
      LossesAreNegative(pnls[..n]);
      TotalOfAppend(Wins(pnls[..n]), pnls[n]);
      TotalOfAppend(Losses(pnls[..n]), pnls[n]);
    }
  }

  lemma {:induction false} ProductOfRatios(x: real, y: real, n: real)
    requires n > 0.0 && x > 0.0
    ensures Product(Ratio(x, n), Ratio(y, x)) == Ratio(y, n)
  {
  }

  lemma {:induction false} RemainingShare(n: real, w: real, l: real)
    requires n > 0.0
    ensures Ratio(n - w - l, n) == 1.0 - Ratio(w, n) - Ratio(l, n)
  {
    QuotientOfDifference(n, w + l);
    assert (w + l) / n * n == w + l && w / n * n == w && l / n * n == l;
    SameProductSameFactor((w + l) / n, w / n + l / n, n);
  }

  lemma {:induction false} WeightedMeans(n: real, w: real, l: real, gain: real, loss: real)
    requires n > 0.0 && w > 0.0 && l > 0.0 && loss < 0.0
    ensures Weighted(Ratio(w, n), Ratio(gain, w), Ratio(loss, l)) - Ratio(gain + loss, n) ==
      Ratio(n - w - l, n) * Ratio(loss, l)
  {
    ProductOfRatios(w, gain, n);
    ProductOfRatios(l, loss, n);
    var q := Ratio(loss, l);
    assert Ratio(gain + loss, n) == Ratio(gain, n) + Ratio(loss, n);
    RemainingShare(n, w, l);
    assert (1.0 - Ratio(w, n) - Ratio(l, n)) * q == (1.0 - Ratio(w, n)) * q - Ratio(l, n) * q;
  }

  /** By how much the weighted mean of wins and losses misses the plain one, and when it does not. */
  lemma {:induction false} MixedMeans(n: real, w: real, l: real, gain: real, loss: real)
    requires n > 0.0 && w > 0.0 && l > 0.0 && loss < 0.0
    ensures var (mixed, plain) := (Weighted(Ratio(w, n), Ratio(gain, w), Ratio(loss, l)), Ratio(gain + loss, n));
      mixed - plain == Ratio(n - w - l, n) * Ratio(loss, l) && (mixed == plain <==> w + l == n)
  {
    WeightedMeans(n, w, l, gain, loss);
    assert Ratio(n - w - l, n) * n == n - w - l;
    assert Ratio(loss, l) * l == loss;
  }

  lemma {:induction false} ExpectancyOfWinsAlone(pnls: seq<real>)
    requires Wins(pnls) != [] && Losses(pnls) == [] && pnls != []
    ensures Expectancy(pnls) == Mean(pnls)
  {
    LossesAreNegative(pnls);
    var n, wins := |pnls| as real, Wins(pnls);
    ProductOfRatios(|wins| as real, Total(wins), n);
    assert Total(wins) == Total(pnls);
  }

  lemma {:induction false} ExpectancyOfBoth(pnls: seq<real>)
    requires Wins(pnls) != [] && Losses(pnls) != [] && pnls != []
    ensures Expectancy(pnls) == Mean(pnls) <==> |Wins(pnls)| + |Losses(pnls)| == |pnls|
    ensures Expectancy(pnls).value - Mean(pnls).value ==
      Ratio((|pnls| - |Wins(pnls)| - |Losses(pnls)|) as real, |pnls| as real) * Mean(Losses(pnls)).value
  {
    LossesAreNegative(pnls);
    MixedMeans(|pnls| as real, |Wins(pnls)| as real, |Losses(pnls)| as real, Total(Wins(pnls)), Total(Losses(pnls)));
  }

  /** The reported expectancy is the mean result per trade exactly when there is a win, and either no loss or no trade
      that broke even; with wins and losses, each break-even pulls it off the mean by one share of the average loss.
      */
  lemma {:induction false} ExpectancyIsTheMeanExactlyWhen(pnls: seq<real>)
    requires pnls != []
    ensures Expectancy(pnls) == Mean(pnls) <==>
      Wins(pnls) != [] && (Losses(pnls) == [] || |Wins(pnls)| + |Losses(pnls)| == |pnls|)
    ensures Wins(pnls) != [] && Losses(pnls) != [] ==>
      Expectancy(pnls).value - Mean(pnls).value ==
      Ratio((|pnls| - |Wins(pnls)| - |Losses(pnls)|) as real, |pnls| as real) * Mean(Losses(pnls)).value
  {
    if Wins(pnls) == [] {
    } else if Losses(pnls) == [] {
      ExpectancyOfWinsAlone(pnls);
    } else {
      ExpectancyOfBoth(pnls);
    }
  }

  // ---- open positions ----

  /** An open position and its mark price, when there is a valid one. */
  datatype Marked = Marked(position: Position, mark: Option<real>)

  function MarkedValue(m: Marked): real {
    match m.mark case Some(mark) => Unrealized(m.position, mark) case None => 0.0
  }

  /** compute_unrealized_pnl: unmarkable positions are left out of the total and reported as incompleteness. */
  method ComputeUnrealized(marks: seq<Marked>) returns (total: real, complete: bool, perPosition: seq<Option<real>>)
    ensures total == Sum(marks, (m: Marked) => MarkedValue(m))
    ensures complete <==> forall m <- marks :: m.mark.Some?
    ensures |perPosition| == |marks|
    ensures forall i :: 0 <= i < |marks| ==>
      perPosition[i] == if marks[i].mark.Some? then Some(MarkedValue(marks[i])) else None
  {
    total, complete, perPosition := 0.0, true, [];
    for i := 0 to |marks|
      invariant total == Sum(marks[..i], (m: Marked) => MarkedValue(m)) && |perPosition| == i
      invariant complete <==> forall j :: 0 <= j < i ==> marks[j].mark.Some?
      invariant forall j :: 0 <= j < i ==>
        perPosition[j] == if marks[j].mark.Some? then Some(MarkedValue(marks[j])) else None
    {
      var m := marks[i];
      assert marks[..i + 1] == marks[..i] + [m];
      OneMoreMarked(marks[..i], m);
      match m.mark
      case None =>
        complete := false;
        perPosition := perPosition + [None];
      case Some(mark) =>
        var pnl := DirectedPnl(m.position, mark);
        total := total + pnl;
        perPosition := perPosition + [Some(pnl)];
    }
    assert marks[..|marks|] == marks;
  }

  /** One position's profit at its mark, by direction. */
  method DirectedPnl(p: Position, mark: real) returns (pnl: real)
    ensures pnl == Unrealized(p, mark)
  {
    var direction := if p.side.Buy? then 1.0 else -1.0;
    pnl := direction * (mark - p.avg) * p.qty;
    DirectionTimesMove(p, mark);
  }

  lemma {:induction false} DirectionTimesMove(p: Position, mark: real)
    ensures (if p.side.Buy? then 1.0 else -1.0) * (mark - p.avg) * p.qty == Unrealized(p, mark)
  {
  }

  /** The open rows of the positions table, marked. */
  function OpenMarked(ps: seq<Position>, marks: string -> Option<real>): seq<Marked> {
    if ps == [] then []
    else
      var n := |ps| - 1;
      var p := ps[n];
      if p.open then OpenMarked(ps[..n], marks) + [Marked(p, marks(p.symbol))] else OpenMarked(ps[..n], marks)
  }

  lemma {:induction false} OneMoreMarked(ms: seq<Marked>, m: Marked)
    ensures Sum(ms + [m], (m: Marked) => MarkedValue(m)) == Sum(ms, (m: Marked) => MarkedValue(m)) + MarkedValue(m)
  {
    assert (ms + [m])[..|ms|] == ms;
  }

  /** Fully marked, the loop's total is the unrealized profit of the positions table. */
  lemma {:induction false} FullyMarkedTotal(ps: seq<Position>, marks: Marks)
    ensures Sum(OpenMarked(ps, (s: string) => Some(marks(s))), (m: Marked) => MarkedValue(m)) == UnrealizedOf(ps, marks)
    decreases |ps|
  {
    if ps == [] {
    } else {
      var n := |ps| - 1;
      var all: string -> Option<real> := (s: string) => Some(marks(s));
      FullyMarkedTotal(ps[..n], marks);
      OneMoreMarked(OpenMarked(ps[..n], all), Marked(ps[n], all(ps[n].symbol)));
    }
  }

  /** The dashboard's equity, with every open position marked, is cash plus holdings at the mark on every faithful
      run. */
  lemma {:induction false} DashboardEquityIsCashPlusHoldings(starting: real, rows: seq<Execution>,
                                                             funding: Option<real>, marks: Marks)
    requires FaithfulRun(rows)
    ensures var ps := PositionsAfter(rows);
      var unrealized := Sum(OpenMarked(ps, (s: string) => Some(marks(s))), (m: Marked) => MarkedValue(m));
      Equity(starting, RealizedOf(ps), FeesPaid(rows), funding, unrealized) ==
      starting + FundingPart(funding) + Cash(rows) + Holdings(rows, marks)
  {
    FullyMarkedTotal(PositionsAfter(rows), marks);
    EquityRefinesThePlainLedger(starting, rows, funding, marks);
  }
}

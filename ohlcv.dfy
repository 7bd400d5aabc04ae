/**
 * `agg_ohlcv` of bdata_agg.py: the open, high, low, close and volume of one
 * group of trades, given its prices and its amounts in trade order. NaN,
 * which the code returns for the price fields of an empty group, is `None`.
 */
module Ohlcv {
  import opened Wrappers

  datatype Bar = Bar(low: Option<real>, high: Option<real>, open: Option<real>, close: Option<real>, volume: real)

  /** Python's `min` over a non-empty array. */
  function Min(s: seq<real>): (m: real)
    requires |s| > 0
    ensures m in s && forall i :: 0 <= i < |s| ==> m <= s[i]
  {
    if |s| == 1 then s[0]
    else
      var rest := Min(s[1..]);
      assert forall i :: 1 <= i < |s| ==> s[i] == s[1..][i - 1];
      if s[0] <= rest then s[0] else rest
  }

  /** Python's `max` over a non-empty array. */
  function Max(s: seq<real>): (m: real)
    requires |s| > 0
    ensures m in s && forall i :: 0 <= i < |s| ==> s[i] <= m
  {
    if |s| == 1 then s[0]
    else
      var rest := Max(s[1..]);
      assert forall i :: 1 <= i < |s| ==> s[i] == s[1..][i - 1];
      if rest <= s[0] then s[0] else rest
  }

  /** Python's `sum`: the amounts added left to right, starting from 0; never negative for non-negative amounts. */
  function Sum(s: seq<real>): (r: real)
    ensures (forall i :: 0 <= i < |s| ==> s[i] >= 0.0) ==> r >= 0.0
    ensures |s| == 0 ==> r == 0.0
    ensures |s| == 1 ==> r == s[0]
  {
    if |s| == 0 then 0.0 else Sum(s[..|s| - 1]) + s[|s| - 1]
  }

  /** The sum of two arrays laid end to end is the sum of their sums. */
  lemma {:induction false} SumConcat(a: seq<real>, b: seq<real>)
    ensures Sum(a + b) == Sum(a) + Sum(b)
    decreases |b|
  {
    if |b| > 0 {
      var b0 := b[..|b| - 1];
      SumConcat(a, b0);
      assert (a + b)[..|a + b| - 1] == a + b0;
    } else {
      assert a + b == a;
    }
  }

  /** The volume of a group whose amounts are all non-negative is non-negative, and at least each one of them. */
  lemma {:induction false} SumBounds(s: seq<real>, k: int)
    requires forall i :: 0 <= i < |s| ==> s[i] >= 0.0
    requires 0 <= k < |s|
    ensures Sum(s) >= s[k] >= 0.0
    decreases |s|
  {
    var init := s[..|s| - 1];
    if k < |s| - 1 {
      SumBounds(init, k);
    } else if |init| > 0 {
      SumBounds(init, 0);
    }
  }

  /** `agg_ohlcv`: the bar of one group. */
  function AggOhlcv(prices: seq<real>, amounts: seq<real>): (r: Bar)
    ensures r.low.None? <==> |prices| == 0
    ensures r.low.None? <==> r.high.None?
    ensures r.low.None? <==> r.open.None?
    ensures r.low.None? <==> r.close.None?
    ensures |prices| > 0 ==> r.open == Some(prices[0]) && r.close == Some(prices[|prices| - 1])
    ensures r.low.Some? ==> r.low.value in prices && forall i :: 0 <= i < |prices| ==> r.low.value <= prices[i]
    ensures r.high.Some? ==> r.high.value in prices && forall i :: 0 <= i < |prices| ==> prices[i] <= r.high.value
    ensures r.volume == Sum(amounts)
  {
    Bar(
      if |prices| > 0 then Some(Min(prices)) else None,
      if |prices| > 0 then Some(Max(prices)) else None,
      if |prices| > 0 then Some(prices[0]) else None,
      if |prices| > 0 then Some(prices[|prices| - 1]) else None,
      if |amounts| > 0 then Sum(amounts) else 0.0)
  }

  /** For a non-empty group, low <= open <= high and low <= close <= high. */
  lemma BarOrdered(prices: seq<real>, amounts: seq<real>)
    requires |prices| > 0
    ensures var r := AggOhlcv(prices, amounts);
            && r.low.value <= r.open.value <= r.high.value
            && r.low.value <= r.close.value <= r.high.value
  {
    var r := AggOhlcv(prices, amounts);
    assert r.open.value == prices[0];
    assert r.close.value == prices[|prices| - 1];
  }

  /**
   * The volume is the sum of all amounts, the empty group included; so the
   * bar of two consecutive groups has the sum of their volumes.
   */
  lemma VolumeAdds(prices: seq<real>, a: seq<real>, b: seq<real>)
    ensures AggOhlcv(prices, a + b).volume == AggOhlcv(prices, a).volume + AggOhlcv(prices, b).volume
  {
    SumConcat(a, b);
  }

  /** The bar of two consecutive groups: open from the first, close from the second, extremes from both. */
  lemma BarMerge(p: seq<real>, q: seq<real>, amounts: seq<real>)
    requires |p| > 0 && |q| > 0
    ensures var r, rp, rq := AggOhlcv(p + q, amounts), AggOhlcv(p, amounts), AggOhlcv(q, amounts);
            && r.open == rp.open && r.close == rq.close
            && r.low.value == (if rp.low.value <= rq.low.value then rp.low.value else rq.low.value)
            && r.high.value == (if rp.high.value >= rq.high.value then rp.high.value else rq.high.value)
  {
    var r, rp, rq := AggOhlcv(p + q, amounts), AggOhlcv(p, amounts), AggOhlcv(q, amounts);
    var pq := p + q;
    assert forall i :: 0 <= i < |p| ==> pq[i] == p[i];
    assert forall i :: 0 <= i < |q| ==> pq[|p| + i] == q[i];
    assert r.low.value in pq;
    assert r.high.value in pq;
  }
}

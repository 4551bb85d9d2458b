/** The one-pass maximum drawdown every engine computes, against its all-pairs definition. */
module Drawdown {
  import opened Reals

  /** Percentage change from one equity value to another. */
  function Change(from: real, to: real): real
    requires from != 0.0
  {
    (to - from) / from * 100.0
  }

  /** `dd` is the least change from any day to the same or a later day; 0 when there is no day. */
  ghost predicate IsMaxDrawdown(curve: seq<real>, dd: real)
    requires Positive(curve)
  {
    && (forall i, j :: 0 <= i <= j < |curve| ==> dd <= Change(curve[i], curve[j]))
    && if curve == [] then dd == 0.0
       else exists i, j :: 0 <= i <= j < |curve| && dd == Change(curve[i], curve[j])
  }

  lemma HigherBaseFallsMore(low: real, high: real, to: real)
    requires 0.0 < low <= high && to > 0.0
    ensures Change(high, to) <= Change(low, to)
  {
    var a, b := to / high, to / low;
    assert a * high == to == b * low && a > 0.0;
    assert a * low <= a * high;
    assert a <= b;
    ChangeIsRatio(low, to);
    ChangeIsRatio(high, to);
  }

  lemma ChangeIsRatio(from: real, to: real)
    requires from > 0.0
    ensures Change(from, to) == (to / from - 1.0) * 100.0
  {
    Cancel((to - from) / from, to / from - 1.0, from);
  }

  lemma Cancel(x: real, y: real, f: real)
    requires f > 0.0 && x * f == y * f
    ensures x == y
  {
    assert (x - y) * f == 0.0;
  }

  lemma ChangeBounds(from: real, to: real)
    requires from > 0.0 && to > 0.0
    ensures Change(from, to) > -100.0
    ensures from >= to ==> Change(from, to) <= 0.0
    ensures Change(from, from) == 0.0
  {
    ChangeIsRatio(from, to);
    assert to / from > 0.0;
    assert from >= to ==> (to - from) / from <= 0.0;
  }

  /** Comparing a change with a level, the fraction cleared. */
  lemma ChangeAgainst(from: real, to: real, level: real)
    requires from > 0.0
    ensures Change(from, to) <= level <==> (to - from) * 100.0 <= level * from
    ensures Change(from, to) >= level <==> (to - from) * 100.0 >= level * from
  {
    var q := (to - from) / from;
    assert q * from == to - from;
    var change := q * 100.0;
    assert Times(change, from) == (to - from) * 100.0;
    TimesOrder(change, level, from);
    TimesOrder(level, change, from);
  }

  /** The running-peak loop. */
  method MaxDrawdown(curve: seq<real>, initial: real) returns (dd: real)
    requires Positive(curve)
    ensures IsMaxDrawdown(curve, dd)
    ensures -100.0 < dd <= 0.0
  {
    var peak := if |curve| > 0 then curve[0] else initial;
    dd := 0.0;
    ghost var top := 0;
    ghost var from, to := 0, 0;
    if |curve| > 0 { ChangeBounds(curve[0], curve[0]); }
    for j := 0 to |curve|
      invariant |curve| > 0 ==> 0 <= top < |curve| && (top < j || top == 0) && peak == curve[top]
      invariant forall i :: 0 <= i < j ==> curve[i] <= peak
      invariant -100.0 < dd <= 0.0 && (curve == [] ==> dd == 0.0)
      invariant forall i, k :: 0 <= i <= k < j ==> dd <= Change(curve[i], curve[k])
      invariant |curve| > 0 ==> 0 <= from <= to < |curve| && dd == Change(curve[from], curve[to])
    {
      var val := curve[j];
      if val > peak { peak, top := val, j; }
      var fall := Change(peak, val);
      ChangeBounds(peak, val);
      if fall < dd { dd, from, to := fall, top, j; }
      forall i | 0 <= i <= j ensures dd <= Change(curve[i], curve[j]) {
        HigherBaseFallsMore(curve[i], peak, val);
      }
    }
  }
}

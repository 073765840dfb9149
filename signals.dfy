/** cross_above (ast_python.py:14-15) on a pair of aligned series. A bar
    whose value is undefined (pandas NaN) holds None; every comparison with
    an undefined value is false, as comparisons with NaN are. */
module Signals {
  import opened Ast

  type Series = seq<Option<real>>

  /** `series.shift(1)`: each bar takes the previous bar's value; bar 0 is
      undefined. */
  function Shift1(a: Series): (r: Series)
    ensures |r| == |a|
    ensures |a| > 0 ==> r[0] == None
    ensures forall i :: 0 < i < |a| ==> r[i] == a[i - 1]
  {
    if a == [] then [] else [None] + a[..|a| - 1]
  }

  /** Element-wise `x <= y`. */
  function LeSeries(x: Series, y: Series): (r: seq<bool>)
    requires |x| == |y|
    ensures |r| == |x|
    ensures forall i :: 0 <= i < |x| ==> (r[i] <==> x[i].Some? && y[i].Some? && x[i].value <= y[i].value)
  {
    seq(|x|, i requires 0 <= i < |x| => x[i].Some? && y[i].Some? && x[i].value <= y[i].value)
  }

  /** Element-wise `x > y`. */
  function GtSeries(x: Series, y: Series): (r: seq<bool>)
    requires |x| == |y|
    ensures |r| == |x|
    ensures forall i :: 0 <= i < |x| ==> (r[i] <==> x[i].Some? && y[i].Some? && x[i].value > y[i].value)
  {
    seq(|x|, i requires 0 <= i < |x| => x[i].Some? && y[i].Some? && x[i].value > y[i].value)
  }

  /** Element-wise `p & q` on Boolean series. */
  function AndSeries(p: seq<bool>, q: seq<bool>): (r: seq<bool>)
    requires |p| == |q|
    ensures |r| == |p|
    ensures forall i :: 0 <= i < |p| ==> (r[i] <==> p[i] && q[i])
  {
    seq(|p|, i requires 0 <= i < |p| => p[i] && q[i])
  }

  /** `(a.shift(1) <= b.shift(1)) & (a > b)`. */
  function CrossAbove(a: Series, b: Series): (r: seq<bool>)
    requires |a| == |b|
    ensures |r| == |a|
    ensures |a| > 0 ==> !r[0]
  {
    AndSeries(LeSeries(Shift1(a), Shift1(b)), GtSeries(a, b))
  }

  /** `a` is defined and strictly above `b` at bar i. */
  predicate Above(a: Series, b: Series, i: int)
    requires 0 <= i < |a| && |a| == |b|
  {
    a[i].Some? && b[i].Some? && a[i].value > b[i].value
  }

  /** `a` is defined and at or below `b` at bar i. */
  predicate AtOrBelow(a: Series, b: Series, i: int)
    requires 0 <= i < |a| && |a| == |b|
  {
    a[i].Some? && b[i].Some? && a[i].value <= b[i].value
  }

  /** The signal at each bar: never at bar 0; at a later bar exactly when
      `a` was at or below `b` on the bar before and is above it now, both
      values being defined on both bars. */
  lemma CrossAboveAt(a: Series, b: Series, i: nat)
    requires |a| == |b| && i < |a|
    ensures CrossAbove(a, b)[i] <==> i > 0 && AtOrBelow(a, b, i - 1) && Above(a, b, i)
  {
  }

  /** An undefined value on a bar, or on the bar before, silences the
      signal there. */
  lemma UndefinedSilences(a: Series, b: Series, i: nat)
    requires |a| == |b| && i < |a|
    requires a[i].None? || b[i].None? || (i > 0 && (a[i - 1].None? || b[i - 1].None?))
    ensures !CrossAbove(a, b)[i]
  {
    CrossAboveAt(a, b, i);
  }

  /** Two consecutive bars never both signal: after a cross `a` is above
      `b`, so the next bar cannot start from at or below. */
  lemma NoConsecutiveCrosses(a: Series, b: Series, i: nat)
    requires |a| == |b| && i + 1 < |a|
    ensures !(CrossAbove(a, b)[i] && CrossAbove(a, b)[i + 1])
  {
    CrossAboveAt(a, b, i);
    CrossAboveAt(a, b, i + 1);
  }

  /** A series never crosses above itself. */
  lemma NoSelfCross(a: Series, i: nat)
    requires i < |a|
    ensures !CrossAbove(a, a)[i]
  {
    CrossAboveAt(a, a, i);
  }

  /** A cross at bar j means `a` rose past `b`: it was not above at j - 1. */
  lemma CrossIsAnUpwardChange(a: Series, b: Series, j: nat)
    requires |a| == |b| && j < |a| && CrossAbove(a, b)[j]
    ensures j > 0 && !Above(a, b, j - 1) && Above(a, b, j)
  {
    CrossAboveAt(a, b, j);
  }
}

/**
 * Maximum drawdown of the cumulative-return curve: the largest gap between
 * the running maximum of the curve and the curve itself.
 */
module Drawdown {
  import opened Wrappers
  import opened Extrema

  /** pandas `cummax`: entry i is the largest of c[0..i]. */
  function RunningMax(c: seq<real>): (m: seq<real>)
    ensures |m| == |c|
    ensures forall i, j :: 0 <= j <= i < |c| ==> c[j] <= m[i]
    ensures forall i :: 0 <= i < |c| ==> m[i] in c[..i + 1]
  {
    if c == [] then []
    else
      var n := |c| - 1;
      var prev := RunningMax(c[..n]);
      var top := if n == 0 || c[n] > prev[n - 1] then c[n] else prev[n - 1];
      var m := prev + [top];
      assert forall j :: 0 <= j < n ==> c[j] == c[..n][j];
      assert forall i :: 0 <= i < n ==> m[i] == prev[i];
      assert forall j :: 0 <= j <= n ==> c[j] <= top by {
        forall j | 0 <= j < n ensures c[j] <= top {
          assert c[..n][j] <= prev[n - 1];
        }
      }
      assert top in c[..n + 1] by {
        if n > 0 && top == prev[n - 1] {
          assert c[..n][..n] == c[..n];
          assert c[..n + 1] == c[..n] + [c[n]];
        } else {
          assert top == c[..n + 1][n];
        }
      }
      m
  }

  /** `cummax(c) - c`: how far each point lies below the highest point before it. */
  function Drawdowns(c: seq<real>): seq<real>
  {
    var m := RunningMax(c);
    seq(|c|, i requires 0 <= i < |c| => m[i] - c[i])
  }

  /** `(cummax(c) - c).max()`; NaN for an empty curve. */
  function MaxDrawdown(c: seq<real>): (d: Cell)
    ensures d.Num? <==> |c| > 0
  {
    if c == [] then NaN else Num(Max(Drawdowns(c)))
  }

  ghost predicate NonDecreasing(c: seq<real>)
  {
    forall i, j :: 0 <= i <= j < |c| ==> c[i] <= c[j]
  }

  /**
   * The maximum drawdown is the largest fall from an earlier (or the same)
   * point to a later one: every such fall is at most it, and one reaches it.
   */
  lemma MaxDrawdownIsLargestFall(c: seq<real>)
    requires |c| > 0
    ensures forall i, j :: 0 <= j <= i < |c| ==> c[j] - c[i] <= MaxDrawdown(c).value
    ensures exists i, j :: 0 <= j <= i < |c| && c[j] - c[i] == MaxDrawdown(c).value
  {
    var m := RunningMax(c);
    var dd := Drawdowns(c);
    MaxIsGreatest(dd);
    forall i, j | 0 <= j <= i < |c| ensures c[j] - c[i] <= MaxDrawdown(c).value {
      assert dd[i] == m[i] - c[i];
    }
    var i :| 0 <= i < |dd| && dd[i] == Max(dd);
    var j :| 0 <= j <= i && m[i] == c[..i + 1][j];
    assert c[j] - c[i] == MaxDrawdown(c).value;
  }

  /** The maximum drawdown is never negative. */
  lemma MaxDrawdownNonNegative(c: seq<real>)
    requires |c| > 0
    ensures MaxDrawdown(c).value >= 0.0
  {
    MaxDrawdownIsLargestFall(c);
    assert c[0] - c[0] <= MaxDrawdown(c).value;
  }

  /** The maximum drawdown is zero exactly when the curve never falls. */
  lemma MaxDrawdownZeroIffNonDecreasing(c: seq<real>)
    requires |c| > 0
    ensures MaxDrawdown(c).value == 0.0 <==> NonDecreasing(c)
  {
    MaxDrawdownIsLargestFall(c);
    MaxDrawdownNonNegative(c);
  }
}

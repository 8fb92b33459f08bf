/**
 * The strategy-return column: the position held at the close of the
 * previous bar times the price return over the current bar.
 */
module Returns {
  import opened Wrappers
  import opened Strategy

  /**
   * Bar 0 has no strategy return (the shifted position column is NaN there);
   * from bar 1 on, a missing price return stays missing, and otherwise the
   * return is the previous bar's position times the price return.
   */
  function StrategyReturns(position: seq<int>, priceReturns: seq<Cell>): (r: seq<Cell>)
    requires |position| == |priceReturns|
    ensures |r| == |position|
    ensures |r| > 0 ==> r[0].NaN?
    ensures forall i :: 1 <= i < |r| ==> (r[i].Num? <==> priceReturns[i].Num?)
  {
    seq(|position|, i =>
      if 0 < i < |position| && priceReturns[i].Num?
      then Num(position[i - 1] as real * priceReturns[i].value)
      else NaN)
  }

  /**
   * The return at bar i is fixed by the position of bar i-1 alone: two
   * position columns that agree there give the same return at bar i.
   */
  lemma ReturnDependsOnPreviousPosition(p: seq<int>, q: seq<int>, priceReturns: seq<Cell>, i: nat)
    requires |p| == |q| == |priceReturns| && 1 <= i < |p|
    requires p[i - 1] == q[i - 1]
    ensures StrategyReturns(p, priceReturns)[i] == StrategyReturns(q, priceReturns)[i]
  {
  }

  /**
   * The return at bar i does not depend on the position decided at bar i
   * itself: whatever that position is, the return is the same.
   */
  lemma ReturnIgnoresSameBarPosition(position: seq<int>, priceReturns: seq<Cell>, i: nat, other: int)
    requires |position| == |priceReturns| && i < |position|
    ensures StrategyReturns(position[i := other], priceReturns)[i] == StrategyReturns(position, priceReturns)[i]
  {
  }

  /** Long earns the price return, short earns its negation, flat earns nothing. */
  lemma ReturnFollowsPosition(position: seq<int>, priceReturns: seq<Cell>, i: nat)
    requires |position| == |priceReturns| && 1 <= i < |position| && priceReturns[i].Num?
    requires -1 <= position[i - 1] <= 1
    ensures position[i - 1] == 1 ==> StrategyReturns(position, priceReturns)[i] == priceReturns[i]
    ensures position[i - 1] == -1 ==> StrategyReturns(position, priceReturns)[i] == Num(-priceReturns[i].value)
    ensures position[i - 1] == 0 ==> StrategyReturns(position, priceReturns)[i] == Num(0.0)
  {
  }

  /**
   * Over the position column the scan produces, bars 1..51 earn exactly 0
   * wherever a price return exists: the position held going into them is
   * still flat.
   */
  lemma WarmUpEarnsNothing(close: seq<real>, position: seq<int>, priceReturns: seq<Cell>, i: nat)
    requires |position| == |priceReturns| == |close|
    requires forall j :: 0 <= j < |position| ==> position[j] == PositionAt(close, j)
    requires 1 <= i <= FirstTestedBar && i < |position| && priceReturns[i].Num?
    ensures StrategyReturns(position, priceReturns)[i] == Num(0.0)
  {
    WarmUp(close, i - 1);
  }
}

/** The rolling 50-bar high/low channel over the closing prices. */
module Channel {
  import opened Extrema

  /** Length of the rolling window. */
  const Window: nat := 50

  /**
   * The rolling-maximum column at bar k, over the 50 closes of bars k-49..k
   * (bar k included). Below k = 49 the column holds NaN; those cells are
   * outside the domain here.
   */
  function RollingHigh(close: seq<real>, k: int): real
    requires Window - 1 <= k < |close|
  {
    Max(close[k - Window + 1 .. k + 1])
  }

  /** The rolling-minimum column at bar k, over the closes of bars k-49..k. */
  function RollingLow(close: seq<real>, k: int): real
    requires Window - 1 <= k < |close|
  {
    Min(close[k - Window + 1 .. k + 1])
  }

  /** The rolling high at bar k is the largest of the closes of bars k-49..k. */
  lemma RollingHighIsWindowMax(close: seq<real>, k: int)
    requires Window - 1 <= k < |close|
    ensures forall j :: k - Window < j <= k ==> close[j] <= RollingHigh(close, k)
    ensures exists j :: k - Window < j <= k && close[j] == RollingHigh(close, k)
  {
    var w := close[k - Window + 1 .. k + 1];
    MaxIsGreatest(w);
    assert forall j :: k - Window < j <= k ==> close[j] == w[j - (k - Window + 1)];
    var m :| 0 <= m < |w| && w[m] == Max(w);
    assert close[m + k - Window + 1] == Max(w);
  }

  /** The rolling low at bar k is the smallest of the closes of bars k-49..k. */
  lemma RollingLowIsWindowMin(close: seq<real>, k: int)
    requires Window - 1 <= k < |close|
    ensures forall j :: k - Window < j <= k ==> RollingLow(close, k) <= close[j]
    ensures exists j :: k - Window < j <= k && close[j] == RollingLow(close, k)
  {
    var w := close[k - Window + 1 .. k + 1];
    MinIsLeast(w);
    assert forall j :: k - Window < j <= k ==> close[j] == w[j - (k - Window + 1)];
    var m :| 0 <= m < |w| && w[m] == Min(w);
    assert close[m + k - Window + 1] == Min(w);
  }

  /** The channel's lower bound never exceeds its upper bound. */
  lemma ChannelOrdered(close: seq<real>, k: int)
    requires Window - 1 <= k < |close|
    ensures RollingLow(close, k) <= RollingHigh(close, k)
  {
    RollingHighIsWindowMax(close, k);
    RollingLowIsWindowMin(close, k);
    var j :| k - Window < j <= k && close[j] == RollingLow(close, k);
  }

  /**
   * The bound tested at bar i is the channel stored at bar i-1, which covers
   * bars i-50..i-1 only: a close breaks above it exactly when it is strictly
   * higher than each of the 50 preceding closes.
   */
  lemma BreakAboveIsNewHigh(close: seq<real>, i: int)
    requires Window <= i < |close|
    ensures close[i] > RollingHigh(close, i - 1)
        <==> forall j :: i - Window <= j < i ==> close[i] > close[j]
  {
    RollingHighIsWindowMax(close, i - 1);
    var w :| i - 1 - Window < w <= i - 1 && close[w] == RollingHigh(close, i - 1);
    if forall j :: i - Window <= j < i ==> close[i] > close[j] {
      assert close[i] > close[w];
    }
  }

  /** A close breaks below the tested bound exactly when it is strictly lower than each of the 50 preceding closes. */
  lemma BreakBelowIsNewLow(close: seq<real>, i: int)
    requires Window <= i < |close|
    ensures close[i] < RollingLow(close, i - 1)
        <==> forall j :: i - Window <= j < i ==> close[i] < close[j]
  {
    RollingLowIsWindowMin(close, i - 1);
    var w :| i - 1 - Window < w <= i - 1 && close[w] == RollingLow(close, i - 1);
    if forall j :: i - Window <= j < i ==> close[i] < close[j] {
      assert close[i] < close[w];
    }
  }
}

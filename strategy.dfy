/**
 * The breakout-fading scan: a three-state position (0 flat, 1 long,
 * -1 short) carried bar by bar, with a per-bar signal and position column.
 */
module Strategy {
  import opened Channel

  /** The first bar the scan tests; bars 0..50 stay flat. */
  const FirstTestedBar: nat := 51

  /** The position held after a bar, and the signal written at that bar (0 when none). */
  datatype Transition = Transition(position: int, signal: int)

  /**
   * One step of the scan, given the position carried in, the bar's close and
   * the previous bar's channel. Breakouts are faded: a close above the high
   * goes short, a close below the low goes long; a held position only reacts
   * to the opposite boundary. Comparisons are strict.
   */
  function Step(current: int, price: real, high: real, low: real): Transition
  {
    if current == 0 then
      if price > high then Transition(-1, -1)
      else if price < low then Transition(1, 1)
      else Transition(0, 0)
    else if current == 1 then
      if price > high then Transition(-1, -1) else Transition(1, 0)
    else if current == -1 then
      if price < low then Transition(1, 1) else Transition(-1, 0)
    else Transition(current, 0)
  }

  /** The signal and position columns at bar i, as the scan leaves them. */
  function TransitionAt(close: seq<real>, i: nat): Transition
    requires i < |close|
  {
    if i < FirstTestedBar then Transition(0, 0)
    else Step(TransitionAt(close, i - 1).position, close[i],
              RollingHigh(close, i - 1), RollingLow(close, i - 1))
  }

  function PositionAt(close: seq<real>, i: nat): int
    requires i < |close|
  {
    TransitionAt(close, i).position
  }

  function SignalAt(close: seq<real>, i: nat): int
    requires i < |close|
  {
    TransitionAt(close, i).signal
  }

  /** One unfolding of the scan at a tested bar. */
  lemma TransitionStep(close: seq<real>, i: nat)
    requires FirstTestedBar <= i < |close|
    ensures TransitionAt(close, i)
         == Step(PositionAt(close, i - 1), close[i], RollingHigh(close, i - 1), RollingLow(close, i - 1))
  {
  }

  /**
   * The scan itself: both columns start at 0; each bar from 51 on compares
   * its close with the previous bar's channel, writes a signal when the
   * position changes and always writes the position. Fewer than 52 bars
   * leave both columns all zero. The trade count is the number of non-zero
   * signals, which is the number of position changes.
   */
  method Backtest(close: seq<real>) returns (signal: array<int>, position: array<int>, trades: nat)
    ensures fresh(signal) && fresh(position)
    ensures signal.Length == |close| && position.Length == |close|
    ensures forall i :: 0 <= i < |close| ==> signal[i] == SignalAt(close, i)
    ensures forall i :: 0 <= i < |close| ==> position[i] == PositionAt(close, i)
    ensures trades == TradeCount(signal[..]) == PositionChanges(position[..])
  {
    position := new int[|close|](_ => 0);
    signal := new int[|close|](_ => 0);
    var current := 0;
    var i := FirstTestedBar;
    while i < |close|
      invariant FirstTestedBar <= i
      invariant i - 1 < |close| ==> current == PositionAt(close, i - 1)
      invariant forall j :: 0 <= j < |close| && j < i ==> signal[j] == SignalAt(close, j)
      invariant forall j :: 0 <= j < |close| && j < i ==> position[j] == PositionAt(close, j)
      invariant forall j :: i <= j < |close| ==> signal[j] == 0
    {
      var price := close[i];
      var high := RollingHigh(close, i - 1);
      var low := RollingLow(close, i - 1);
      TransitionStep(close, i);
      var fired := 0;
      if current == 0 {
        if price > high {
          fired, current := -1, -1;
        } else if price < low {
          fired, current := 1, 1;
        }
      } else if current == 1 {
        if price > high {
          fired, current := -1, -1;
        }
      } else if current == -1 {
        if price < low {
          fired, current := 1, 1;
        }
      }
      if fired != 0 {
        signal[i] := fired;
      }
      position[i] := current;
      i := i + 1;
    }
    trades := TradeCount(signal[..]);
    TradeCountIsPositionChanges(close, signal[..], position[..]);
  }

  /** Number of non-zero entries of the signal column. */
  function TradeCount(signal: seq<int>): (n: nat)
    ensures n <= |signal|
    ensures n == 0 <==> forall i :: 0 <= i < |signal| ==> signal[i] == 0
  {
    if signal == [] then 0
    else TradeCount(signal[..|signal| - 1]) + (if signal[|signal| - 1] != 0 then 1 else 0)
  }

  /** Number of bars whose position differs from the previous bar's. */
  function PositionChanges(position: seq<int>): nat
  {
    if |position| <= 1 then 0
    else PositionChanges(position[..|position| - 1])
         + (if position[|position| - 1] != position[|position| - 2] then 1 else 0)
  }

  // ---------------------------------------------------------------------
  // Properties of the scan

  /** Warm-up: bars 0..50 are never tested, bar 50 included although its channel exists. */
  lemma WarmUp(close: seq<real>, i: nat)
    requires i < |close| && i <= Window
    ensures SignalAt(close, i) == 0 && PositionAt(close, i) == 0
  {
  }

  /**
   * From flat: a close above the previous high sells (-1), otherwise a close
   * below the previous low buys (+1), otherwise nothing happens; the new
   * position is the signal.
   */
  lemma FromFlat(close: seq<real>, i: nat)
    requires FirstTestedBar <= i < |close| && PositionAt(close, i - 1) == 0
    ensures SignalAt(close, i) == -1 <==> close[i] > RollingHigh(close, i - 1)
    ensures SignalAt(close, i) == 1 <==> close[i] < RollingLow(close, i - 1)
    ensures SignalAt(close, i) == 0
        <==> RollingLow(close, i - 1) <= close[i] <= RollingHigh(close, i - 1)
    ensures PositionAt(close, i) == SignalAt(close, i)
  {
    ChannelOrdered(close, i - 1);
  }

  /** From long: only a close above the previous high acts, flipping to short; a close below the low never signals again. */
  lemma FromLong(close: seq<real>, i: nat)
    requires FirstTestedBar <= i < |close| && PositionAt(close, i - 1) == 1
    ensures SignalAt(close, i) != 1
    ensures SignalAt(close, i) == -1 <==> close[i] > RollingHigh(close, i - 1)
    ensures PositionAt(close, i) == if close[i] > RollingHigh(close, i - 1) then -1 else 1
  {
  }

  /** From short: only a close below the previous low acts, flipping to long. */
  lemma FromShort(close: seq<real>, i: nat)
    requires FirstTestedBar <= i < |close| && PositionAt(close, i - 1) == -1
    ensures SignalAt(close, i) != -1
    ensures SignalAt(close, i) == 1 <==> close[i] < RollingLow(close, i - 1)
    ensures PositionAt(close, i) == if close[i] < RollingLow(close, i - 1) then 1 else -1
  {
  }

  /** A close equal to either bound triggers nothing, whatever the position. */
  lemma TouchingBoundDoesNothing(close: seq<real>, i: nat)
    requires FirstTestedBar <= i < |close|
    requires close[i] == RollingHigh(close, i - 1) || close[i] == RollingLow(close, i - 1)
    ensures SignalAt(close, i) == 0 && PositionAt(close, i) == PositionAt(close, i - 1)
  {
    ChannelOrdered(close, i - 1);
  }

  /** A step from a position in -1..1 stays in -1..1 and signals -1, 0 or 1. */
  lemma StepInRange(current: int, price: real, high: real, low: real)
    requires -1 <= current <= 1
    ensures -1 <= Step(current, price, high, low).position <= 1
    ensures -1 <= Step(current, price, high, low).signal <= 1
  {
  }

  /** The position is always -1, 0 or 1, and every signal is -1, 0 or 1. */
  lemma {:induction false} PositionInRange(close: seq<real>, i: nat)
    requires i < |close|
    ensures -1 <= PositionAt(close, i) <= 1
    ensures -1 <= SignalAt(close, i) <= 1
  {
    if i >= FirstTestedBar {
      PositionInRange(close, i - 1);
      TransitionStep(close, i);
      StepInRange(PositionAt(close, i - 1), close[i], RollingHigh(close, i - 1), RollingLow(close, i - 1));
    }
  }

  /**
   * From bar 1 on, a signal is written exactly when the position changes,
   * and a written signal is the new position.
   */
  lemma SignalMarksChange(close: seq<real>, i: nat)
    requires 1 <= i < |close|
    ensures SignalAt(close, i) != 0 <==> PositionAt(close, i) != PositionAt(close, i - 1)
    ensures SignalAt(close, i) != 0 ==> SignalAt(close, i) == PositionAt(close, i)
  {
  }

  /** Once a position is taken the scan never returns to flat. */
  lemma {:induction false} NeverFlatAgain(close: seq<real>, i: nat, j: nat)
    requires i <= j < |close| && PositionAt(close, i) != 0
    ensures PositionAt(close, j) != 0
  {
    if i < j {
      NeverFlatAgain(close, i, j - 1);
      TransitionStep(close, j);
    }
  }

  /** Bars without a signal keep the position unchanged. */
  lemma {:induction false} QuietBarsKeepPosition(close: seq<real>, i: nat, j: nat)
    requires i <= j < |close|
    requires forall k :: i < k <= j ==> SignalAt(close, k) == 0
    ensures PositionAt(close, j) == PositionAt(close, i)
  {
    if i < j {
      QuietBarsKeepPosition(close, i, j - 1);
      SignalMarksChange(close, j);
    }
  }

  /** Consecutive non-zero signals strictly alternate in sign. */
  lemma SignalsAlternate(close: seq<real>, i: nat, j: nat)
    requires i < j < |close|
    requires SignalAt(close, i) != 0 && SignalAt(close, j) != 0
    requires forall k :: i < k < j ==> SignalAt(close, k) == 0
    ensures SignalAt(close, j) == -SignalAt(close, i)
  {
    SignalMarksChange(close, i);
    PositionInRange(close, i);
    QuietBarsKeepPosition(close, i, j - 1);
  }

  /** The trade count equals the number of position changes. */
  lemma {:induction false} TradeCountIsPositionChanges(close: seq<real>, signal: seq<int>, position: seq<int>)
    requires |signal| == |position| <= |close|
    requires forall i :: 0 <= i < |signal| ==> signal[i] == SignalAt(close, i)
    requires forall i :: 0 <= i < |position| ==> position[i] == PositionAt(close, i)
    ensures TradeCount(signal) == PositionChanges(position)
  {
    var n := |signal|;
    if n == 1 {
      assert signal[..0] == [];
    } else if n > 1 {
      TradeCountIsPositionChanges(close, signal[..n - 1], position[..n - 1]);
      SignalMarksChange(close, n - 1);
    }
  }

  /** A series of constant closes never trades. */
  lemma {:induction false} ConstantSeriesNeverTrades(close: seq<real>, i: nat)
    requires i < |close|
    requires forall j :: 0 <= j < |close| ==> close[j] == close[0]
    ensures SignalAt(close, i) == 0 && PositionAt(close, i) == 0
  {
    if i >= FirstTestedBar {
      ConstantSeriesNeverTrades(close, i - 1);
      RollingHighIsWindowMax(close, i - 1);
      var w :| i - 1 - Window < w <= i - 1 && close[w] == RollingHigh(close, i - 1);
      TouchingBoundDoesNothing(close, i);
    }
  }
}

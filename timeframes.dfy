/**
 * Timeframe labels: cutting the label out of a data file name, and the
 * table of bars per year used to annualise.
 */
module Timeframes {
  import opened Wrappers

  datatype Error = UnsupportedTimeframe(name: string)

  // ---------------------------------------------------------------------
  // Label parsing

  /** Python's `str.find` for one character: the lowest index holding c, or -1. */
  function Find(s: string, c: char): (r: int)
    ensures -1 <= r < |s|
    ensures r == -1 <==> c !in s
    ensures r >= 0 ==> s[r] == c && c !in s[..r]
  {
    if |s| == 0 then -1
    else if s[0] == c then 0
    else
      var k := Find(s[1..], c);
      assert s == [s[0]] + s[1..];
      if k == -1 then -1
      else
        assert s[..k + 1] == [s[0]] + s[1..][..k];
        k + 1
  }

  /** Python's normalisation of a slice bound: a negative bound counts back from the end, then the bound is clipped to 0..len. */
  function SliceBound(i: int, len: nat): nat
  {
    if i < 0 then (if i + len < 0 then 0 else i + len)
    else if i > len then len
    else i
  }

  /** Python's `s[start:stop]`. */
  function Slice(s: string, start: int, stop: int): string
  {
    var a, b := SliceBound(start, |s|), SliceBound(stop, |s|);
    if a < b then s[a..b] else []
  }

  /** The label cut out of a file name: from just after the first `_` up to the first `.`. */
  function TimeframeOf(fileName: string): string
  {
    Slice(fileName, Find(fileName, '_') + 1, Find(fileName, '.'))
  }

  /** The first occurrence of c in a + [c] + b, when a does not contain c, is at |a|. */
  lemma FindAfterPrefix(a: string, c: char, b: string)
    requires c !in a
    ensures Find(a + [c] + b, c) == |a|
  {
    var s := a + [c] + b;
    var r := Find(s, c);
    assert s[|a|] == c;
  }

  /**
   * A file named PAIR_TF.csv, where PAIR holds neither `_` nor `.` and TF
   * holds no `.`, yields the label TF.
   */
  lemma {:induction false} TimeframeOfStandardName(pair: string, tf: string)
    requires '_' !in pair && '.' !in pair && '.' !in tf
    ensures TimeframeOf(pair + "_" + tf + ".csv") == tf
  {
    var name := pair + "_" + tf + ".csv";
    assert name == pair + ['_'] + (tf + ".csv");
    FindAfterPrefix(pair, '_', tf + ".csv");
    assert name == (pair + "_" + tf) + ['.'] + "csv";
    assert '.' !in pair + "_" + tf;
    FindAfterPrefix(pair + "_" + tf, '.', "csv");
    assert name[|pair| + 1 .. |pair| + 1 + |tf|] == tf;
  }

  /** One of the data files the backtest runs on. */
  lemma TimeframeOfH4File()
    ensures TimeframeOf("AUDNZD_H4.csv") == "H4"
  {
    var pair, tf := "AUDNZD", "H4";
    assert '_' !in pair && '.' !in pair && '.' !in tf;
    TimeframeOfStandardName(pair, tf);
    assert pair + "_" + tf + ".csv" == "AUDNZD_H4.csv";
  }

  /** Another data file, with a three-character label. */
  lemma TimeframeOfM15File()
    ensures TimeframeOf("EURUSD_M15.csv") == "M15"
  {
    var pair, tf := "EURUSD", "M15";
    assert '_' !in pair && '.' !in pair && '.' !in tf;
    TimeframeOfStandardName(pair, tf);
    assert pair + "_" + tf + ".csv" == "EURUSD_M15.csv";
  }

  /**
   * A name with no `.` at all: `find` returns -1, which Python reads as
   * "one before the end", so the last character of the label is lost.
   */
  lemma {:induction false} TimeframeOfNameWithoutDot(pair: string, tf: string)
    requires '_' !in pair && '.' !in pair && '.' !in tf && |tf| > 0
    ensures TimeframeOf(pair + "_" + tf) == tf[..|tf| - 1]
  {
    var name := pair + "_" + tf;
    assert name == pair + ['_'] + tf;
    FindAfterPrefix(pair, '_', tf);
    assert '.' !in name;
    assert name[|pair| + 1 .. |name| - 1] == tf[..|tf| - 1];
  }

  // ---------------------------------------------------------------------
  // Annual multiplier

  /** The supported labels, from the shortest bar to the longest. */
  const Supported: seq<string> := ["M1", "M5", "M15", "M30", "H1", "H4", "D1", "W1", "MN"]

  /** Bars per day for each supported label. */
  const PeriodsPerDay: map<string, real> := map[
    "M1" := 24.0 * 60.0,
    "M5" := 24.0 * 12.0,
    "M15" := 24.0 * 4.0,
    "M30" := 24.0 * 2.0,
    "H1" := 24.0,
    "H4" := 6.0,
    "D1" := 1.0,
    "W1" := 1.0 / 7.0,
    "MN" := 1.0 / 30.0
  ]

  /** Trading days per year. */
  const TradingDays: real := 252.0

  /** Bars per year for a label: 252 trading days times the bars per day, or an error for an unknown label. */
  function AnnualMultiplier(timeframe: string): (r: Result<real, Error>)
    ensures r.Ok? <==> timeframe in Supported
    ensures r.Err? ==> r.error == UnsupportedTimeframe(timeframe)
    ensures r.Ok? ==> r.value > 0.0
  {
    if timeframe !in PeriodsPerDay then Err(UnsupportedTimeframe(timeframe))
    else Ok(TradingDays * PeriodsPerDay[timeframe])
  }

  /** Minutes in one unit of a label's leading letter. */
  function UnitMinutes(unit: char): nat
  {
    match unit
    case 'M' => 1
    case 'H' => 60
    case 'D' => 24 * 60
    case 'W' => 7 * 24 * 60
    case _ => 0
  }

  /** The value of a string of decimal digits. */
  function DecimalValue(digits: string): nat
  {
    if digits == [] then 0
    else
      var d := digits[|digits| - 1];
      DecimalValue(digits[..|digits| - 1]) * 10 + (if '0' <= d <= '9' then d as nat - '0' as nat else 0)
  }

  /**
   * Length of one bar in minutes, read off the label itself: a unit letter
   * followed by a count, except "MN", a 30-day month.
   */
  function BarMinutes(tf: string): nat
  {
    if tf == "MN" then 30 * 24 * 60
    else if |tf| < 2 then 0
    else UnitMinutes(tf[0]) * DecimalValue(tf[1..])
  }

  /** For every supported label the multiplier is the number of bars in 252 days of 1440 minutes. */
  lemma AnnualMultiplierIsBarsPerYear(tf: string)
    requires tf in Supported
    ensures BarMinutes(tf) > 0
    ensures AnnualMultiplier(tf) == Ok(TradingDays * 1440.0 / BarMinutes(tf) as real)
  {
    if tf == "M15" {
      assert tf[1..] == "15" && "15"[..1] == "1";
      assert DecimalValue("1") == 1 && DecimalValue("15") == 15;
      assert BarMinutes(tf) == 15;
    } else if tf == "M30" {
      assert tf[1..] == "30" && "30"[..1] == "3";
      assert DecimalValue("3") == 3 && DecimalValue("30") == 30;
      assert BarMinutes(tf) == 30;
    } else if tf != "MN" {
      assert tf[1..] == [tf[1]];
      assert DecimalValue(tf[1..]) == tf[1] as nat - '0' as nat;
    }
  }

  /** The three labels the data files use most. */
  lemma AnnualMultiplierExamples()
    ensures AnnualMultiplier("H1") == Ok(6048.0)
    ensures AnnualMultiplier("H4") == Ok(1512.0)
    ensures AnnualMultiplier("M15") == Ok(24192.0)
    ensures AnnualMultiplier("M2").Err?
  {
  }

  /** The multiplier strictly decreases along the labels, from M1 to MN. */
  lemma AnnualMultiplierDecreasing(i: int, j: int)
    requires 0 <= i < j < |Supported|
    ensures AnnualMultiplier(Supported[i]).value > AnnualMultiplier(Supported[j]).value
  {
  }
}

/** Largest and smallest element of a non-empty sequence of prices. */
module Extrema {

  function Max(s: seq<real>): real
    requires |s| > 0
  {
    if |s| == 1 then s[0]
    else
      var rest := Max(s[1..]);
      if s[0] > rest then s[0] else rest
  }

  function Min(s: seq<real>): real
    requires |s| > 0
  {
    if |s| == 1 then s[0]
    else
      var rest := Min(s[1..]);
      if s[0] < rest then s[0] else rest
  }

  /** Max(s) is an element of s and no element exceeds it. */
  lemma {:induction false} MaxIsGreatest(s: seq<real>)
    requires |s| > 0
    ensures forall i :: 0 <= i < |s| ==> s[i] <= Max(s)
    ensures exists i :: 0 <= i < |s| && s[i] == Max(s)
  {
    if |s| == 1 {
      assert s[0] == Max(s);
    } else {
      MaxIsGreatest(s[1..]);
      var k :| 0 <= k < |s| - 1 && s[1..][k] == Max(s[1..]);
      assert s[k + 1] == Max(s[1..]);
      assert s[0] == Max(s) || s[k + 1] == Max(s);
      forall i | 1 <= i < |s| ensures s[i] <= Max(s) {
        assert s[i] == s[1..][i - 1];
      }
    }
  }

  /** Min(s) is an element of s and no element is below it. */
  lemma {:induction false} MinIsLeast(s: seq<real>)
    requires |s| > 0
    ensures forall i :: 0 <= i < |s| ==> Min(s) <= s[i]
    ensures exists i :: 0 <= i < |s| && s[i] == Min(s)
  {
    if |s| == 1 {
      assert s[0] == Min(s);
    } else {
      MinIsLeast(s[1..]);
      var k :| 0 <= k < |s| - 1 && s[1..][k] == Min(s[1..]);
      assert s[k + 1] == Min(s[1..]);
      assert s[0] == Min(s) || s[k + 1] == Min(s);
      forall i | 1 <= i < |s| ensures Min(s) <= s[i] {
        assert s[i] == s[1..][i - 1];
      }
    }
  }
}

/** Score aggregation: a flushed target's score is the arithmetic mean of its sightings. */
module Scores {

  /** Sum of the scores, added left to right as `sum()` does. */
  function Sum(s: seq<real>): real
  {
    if |s| == 0 then 0.0 else Sum(s[..|s| - 1]) + s[|s| - 1]
  }

  function Mean(s: seq<real>): real
    requires |s| > 0
  {
    Sum(s) / (|s| as real)
  }

  lemma {:induction false} SumBounds(s: seq<real>, lo: real, hi: real)
    requires forall k :: 0 <= k < |s| ==> lo <= s[k] <= hi
    ensures (|s| as real) * lo <= Sum(s) <= (|s| as real) * hi
  {
    if |s| > 0 {
      var init := s[..|s| - 1];
      SumBounds(init, lo, hi);
      assert (|s| as real) * lo == (|init| as real) * lo + lo;
      assert (|s| as real) * hi == (|init| as real) * hi + hi;
    }
  }

  lemma {:induction false} SumAbove(s: seq<real>, t: real)
    requires |s| > 0
    requires forall k :: 0 <= k < |s| ==> s[k] > t
    ensures Sum(s) > (|s| as real) * t
  {
    var init := s[..|s| - 1];
    if |init| > 0 {
      SumAbove(init, t);
    }
    assert (|s| as real) * t == (|init| as real) * t + t;
  }

  /** The mean lies between the smallest and the largest score. */
  lemma MeanBetween(s: seq<real>, lo: real, hi: real)
    requires |s| > 0
    requires forall k :: 0 <= k < |s| ==> lo <= s[k] <= hi
    ensures lo <= Mean(s) <= hi
  {
    SumBounds(s, lo, hi);
    var n := |s| as real;
    assert Sum(s) / n >= lo by {
      assert Sum(s) >= n * lo;
    }
    assert Sum(s) / n <= hi by {
      assert Sum(s) <= n * hi;
    }
  }

  /** If every sighting cleared the threshold, so does the mean. */
  lemma MeanAbove(s: seq<real>, t: real)
    requires |s| > 0
    requires forall k :: 0 <= k < |s| ==> s[k] > t
    ensures Mean(s) > t
  {
    SumAbove(s, t);
    var n := |s| as real;
    assert Sum(s) / n > t by {
      assert Sum(s) > n * t;
    }
  }
}

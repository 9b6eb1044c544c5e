/**
 The part of System.Random the game relies on: `Next(minValue, maxValue)`.

 The generator's choice is not modelled; instead the caller supplies the raw
 sample `u`, so every draw the real generator can make is some `u`.
 */
module SystemRandom {
  import opened Wrappers

  /**
   Whether `Next(lo, hi)` can return `v`: the upper bound is exclusive,
   except that `Next(lo, lo)` returns `lo`.
   */
  predicate CanReturn(lo: int, hi: int, v: int) {
    if lo == hi then v == lo else lo <= v < hi
  }

  /**
   `Next(lo, hi)` with sample `u`. `None` stands for the
   ArgumentOutOfRangeException thrown when `hi < lo`.
   */
  function Next(lo: int, hi: int, u: nat): (r: Option<int>)
    ensures r.Some? <==> lo <= hi
    ensures r.Some? ==> CanReturn(lo, hi, r.value)
  {
    if hi < lo then None
    else if hi == lo then Some(lo)
    else Some(lo + u % (hi - lo))
  }

  /** No value that `Next(lo, hi)` may return is out of reach of the model. */
  lemma NextCoversRange(lo: int, hi: int, v: int)
    requires CanReturn(lo, hi, v)
    ensures exists u: nat :: Next(lo, hi, u) == Some(v)
  {
    if lo == hi {
      assert Next(lo, hi, 0) == Some(v);
    } else {
      var u: nat := v - lo;
      assert Next(lo, hi, u) == Some(v);
    }
  }
}

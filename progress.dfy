/** The progress figure of the header: days logged as a percentage of the target. */
module Header {

  /** Progress of a habit with `days` logged days and goal `target`, before display rounding:
      0 for a target of zero or less, otherwise the ratio times 100, cut at 100. */
  function Progress(days: nat, target: int): (p: real)
    ensures 0.0 <= p <= 100.0
  {
    if target <= 0 then 0.0
    else
      var ratio := (days as real / target as real) * 100.0;
      if ratio > 100.0 then 100.0 else ratio
  }

  /** Below the target the figure is exact: progress times target is 100 times the days. */
  lemma ProgressBelowTarget(days: nat, target: int)
    requires 0 < target && days <= target
    ensures Progress(days, target) * target as real == days as real * 100.0
  {
    var q := days as real / target as real;
    assert q * target as real == days as real;
  }

  /** With a positive target the figure is 100 exactly when the target is reached. */
  lemma ProgressFull(days: nat, target: int)
    requires 0 < target
    ensures Progress(days, target) == 100.0 <==> days >= target
  {
    var d, t := days as real, target as real;
    var q := d / t;
    assert q * t == d;
    assert (q - 1.0) * t == d - t;
    SignOfProduct(q - 1.0, t);
  }

  /** A product with a positive factor has the sign of the other factor. */
  lemma SignOfProduct(x: real, t: real)
    requires t > 0.0
    ensures x * t >= 0.0 <==> x >= 0.0
  {
  }

  /** Logging more days never lowers the figure. */
  lemma ProgressMonotone(d1: nat, d2: nat, target: int)
    requires d1 <= d2
    ensures Progress(d1, target) <= Progress(d2, target)
  {
    if target > 0 {
      var t := target as real;
      assert (d1 as real / t) * t <= (d2 as real / t) * t;
      assert d1 as real / t <= d2 as real / t;
    }
  }

  /** A target of 10: no days give 0, five days 50, fifteen days 100. */
  lemma ProgressExamples()
    ensures Progress(0, 10) == 0.0
    ensures Progress(5, 10) == 50.0
    ensures Progress(15, 10) == 100.0
  {
  }
}

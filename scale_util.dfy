/** The clamping arithmetic of `ScaleUtil` (index.ts:11-24): a progress value in [0,1]
    is split into `n` equal parts and `DivideScale` gives how far part `i` is done. */
module ScaleUtil {

  /** Progress past the start `i/n` of part `i`, never negative (`Math.max(0, scale - i / n)`). */
  function MaxScale(scale: real, i: real, n: real): (r: real)
    requires n > 0.0
    ensures r >= 0.0 && r >= scale - i / n
    ensures r == 0.0 || r == scale - i / n
  {
    if scale - i / n > 0.0 then scale - i / n else 0.0
  }

  /** Fraction of part `i` completed (`Math.min(1 / n, maxScale) * n`). */
  function DivideScale(scale: real, i: real, n: real): (r: real)
    requires n > 0.0
    ensures 0.0 <= r <= 1.0
    ensures r == 0.0 <==> scale <= i / n
    ensures r == 1.0 <==> scale >= (i + 1.0) / n
  {
    var m := MaxScale(scale, i, n);
    var lo := if 1.0 / n < m then 1.0 / n else m;
    assert (i + 1.0) / n == i / n + 1.0 / n;
    assert lo * n == 1.0 <==> lo == 1.0 / n;
    lo * n
  }

  /** Inside part `i` the result grows linearly, from 0 at `i/n` to 1 at `(i+1)/n`. */
  lemma DivideScaleLinear(scale: real, i: real, n: real)
    requires n > 0.0
    requires i / n <= scale <= (i + 1.0) / n
    ensures DivideScale(scale, i, n) == (scale - i / n) * n == scale * n - i
  {
    assert (i + 1.0) / n == i / n + 1.0 / n;
    assert (scale - i / n) * n == scale * n - i;
  }

  /** More overall progress never means less progress within a part. */
  lemma DivideScaleMonotone(s1: real, s2: real, i: real, n: real)
    requires n > 0.0
    requires s1 <= s2
    ensures DivideScale(s1, i, n) <= DivideScale(s2, i, n)
  {
    if i / n < s1 && s2 < (i + 1.0) / n {
      DivideScaleLinear(s1, i, n);
      DivideScaleLinear(s2, i, n);
      MulMonotone(s1 - i / n, s2 - i / n, n);
      assert (s1 - i / n) * n <= (s2 - i / n) * n;
      assert DivideScale(s1, i, n) == (s1 - i / n) * n;
      assert DivideScale(s2, i, n) == (s2 - i / n) * n;
      var d1, d2 := DivideScale(s1, i, n), DivideScale(s2, i, n);
      assert d1 <= d2;
    }
  }

  lemma MulMonotone(a: real, b: real, n: real)
    requires a <= b && n > 0.0
    ensures a * n <= b * n
  {
  }
}

/**
 * What a colour range computes: between two neighbouring anchors the
 * colour is their mix, the ends of the range are the first and last
 * anchors, values outside the range are clamped or wrapped, and a lookup
 * reads the cache entry of the step the value falls in.
 */
module GradientFacts {
  import opened Wrappers
  import opened Palette
  import opened Gradient

  // ---- Arithmetic the proofs share ----

  lemma TruncShift(x: real, k: nat)
    requires x >= 0.0
    ensures Trunc(x + k as real) == Trunc(x) + k
  {}

  lemma DivMono(a: real, b: real, d: real)
    requires a <= b && d > 0.0
    ensures a / d <= b / d
  {}

  lemma DivAdd(a: real, b: real, d: real)
    requires d > 0.0
    ensures (a + b) / d == a / d + b / d
  {}

  lemma ModSmall(v: int, k: int)
    requires 0 <= v < k
    ensures v % k == v
  {}

  lemma MulAtLeast(a: int, k: int)
    requires a >= 1 && k > 0
    ensures a * k >= k
  {}

  lemma ModPeriod(v: int, k: int)
    requires k > 0
    ensures (v + k) % k == v % k
  {
    var q1, m1 := (v + k) / k, (v + k) % k;
    var q2, m2 := v / k, v % k;
    var d := q1 - q2 - 1;
    assert d * k == m2 - m1;
    if d >= 1 {
      MulAtLeast(d, k);
    } else if d <= -1 {
      MulAtLeast(-d, k);
      assert false;
    }
  }

  /** The number of steps in the whole range is `stepMax`, and the last sample is `maxAmount`. */
  lemma StepsCoverRange(r: ColourRange)
    requires r.Shaped()
    ensures r.amountDiff / r.stepSize == r.stepMax as real
    ensures r.Sample(r.stepMax) == r.maxAmount
  {
    DivDiv(r.amountDiff, r.stepMax as real);
  }

  lemma MulNonPos(a: real, b: real)
    requires a >= 0.0 && b <= 0.0
    ensures a * b <= 0.0
  {}

  lemma MulAtLeastOne(a: real, b: real)
    requires a >= 0.0 && b >= 1.0
    ensures a * b >= a
  {}

  lemma Cancel(k: real, d: real, m: real)
    requires d > 0.0 && m > 0.0
    ensures (k * d / m) / d == k / m
    ensures m * (k / m) == k
  {}

  // ---- CalculateColour ----

  /** The colour is the mix of the base and mix anchors with the clamped ratio. */
  lemma Calculated(r: ColourRange, n: real, base: nat, mix: nat)
    requires r.Shaped() && base == r.BaseIndex(r.IndexF(n)) && mix == r.MixIndex(r.IndexF(n))
    ensures r.CalculateColour(n) == MixAnchors(r.colours[base], r.colours[mix], Ratio(r.IndexF(n) - base as real))
  {}

  /**
   * Between anchors `k` and `k + 1` the colour is their mix, weighted by
   * how far past anchor `k` the value lies; this holds in both modes.
   */
  lemma BetweenAnchors(r: ColourRange, n: real, k: nat)
    requires r.Shaped() && k + 1 < |r.colours|
    requires k as real <= r.IndexF(n) < (k + 1) as real
    ensures r.CalculateColour(n) == MixAnchors(r.colours[k], r.colours[k + 1], r.IndexF(n) - k as real)
  {
    assert Trunc(r.IndexF(n)) == k;
    ModSmall(k, |r.colours|);
    ModSmall(k + 1, |r.colours|);
    Calculated(r, n, k, k + 1);
  }

  /** At an anchor's own position the colour is that anchor, truncated. */
  lemma AtAnchor(r: ColourRange, n: real, k: nat)
    requires r.Shaped() && k < |r.colours| && r.IndexF(n) == k as real
    ensures r.CalculateColour(n) == TruncAnchor(r.colours[k])
  {
    TruncWhole(k);
    ModSmall(k, |r.colours|);
    var mix := r.MixIndex(r.IndexF(n));
    Calculated(r, n, k, mix);
    MixBounds(r.colours[k], r.colours[mix], 0.0);
  }

  /**
   * With no offset, anchor `k` sits at `minAmount + k * amountDiff / (len - 1)`:
   * the anchors are spread evenly over the range.
   */
  lemma AnchorsEvenlySpread(r: ColourRange, k: nat)
    requires r.Shaped() && r.offset == 0.0 && 2 <= |r.colours| && k < |r.colours|
    ensures r.CalculateColour(r.minAmount + k as real * r.amountDiff / (|r.colours| - 1) as real)
         == TruncAnchor(r.colours[k])
  {
    var m := (|r.colours| - 1) as real;
    var n := r.minAmount + k as real * r.amountDiff / m;
    Cancel(k as real, r.amountDiff, m);
    assert n + r.offset - r.minAmount == k as real * r.amountDiff / m;
    assert r.IndexF(n) == m * (k as real / m);
    AtAnchor(r, n, k);
  }

  /** With no offset, the range starts at the first anchor and ends at the last. */
  lemma Endpoints(r: ColourRange)
    requires r.Shaped() && r.offset == 0.0
    ensures r.CalculateColour(r.minAmount) == TruncAnchor(r.colours[0])
    ensures r.CalculateColour(r.maxAmount) == TruncAnchor(r.colours[|r.colours| - 1])
  {
    assert r.IndexF(r.minAmount) == 0.0;
    AtAnchor(r, r.minAmount, 0);
    assert (r.maxAmount + 0.0 - r.minAmount) / r.amountDiff == 1.0;
    assert r.IndexF(r.maxAmount) == (|r.colours| - 1) as real;
    AtAnchor(r, r.maxAmount, |r.colours| - 1);
  }

  /** Outside loop mode, values before the range read the first anchor. */
  lemma ClampedBelow(r: ColourRange, n: real)
    requires r.Shaped() && !r.loop && n + r.offset <= r.minAmount
    ensures r.CalculateColour(n) == TruncAnchor(r.colours[0])
  {
    var f := r.IndexF(n);
    DivMono(n + r.offset - r.minAmount, 0.0, r.amountDiff);
    MulNonPos((|r.colours| - 1) as real, (n + r.offset - r.minAmount) / r.amountDiff);
    assert f <= 0.0;
    var mix := r.MixIndex(f);
    Calculated(r, n, 0, mix);
    MixBounds(r.colours[0], r.colours[mix], 0.0);
  }

  /** Outside loop mode, values past the range read the last anchor. */
  lemma ClampedAbove(r: ColourRange, n: real)
    requires r.Shaped() && !r.loop && n + r.offset >= r.maxAmount
    ensures r.CalculateColour(n) == TruncAnchor(r.colours[|r.colours| - 1])
  {
    var m := |r.colours| - 1;
    var f := r.IndexF(n);
    DivMono(r.amountDiff, n + r.offset - r.minAmount, r.amountDiff);
    MulAtLeastOne(m as real, (n + r.offset - r.minAmount) / r.amountDiff);
    assert f >= m as real;
    Calculated(r, n, m, m);
    MixBounds(r.colours[m], r.colours[m], Ratio(f - m as real));
  }

  /** In loop mode, past the last anchor the colour mixes the last anchor toward the first. */
  lemma LoopWrapsToFirst(r: ColourRange, n: real)
    requires r.Shaped() && r.loop
    requires (|r.colours| - 1) as real <= r.IndexF(n) < |r.colours| as real
    ensures r.CalculateColour(n)
         == MixAnchors(r.colours[|r.colours| - 1], r.colours[0], r.IndexF(n) - (|r.colours| - 1) as real)
  {
    var m := |r.colours| - 1;
    assert Trunc(r.IndexF(n)) == m;
    ModSmall(m, |r.colours|);
    ModSmall(0, |r.colours|);
    ModPeriod(0, |r.colours|);
    Calculated(r, n, m, 0);
  }

  // ---- The cache and Get ----

  /** With no offset, the first cache entry is the first anchor and the last entry the last anchor. */
  lemma CacheEndpoints(r: ColourRange)
    requires r.Valid() && r.offset == 0.0
    ensures r.cache[0] == TruncAnchor(r.colours[0])
    ensures r.cache[r.stepMax] == TruncAnchor(r.colours[|r.colours| - 1])
  {
    StepsCoverRange(r);
    assert r.Sample(0) == r.minAmount;
    Endpoints(r);
  }

  /** When every anchor and the background are in [0, 255], so is every colour read. */
  lemma GetInByteRange(r: ColourRange, n: real)
    requires r.Valid() && AnchorsInRange(r.colours)
    requires r.background.Some? ==> InByteRange(r.background.value)
    ensures InByteRange(r.Get(n))
  {
    var c := r.Get(n);
    if !(r.background.Some? && n == 0.0) {
      var i :| 0 <= i < |r.cache| && r.cache[i] == c;
      assert c == r.CalculateColour(r.Sample(i));
    }
  }

  /** Within the range, a lookup reads the cache entry of the step the value falls in, in both modes. */
  lemma GetInsideRange(r: ColourRange, n: real)
    requires r.Valid() && r.minAmount <= n <= r.maxAmount
    requires !(r.background.Some? && n == 0.0)
    ensures 0 <= r.ValueIndex(n) <= r.stepMax
    ensures r.Get(n) == r.cache[r.ValueIndex(n)]
  {
    StepsCoverRange(r);
    DivMono(0.0, n - r.minAmount, r.stepSize);
    DivMono(n - r.minAmount, r.amountDiff, r.stepSize);
    var v := r.ValueIndex(n);
    assert v <= r.stepMax;
    if r.loop && v != r.stepMax {
      ModSmall(v, r.stepMax);
    }
  }

  /** Outside loop mode, values before the range read the first entry and values past it the last. */
  lemma GetClamped(r: ColourRange, n: real)
    requires r.Valid() && !r.loop
    requires !(r.background.Some? && n == 0.0)
    ensures n <= r.minAmount ==> r.Get(n) == r.cache[0]
    ensures n >= r.maxAmount ==> r.Get(n) == r.cache[r.stepMax]
  {
    IndexOutside(r, n);
  }

  /**
   * In loop mode a lookup repeats with period `amountDiff`, except at the
   * steps that are multiples of `stepMax`: step `stepMax` itself reads the
   * last entry rather than wrapping to the first.
   */
  lemma GetLoopPeriodic(r: ColourRange, n: real)
    requires r.Valid() && r.loop && n >= r.minAmount
    requires r.ValueIndex(n) % r.stepMax != 0
    requires r.background.Some? ==> n != 0.0 && n + r.amountDiff != 0.0
    ensures r.Get(n + r.amountDiff) == r.Get(n)
  {
    var v := r.ValueIndex(n);
    IndexShift(r, n);
    ModSmall(0, r.stepMax);
    ModPeriod(0, r.stepMax);
    assert v != 0 && v != r.stepMax;
    assert r.Get(n) == r.cache[v % r.stepMax];
    assert r.Get(n + r.amountDiff) == r.cache[(v + r.stepMax) % r.stepMax];
    ModPeriod(v, r.stepMax);
  }

  /** One whole range further on is `stepMax` steps further on. */
  lemma IndexShift(r: ColourRange, n: real)
    requires r.Shaped() && n >= r.minAmount
    ensures r.ValueIndex(n + r.amountDiff) == r.ValueIndex(n) + r.stepMax
  {
    StepsCoverRange(r);
    DivMono(0.0, n - r.minAmount, r.stepSize);
    DivAdd(n - r.minAmount, r.amountDiff, r.stepSize);
    assert (n + r.amountDiff - r.minAmount) / r.stepSize == (n - r.minAmount) / r.stepSize + r.stepMax as real;
    TruncShift((n - r.minAmount) / r.stepSize, r.stepMax);
  }

  /** In loop mode the end of the range reads the last entry, and one step further wraps to entry 1. */
  lemma GetLoopLastEntry(r: ColourRange)
    requires r.Valid() && r.loop
    requires r.background.Some? ==> r.maxAmount != 0.0 && r.maxAmount + r.stepSize != 0.0
    ensures r.Get(r.maxAmount) == r.cache[r.stepMax]
    ensures r.Get(r.maxAmount + r.stepSize) == r.cache[1]
  {
    LastIndices(r);
    ModPeriod(1, r.stepMax);
    ModSmall(1, r.stepMax);
  }

  lemma LastIndices(r: ColourRange)
    requires r.Shaped()
    ensures r.ValueIndex(r.maxAmount) == r.stepMax
    ensures r.ValueIndex(r.maxAmount + r.stepSize) == r.stepMax + 1
  {
    StepsCoverRange(r);
    assert r.stepSize > 0.0;
    assert (r.maxAmount - r.minAmount) / r.stepSize == r.stepMax as real;
    TruncWhole(r.stepMax);
    DivAdd(r.amountDiff, r.stepSize, r.stepSize);
    assert (r.maxAmount + r.stepSize - r.minAmount) / r.stepSize == (r.stepMax + 1) as real;
    TruncWhole(r.stepMax + 1);
  }

  /** Before the range the step is at most 0; past it, at least `stepMax`. */
  lemma IndexOutside(r: ColourRange, n: real)
    requires r.Shaped()
    ensures n <= r.minAmount ==> r.ValueIndex(n) <= 0
    ensures n >= r.maxAmount ==> r.ValueIndex(n) >= r.stepMax
  {
    StepsCoverRange(r);
    if n <= r.minAmount {
      DivMono(n - r.minAmount, 0.0, r.stepSize);
    }
    if n >= r.maxAmount {
      DivMono(r.amountDiff, n - r.minAmount, r.stepSize);
    }
  }
}

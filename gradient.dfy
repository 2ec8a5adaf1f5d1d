/**
 * The colour gradient: a range of values mapped onto a list of anchor
 * colours, with every colour of the range computed once and cached. The
 * current version adds a background colour returned for the value zero;
 * the older version is the same class without it (`background == None`).
 */
module Gradient {
  import opened Wrappers
  import opened Palette

  /** Python's `int()` on a float: truncation toward zero. */
  function Trunc(x: real): (t: int)
    ensures 0.0 <= x ==> 0 <= t && t as real <= x < t as real + 1.0
    ensures x <= 0.0 ==> t <= 0 && t as real - 1.0 < x <= t as real
  {
    if x >= 0.0 then x.Floor else -((-x).Floor)
  }

  /** `max(min(x, hi), lo)` on integers. */
  function Clamp(x: int, lo: int, hi: int): (y: int)
    requires lo <= hi
    ensures lo <= y <= hi
    ensures lo <= x <= hi ==> y == x
    ensures x < lo ==> y == lo
    ensures hi < x ==> y == hi
  {
    if x > hi then hi else if x < lo then lo else x
  }

  /** `max(min(x, 1), 0)`: the share of the second colour in a mix. */
  function Ratio(x: real): (t: real)
    ensures 0.0 <= t <= 1.0
    ensures 0.0 <= x <= 1.0 ==> t == x
    ensures x > 1.0 ==> t == 1.0
    ensures x < 0.0 ==> t == 0.0
  {
    if x > 1.0 then 1.0 else if x < 0.0 then 0.0 else x
  }

  /** One channel of a mix, truncated as the cache stores it. */
  function Blend(i: real, j: real, t: real): int {
    Trunc(i * (1.0 - t) + j * t)
  }

  function MixAnchors(p: Anchor, q: Anchor, t: real): Colour {
    Colour(Blend(p.r, q.r, t), Blend(p.g, q.g, t), Blend(p.b, q.b, t), Blend(p.a, q.a, t))
  }

  /** An anchor with each channel truncated: the colour read exactly at that anchor. */
  function TruncAnchor(p: Anchor): Colour {
    Colour(Trunc(p.r), Trunc(p.g), Trunc(p.b), Trunc(p.a))
  }

  predicate AnchorsInRange(colours: seq<Anchor>) {
    forall i :: 0 <= i < |colours| ==> AnchorInRange(colours[i], 0.0, 255.0)
  }

  /** A blend of two channels in [0, 255] stays in [0, 255]; with no share of the second it is the first. */
  lemma BlendBounds(i: real, j: real, t: real)
    requires 0.0 <= t <= 1.0
    ensures 0.0 <= i <= 255.0 && 0.0 <= j <= 255.0 ==> 0 <= Blend(i, j, t) <= 255
    ensures Blend(i, j, 0.0) == Trunc(i)
    ensures Blend(i, i, t) == Trunc(i)
  {
    if 0.0 <= i <= 255.0 && 0.0 <= j <= 255.0 {
      BlendInRange(i, j, t);
    }
    SameBlend(i, t);
  }

  lemma BlendInRange(i: real, j: real, t: real)
    requires 0.0 <= t <= 1.0 && 0.0 <= i <= 255.0 && 0.0 <= j <= 255.0
    ensures 0.0 <= i * (1.0 - t) + j * t <= 255.0
  {
    var s := 1.0 - t;
    Scaled(i, s);
    assert i * s <= 255.0 * s;
    Scaled(j, t);
    SumBounds(i * s, j * t, s, t);
  }

  lemma SameBlend(i: real, t: real)
    ensures i * (1.0 - t) + i * t == i
  {}

  lemma MixBounds(p: Anchor, q: Anchor, t: real)
    requires 0.0 <= t <= 1.0
    ensures AnchorInRange(p, 0.0, 255.0) && AnchorInRange(q, 0.0, 255.0) ==> InByteRange(MixAnchors(p, q, t))
    ensures MixAnchors(p, q, 0.0) == TruncAnchor(p)
    ensures MixAnchors(p, p, t) == TruncAnchor(p)
  {
    BlendBounds(p.r, q.r, t);
    BlendBounds(p.g, q.g, t);
    BlendBounds(p.b, q.b, t);
    BlendBounds(p.a, q.a, t);
  }

  lemma Scaled(x: real, t: real)
    requires 0.0 <= x <= 255.0 && 0.0 <= t
    ensures 0.0 <= x * t <= 255.0 * t
  {}

  lemma SumBounds(x: real, y: real, s: real, t: real)
    requires s + t == 1.0 && 0.0 <= x <= 255.0 * s && 0.0 <= y <= 255.0 * t
    ensures 0.0 <= x + y <= 255.0
  {}

  lemma TruncByte(x: real)
    requires 0.0 <= x <= 255.0
    ensures 0 <= Trunc(x) <= 255
  {}

  lemma TruncWhole(k: int)
    ensures Trunc(k as real) == k
  {}

  /** `d / (d / k) == k` for positive reals. */
  lemma DivDiv(d: real, k: real)
    requires d > 0.0 && k > 0.0
    ensures d / (d / k) == k
    ensures k * (d / k) == d
  {}

  class ColourRange {
    const minAmount: real
    const maxAmount: real
    const amountDiff: real
    const colours: seq<Anchor>
    const offset: real
    const loop: bool
    const background: Option<Colour>
    const stepMax: nat
    const stepSize: real
    var cache: seq<Colour>

    /** The fields fixed by the constructor, before the cache is filled. */
    predicate Shaped() {
      |colours| >= 1 && minAmount < maxAmount && amountDiff == maxAmount - minAmount
      && stepMax == 255 * |colours| && stepSize == amountDiff / stepMax as real
    }

    /** The cache holds one colour per step: entry `i` is the colour at `minAmount + i * stepSize`. */
    ghost predicate Valid()
      reads this
    {
      Shaped() && |cache| == stepMax + 1
      && forall i :: 0 <= i < |cache| ==> cache[i] == CalculateColour(Sample(i))
    }

    /** A range over `[minAmount, maxAmount)`; an empty range keeps only the first colour. */
    constructor (minAmount0: real, maxAmount0: real, colours0: seq<Anchor>, offset0: real, loop0: bool,
                 background0: Option<Colour>)
      requires |colours0| >= 1
      ensures minAmount0 >= maxAmount0 ==> colours == [colours0[0]] && maxAmount == minAmount0 + 1.0
      ensures minAmount0 >= maxAmount0 ==> forall i :: 0 <= i < |cache| ==> cache[i] == TruncAnchor(colours0[0])
      ensures minAmount0 < maxAmount0 ==> colours == colours0 && maxAmount == maxAmount0
      ensures minAmount == minAmount0 && offset == offset0 && loop == loop0 && background == background0
      ensures stepMax == 255 * |colours| && |cache| == 255 * |colours| + 1
      ensures Valid()
    {
      var cs, hi := colours0, maxAmount0;
      if minAmount0 >= maxAmount0 {
        cs := [colours0[0]];
        hi := minAmount0 + 1.0;
      }
      var diff := hi - minAmount0;
      var sm := 255 * |cs|;
      minAmount := minAmount0;
      maxAmount := hi;
      amountDiff := diff;
      colours := cs;
      offset := offset0;
      loop := loop0;
      background := background0;
      stepMax := sm;
      stepSize := diff / sm as real;
      new;
      assert Shaped();
      cache := [];
      for i := 0 to stepMax + 1
        invariant Shaped()
        invariant |cache| == i
        invariant forall k :: 0 <= k < i ==> cache[k] == CalculateColour(Sample(k))
      {
        var c := CalculateColour(Sample(i));
        cache := cache + [c];
      }
    }

    /** The value cache entry `i` is computed for. */
    function Sample(i: int): real {
      minAmount + i as real * stepSize
    }

    /** Where `n` falls among the anchors: `len(colours) - 1` times its share of the range. */
    function IndexF(n: real): real
      requires Shaped()
    {
      (|colours| - 1) as real * ((n + offset - minAmount) / amountDiff)
    }

    /** The anchor a mix starts from: `int(index_f)`, wrapped in loop mode and clamped otherwise. */
    function BaseIndex(f: real): (i: nat)
      requires Shaped()
      ensures i < |colours|
    {
      if loop then Trunc(f) % |colours| else Clamp(Trunc(f), 0, |colours| - 1)
    }

    /** The anchor a mix goes toward: the next one, wrapped in loop mode and clamped otherwise. */
    function MixIndex(f: real): (i: nat)
      requires Shaped()
      ensures i < |colours|
    {
      if loop then (Trunc(f) + 1) % |colours| else Clamp(Trunc(f) + 1, 0, |colours| - 1)
    }

    /**
     * The colour at `n`: the two anchors around `n` mixed in proportion.
     * Outside the range the indexes wrap in loop mode and are clamped
     * otherwise.
     */
    function CalculateColour(n: real): (c: Colour)
      requires Shaped()
      ensures AnchorsInRange(colours) ==> InByteRange(c)
      ensures |colours| == 1 ==> c == TruncAnchor(colours[0])
    {
      var f := IndexF(n);
      var base := BaseIndex(f);
      var mix := MixIndex(f);
      MixBounds(colours[base], colours[mix], Ratio(f - base as real));
      MixAnchors(colours[base], colours[mix], Ratio(f - base as real))
    }

    /** The cache step `n` falls in, before clamping or wrapping. */
    function ValueIndex(n: real): int
      requires Shaped()
    {
      Trunc((n - minAmount) / stepSize)
    }

    /** Reads the colour for `n` from the cache, or the background for zero. */
    function Get(n: real): (c: Colour)
      reads this
      requires Valid()
      ensures background.Some? && n == 0.0 ==> c == background.value
      ensures !(background.Some? && n == 0.0) ==> c in cache
    {
      if background.Some? && n == 0.0 then background.value
      else
        var valueIndex := ValueIndex(n);
        if loop && valueIndex != stepMax then cache[valueIndex % stepMax]
        else cache[Clamp(valueIndex, 0, stepMax)]
    }
  }
}

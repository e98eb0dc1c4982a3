/**
 * The scaling formula (`formula` in stretch-font.js): the element's width
 * over its measuring child's width, times the baseline size and a fixed
 * compensation factor, clamped by the optional bounds, `max` tested first.
 */
module Scaling {
  import opened Dom

  /** Visual compensation factor of the formula. */
  const Compensation: real := 0.97

  /** An empty bound attribute falls back to the baseline size; a missing one stays unset. */
  function Resolve(b: Bound, fz: real): (r: Option<real>)
    ensures r.None? <==> b.Absent?
    ensures b.Empty? ==> r == Some(fz)
    ensures b.Given? ==> r == Some(b.value)
  {
    match b
    case Absent => None
    case Empty => Some(fz)
    case Given(v) => Some(v)
  }

  /** The ratio formula before clamping: an element as wide as its measuring child gets `fz` times the factor. */
  function Unclamped(fz: real, m: Measure): (r: real)
    ensures fz >= 0.0 ==> r >= 0.0
    ensures m.width == m.firstChildWidth ==> r == fz * Compensation
  {
    var w, c: real := m.width, m.firstChildWidth;
    assert w / c >= 0.0;
    assert w == c ==> w / c == 1.0 by {
      if w == c {
        assert (w / c) * c == w;
      }
    }
    w / c * fz * Compensation
  }

  /** The maximum is tested first, then the minimum; an unset bound never fires (JavaScript compares with `undefined` as false). */
  function Clamp(computed: real, min: Option<real>, max: Option<real>): (r: real)
    ensures r == computed || (min.Some? && r == min.value) || (max.Some? && r == max.value)
    ensures min.Some? && max.Some? && min.value <= max.value ==> min.value <= r <= max.value
  {
    if max.Some? && computed > max.value then max.value
    else if min.Some? && computed < min.value then min.value
    else computed
  }

  /** The size `formula` computes: the ratio formula clamped by the resolved bounds. */
  function FormulaSize(e: Element, m: Measure): (r: real)
    requires e.fz.Some?
    ensures var min, max := Resolve(e.stretchMin, e.fz.value), Resolve(e.stretchMax, e.fz.value);
      && (r == Unclamped(e.fz.value, m) || (min.Some? && r == min.value) || (max.Some? && r == max.value))
      && (min.Some? && max.Some? && min.value <= max.value ==> min.value <= r <= max.value)
  {
    var fz := e.fz.value;
    Clamp(Unclamped(fz, m), Resolve(e.stretchMin, fz), Resolve(e.stretchMax, fz))
  }

  /**
   * The element after `formula` has assigned `size + "px"` to its inline font
   * size. A negative size is not a valid `font-size`, so the browser drops the
   * assignment and the previous inline size stays.
   */
  function Formula(e: Element, m: Measure): (r: Element)
    requires e.fz.Some?
    ensures r == e.(fontSize := r.fontSize)
    ensures FormulaSize(e, m) >= 0.0 ==> r.fontSize == Some(FormulaSize(e, m))
    ensures FormulaSize(e, m) < 0.0 ==> r == e
  {
    var size := FormulaSize(e, m);
    if size >= 0.0 then e.(fontSize := Some(size)) else e
  }

  // ---------------------------------------------------------------- clamping

  /** A computed size above a set maximum is replaced by exactly that maximum, whatever the minimum. */
  lemma MaxWins(computed: real, min: Option<real>, max: real)
    requires computed > max
    ensures Clamp(computed, min, Some(max)) == max
  {
  }

  /** When the maximum does not fire, a computed size below a set minimum becomes exactly the minimum. */
  lemma MinApplies(computed: real, min: real, max: Option<real>)
    requires max.None? || computed <= max.value
    requires computed < min
    ensures Clamp(computed, Some(min), max) == min
  {
  }

  /** Clamping keeps the computed size exactly when it crosses no set bound. */
  lemma ClampKeepsInRange(computed: real, min: Option<real>, max: Option<real>)
    ensures Clamp(computed, min, max) == computed <==>
              (max.None? || computed <= max.value) && (min.None? || computed >= min.value)
  {
  }

  /** With both bounds set and ordered, the applied size lies between them. */
  lemma ClampWithinBounds(computed: real, min: real, max: real)
    requires min <= max
    ensures min <= Clamp(computed, Some(min), Some(max)) <= max
  {
  }

  /** With inverted bounds `formula` never keeps the computed size: it picks `max` above it and `min` otherwise. */
  lemma ClampInvertedBounds(computed: real, min: real, max: real)
    requires max < min
    ensures Clamp(computed, Some(min), Some(max)) == if computed > max then max else min
  {
  }

  // ----------------------------------------------------------------- formula

  /** With neither bound attribute present the size is the unclamped ratio formula. */
  lemma NoBoundsNoClamp(e: Element, m: Measure)
    requires e.fz.Some? && e.stretchMin.Absent? && e.stretchMax.Absent?
    ensures FormulaSize(e, m) == m.width / m.firstChildWidth * e.fz.value * 0.97
  {
  }

  /** An empty `data-stretch-max` caps the size at the baseline; an empty `data-stretch-min` floors it there. */
  lemma EmptyBoundsAreBaseline(e: Element, m: Measure)
    requires e.fz.Some?
    ensures e.stretchMax.Empty? && Unclamped(e.fz.value, m) > e.fz.value ==> FormulaSize(e, m) == e.fz.value
    ensures e.stretchMin.Empty? && !e.stretchMax.Given? && Unclamped(e.fz.value, m) < e.fz.value ==>
              FormulaSize(e, m) == e.fz.value
  {
  }

  /** With both bounds resolved and ordered, the applied size respects them. */
  lemma FormulaWithinBounds(e: Element, m: Measure)
    requires e.fz.Some?
    requires Resolve(e.stretchMin, e.fz.value).Some? && Resolve(e.stretchMax, e.fz.value).Some?
    requires Resolve(e.stretchMin, e.fz.value).value <= Resolve(e.stretchMax, e.fz.value).value
    ensures Resolve(e.stretchMin, e.fz.value).value <= FormulaSize(e, m) <= Resolve(e.stretchMax, e.fz.value).value
  {
    ClampWithinBounds(Unclamped(e.fz.value, m), Resolve(e.stretchMin, e.fz.value).value,
                      Resolve(e.stretchMax, e.fz.value).value);
  }

  /** With a non-negative baseline and no negative bound, the computed size is always written. */
  lemma FormulaAlwaysWritten(e: Element, m: Measure)
    requires e.fz.Some? && e.fz.value >= 0.0
    requires e.stretchMin.Given? ==> e.stretchMin.value >= 0.0
    requires e.stretchMax.Given? ==> e.stretchMax.value >= 0.0
    ensures FormulaSize(e, m) >= 0.0 && Formula(e, m).fontSize == Some(FormulaSize(e, m))
  {
    assert Unclamped(e.fz.value, m) >= 0.0;
  }

  /** A negative `data-stretch-max` makes every size negative, so `formula` leaves the element as it was. */
  lemma NegativeMaxIgnored(e: Element, m: Measure)
    requires e.fz.Some? && e.stretchMax.Given? && e.stretchMax.value < 0.0
    requires !e.stretchMin.Given? || e.stretchMin.value < 0.0
    requires e.stretchMin.Empty? ==> e.fz.value < 0.0
    ensures Formula(e, m) == e
  {
  }

  /** Only the inline font size changes, and running the formula again with the same layout changes nothing. */
  lemma FormulaOnlyWritesFontSize(e: Element, m: Measure)
    requires e.fz.Some?
    ensures Formula(e, m) == e.(fontSize := Formula(e, m).fontSize)
    ensures Formula(e, m).fz == e.fz && Formula(Formula(e, m), m) == Formula(e, m)
  {
  }

  /** Without bounds the size is proportional to the element's width. */
  lemma UnclampedProportionalToWidth(fz: real, m: Measure, k: real)
    requires k >= 0.0
    ensures Unclamped(fz, Measure(k * m.width, m.firstChildWidth)) == k * Unclamped(fz, m)
  {
    calc {
      Unclamped(fz, Measure(k * m.width, m.firstChildWidth));
      (k * m.width) / m.firstChildWidth * fz * Compensation;
      { assert (k * m.width) / m.firstChildWidth == k * (m.width / m.firstChildWidth); }
      k * (m.width / m.firstChildWidth) * fz * Compensation;
    }
  }

  /** A 16px baseline in a box three times as wide as its measuring child: 46.56px, or 16px under an empty max. */
  lemma ExampleSizes()
    ensures Unclamped(16.0, Measure(300.0, 100.0)) == 46.56
    ensures Clamp(46.56, None, Resolve(Empty, 16.0)) == 16.0
    ensures Clamp(Unclamped(16.0, Measure(50.0, 100.0)), Resolve(Given(10.0), 16.0), None) == 10.0
  {
  }
}

/**
 * Baselining an element (`saveFontSize` in stretch-font.js): capture
 * `data-fz` when it is missing, then put a measuring child at the front of
 * the element unless the first child already is one. The boolean says
 * whether a measuring child was inserted. The baseline is written once, but
 * a measuring child is inserted again whenever the page has put another node
 * in front of it.
 */
module Baseline {
  import opened Dom

  /** The measuring child `<i class="<className>__save">`: the element's text at the baseline size. */
  function Marker(className: string, text: string, fz: Option<real>): (r: Child)
    ensures IsSaveMarker(r, className) && r.text == text && r.fontSize == fz
  {
    ElementChild({SaveClass(className)}, text, fz)
  }

  function Save(e: Element, className: string): (r: (Element, bool))
    requires |e.children| > 0
    ensures r.1 <==> !IsSaveMarker(e.children[0], className)
    ensures Settled(r.0, className) && (e.fz.Some? ==> r.0.fz == e.fz)
  {
    var fz := if e.fz.None? then Some(ComputedFontSize(e)) else e.fz;
    if IsSaveMarker(e.children[0], className) then (e.(fz := fz), false)
    else (e.(fz := fz, children := [Marker(className, e.innerText, fz)] + e.children), true)
  }

  /** The baseline is written once: captured from the computed size when missing, kept when present. */
  lemma SaveWriteOnce(e: Element, className: string)
    requires |e.children| > 0
    ensures e.fz.Some? ==> Save(e, className).0.fz == e.fz
    ensures e.fz.None? ==> Save(e, className).0.fz == Some(ComputedFontSize(e))
  {
  }

  /**
   * The result is true exactly when the first child is not a measuring child;
   * then exactly one measuring child, at the baseline size, is put in front,
   * otherwise the children are left alone.
   */
  lemma SaveInsertsOneMarker(e: Element, className: string)
    requires |e.children| > 0
    ensures var (r, saved) := Save(e, className);
      && (saved <==> !IsSaveMarker(e.children[0], className))
      && (saved ==> r.children == [Marker(className, e.innerText, r.fz)] + e.children)
      && (!saved ==> r.children == e.children)
  {
  }

  /** Saving touches only the baseline and the child list, and always leaves the element settled. */
  lemma SaveOnlyBaselines(e: Element, className: string)
    requires |e.children| > 0
    ensures var r := Save(e, className).0;
      && r == e.(fz := r.fz, children := r.children)
      && Settled(r, className)
  {
  }

  /** A settled element is a fixed point: saving it reports false and changes nothing. */
  lemma SaveSettled(e: Element, className: string)
    requires Settled(e, className)
    ensures Save(e, className) == (e, false)
  {
  }

  /**
   * Only the baseline is written once: after the page puts another node in
   * front of the measuring child, saving keeps `data-fz` and inserts a second
   * measuring child.
   */
  lemma SaveReinsertsMarker(e: Element, c: Child, className: string)
    requires Settled(e, className) && !IsSaveMarker(c, className)
    ensures var (r, saved) := Save(e.(children := [c] + e.children), className);
      && saved && r.fz == e.fz
      && r.children == [Marker(className, e.innerText, e.fz), c] + e.children
      && IsSaveMarker(r.children[0], className) && IsSaveMarker(r.children[2], className)
  {
  }

  /** A second consecutive call returns false and changes nothing. */
  lemma SaveTwice(e: Element, className: string)
    requires |e.children| > 0
    ensures var r := Save(e, className).0;
      |r.children| > 0 && Save(r, className) == (r, false)
  {
    SaveOnlyBaselines(e, className);
    SaveSettled(Save(e, className).0, className);
  }
}

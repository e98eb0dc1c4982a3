/**
 * The part of the document that `useStretchFont` reads and writes, as values.
 *
 * Every element the closure can reach is a record in a map keyed by node
 * identity. A record holds the element's classes, its element descendants in
 * document order (what `querySelectorAll` walks), the `data-*` attributes the
 * closure uses (already parsed), its child list (whose first entry may be the
 * measuring child), its inline font size and whether it is registered
 * with the resize observer.
 */
module Dom {

  type NodeId = nat

  datatype Option<T> = None | Some(value: T)

  /** A `data-stretch-min` or `data-stretch-max` attribute: missing, present but empty, or a number. */
  datatype Bound = Absent | Empty | Given(value: real)

  /** A child node: an element (classes, text, inline font size) or a text node. */
  datatype Child =
    | ElementChild(classes: set<string>, text: string, fontSize: Option<real>)
    | TextChild(text: string)

  datatype Element = Element(
    classes: set<string>,
    descendants: seq<NodeId>,   // element descendants, document order
    innerText: string,
    cascadedFontSize: NonNegative,    // font size the style sheets give when there is no inline size
    fz: Option<real>,           // `data-fz`: the baseline font size (None when missing or empty)
    stretchMin: Bound,
    stretchMax: Bound,
    children: seq<Child>,
    fontSize: Option<NonNegative>,    // inline `style.fontSize`; a negative declaration is never stored
    observed: bool)             // registered with the resize observer

  type NonNegative = r: real | r >= 0.0

  type Positive = r: real | r > 0.0 witness 1.0

  /** What layout reports for an element: its `offsetWidth` and its first child's `offsetWidth`. */
  datatype Measure = Measure(width: NonNegative, firstChildWidth: Positive)

  /** Class of the measuring child. */
  function SaveClass(className: string): string {
    className + "__save"
  }

  predicate IsSaveMarker(c: Child, className: string) {
    c.ElementChild? && SaveClass(className) in c.classes
  }

  predicate Marked(e: Element, className: string) {
    className in e.classes
  }

  /** `getComputedStyle(node).fontSize`: the inline size wins over the cascade. */
  function ComputedFontSize(e: Element): (r: real)
    ensures r >= 0.0
    ensures e.fontSize.Some? ==> r == e.fontSize.value
    ensures e.fontSize.None? ==> r == e.cascadedFontSize
  {
    match e.fontSize
    case Some(px) => px
    case None => e.cascadedFontSize
  }

  /** A baselined element: `data-fz` is captured and the measuring child is its first child. */
  predicate Settled(e: Element, className: string) {
    e.fz.Some? && |e.children| > 0 && IsSaveMarker(e.children[0], className)
  }

  /** Nothing the closure does changes which elements carry the class or where they sit. */
  predicate SameTree(a: Element, b: Element) {
    a.classes == b.classes && a.descendants == b.descendants
  }

  /**
   * One record is well formed: its descendants are known elements, a marked
   * element has a first child (stretch-font.js dereferences it), and an
   * observed element has its baseline. `data-fz` is never removed, but the
   * page may replace an observed element's children, so its measuring child
   * need not be first any more.
   */
  predicate ElementOk(keys: set<NodeId>, e: Element, className: string) {
    && (forall d :: d in e.descendants ==> d in keys)
    && (Marked(e, className) ==> |e.children| > 0)
    && (e.observed ==> e.fz.Some?)
  }

  predicate WellFormed(elems: map<NodeId, Element>, className: string) {
    forall id :: id in elems ==> ElementOk(elems.Keys, elems[id], className)
  }

  lemma UpdatePreservesWellFormed(elems: map<NodeId, Element>, id: NodeId, e: Element, className: string)
    requires WellFormed(elems, className) && id in elems
    requires ElementOk(elems.Keys, e, className)
    ensures WellFormed(elems[id := e], className)
  {
    assert elems[id := e].Keys == elems.Keys;
  }

  /**
   * The page's own edit that the mutation callback reacts to: replacing the
   * content of any element, observed or not (`textContent`, `innerHTML`),
   * gives it new children, a new `innerText` and new element descendants.
   * With a non-empty child list and descendants that are known elements, the
   * document stays well formed, even when the measuring child is gone.
   */
  lemma PageReplacesContent(elems: map<NodeId, Element>, id: NodeId, kids: seq<Child>, text: string,
                            ds: seq<NodeId>, className: string)
    requires WellFormed(elems, className) && id in elems && |kids| > 0
    requires forall d :: d in ds ==> d in elems
    ensures WellFormed(elems[id := elems[id].(children := kids, innerText := text, descendants := ds)], className)
  {
    UpdatePreservesWellFormed(elems, id, elems[id].(children := kids, innerText := text, descendants := ds), className);
  }

  lemma UpdateTwice(elems: map<NodeId, Element>, id: NodeId, a: Element, b: Element)
    ensures elems[id := a][id := b] == elems[id := b]
  {
  }
}

/**
 * Discovery (`findNodes`) and the per-element work of the three callbacks of
 * `useStretchFont`, stated as functions over the element map:
 *
 *   - the DOMContentLoaded scan baselines each found element and observes
 *     the newly baselined ones; it never runs the formula;
 *   - the mutation callback baselines each element found under each mutation
 *     target and, only for the newly baselined ones, runs the formula and
 *     observes them;
 *   - the resize callback runs the formula only.
 *
 * `Dispatch` folds one callback's step over a list of element ids, in order.
 */
module Callbacks {
  import opened Dom
  import opened Scaling
  import opened Baseline

  // --------------------------------------------------------------- discovery

  /** The ids of `ds` that are known elements carrying the class, in order. */
  function Matching(elems: map<NodeId, Element>, ds: seq<NodeId>, className: string): (r: seq<NodeId>)
    ensures forall x :: x in r <==> x in ds && x in elems && Marked(elems[x], className)
    ensures |r| <= |ds|
  {
    if ds == [] then []
    else
      var rest := Matching(elems, ds[1..], className);
      if ds[0] in elems && Marked(elems[ds[0]], className) then [ds[0]] + rest else rest
  }

  /** The target alone when it carries the class, otherwise its descendants that do. */
  function FindNodes(elems: map<NodeId, Element>, target: NodeId, className: string): (r: seq<NodeId>)
    requires target in elems
    ensures forall x :: x in r ==> x in elems && Marked(elems[x], className)
    ensures Marked(elems[target], className) ==> r == [target]
    ensures !Marked(elems[target], className) ==>
              target !in r &&
              forall x :: x in r <==> x in elems[target].descendants && x in elems && Marked(elems[x], className)
  {
    if Marked(elems[target], className) then [target]
    else Matching(elems, elems[target].descendants, className)
  }

  /** The elements found under each mutation target, target by target. */
  function AllFound(elems: map<NodeId, Element>, targets: seq<NodeId>, className: string): (r: seq<NodeId>)
    requires forall t :: t in targets ==> t in elems
    ensures forall x :: x in r ==> x in elems && Marked(elems[x], className)
    ensures forall x :: x in r <==> exists t :: t in targets && x in FindNodes(elems, t, className)
    decreases |targets|
  {
    if targets == [] then []
    else
      var init, last := targets[..|targets| - 1], targets[|targets| - 1];
      assert targets == init + [last];
      assert forall t :: t in init ==> t in targets;
      var prev, here := AllFound(elems, init, className), FindNodes(elems, last, className);
      assert forall x :: x in prev + here <==> exists t :: t in targets && x in FindNodes(elems, t, className) by {
        forall x ensures x in prev + here <==> exists t :: t in targets && x in FindNodes(elems, t, className) {
          if x in here {
            assert last in targets;
          }
        }
      }
      prev + here
  }

  // ---------------------------------------------------------------- callbacks

  /** Which callback runs, with the layout it reads when it runs the formula. */
  datatype Callback =
    | ContentLoaded
    | Mutation(layout: NodeId -> Measure)
    | Resize(layout: NodeId -> Measure)

  /** What the step of a callback dereferences: the first child to baseline, `data-fz` to rescale. */
  predicate Ready(e: Element, cb: Callback, className: string) {
    if cb.Resize? then e.fz.Some? else |e.children| > 0
  }

  /** The work a callback does on one element. */
  function Step(e: Element, id: NodeId, cb: Callback, className: string): (r: Element)
    requires Ready(e, cb, className)
    ensures Ready(r, cb, className) && SameTree(e, r)
    ensures !cb.Resize? ==> Settled(r, className)
  {
    match cb
    case ContentLoaded =>
      var (baselined, saved) := Save(e, className);
      if saved then baselined.(observed := true) else baselined
    case Mutation(layout) =>
      var (baselined, saved) := Save(e, className);
      if saved then Formula(baselined, layout(id)).(observed := true) else baselined
    case Resize(layout) =>
      Formula(e, layout(id))
  }

  predicate AllReady(elems: map<NodeId, Element>, ids: seq<NodeId>, cb: Callback, className: string) {
    forall id :: id in ids ==> id in elems && Ready(elems[id], cb, className)
  }

  /** One callback's step applied to the elements `ids`, first to last. */
  function Dispatch(elems: map<NodeId, Element>, ids: seq<NodeId>, cb: Callback, className: string)
    : (r: map<NodeId, Element>)
    requires AllReady(elems, ids, cb, className)
    ensures r.Keys == elems.Keys
    ensures forall id :: id in elems ==>
              SameTree(elems[id], r[id]) && (Ready(elems[id], cb, className) ==> Ready(r[id], cb, className))
    decreases |ids|
  {
    if ids == [] then elems
    else
      var init, last := ids[..|ids| - 1], ids[|ids| - 1];
      assert forall id :: id in init ==> id in ids;
      var prev := Dispatch(elems, init, cb, className);
      prev[last := Step(prev[last], last, cb, className)]
  }

  /** Readiness carries over to a list whose ids all come from a ready list. */
  lemma AllReadySub(elems: map<NodeId, Element>, a: seq<NodeId>, b: seq<NodeId>, cb: Callback, className: string)
    requires AllReady(elems, b, cb, className)
    requires forall x :: x in a ==> x in b
    ensures AllReady(elems, a, cb, className)
  {
  }

  /** In a well-formed document every element carrying the class can be baselined. */
  lemma MarkedReady(elems: map<NodeId, Element>, ids: seq<NodeId>, cb: Callback, className: string)
    requires WellFormed(elems, className) && !cb.Resize?
    requires forall x :: x in ids ==> x in elems && Marked(elems[x], className)
    ensures AllReady(elems, ids, cb, className)
  {
    forall x | x in ids ensures Ready(elems[x], cb, className) {
      assert ElementOk(elems.Keys, elems[x], className);
    }
  }

  /** In a well-formed document every observed element can be rescaled. */
  lemma ObservedReady(elems: map<NodeId, Element>, ids: seq<NodeId>, layout: NodeId -> Measure, className: string)
    requires WellFormed(elems, className)
    requires forall x :: x in ids ==> x in elems && elems[x].observed
    ensures AllReady(elems, ids, Resize(layout), className)
  {
    forall x | x in ids ensures Ready(elems[x], Resize(layout), className) {
      assert ElementOk(elems.Keys, elems[x], className);
    }
  }

  /** Dispatching one more id is one more step on top of the dispatch so far. */
  lemma DispatchSnoc(elems: map<NodeId, Element>, ids: seq<NodeId>, id: NodeId, cb: Callback, className: string)
    requires AllReady(elems, ids + [id], cb, className)
    ensures AllReady(elems, ids, cb, className)
    ensures var prev := Dispatch(elems, ids, cb, className);
      && id in prev && Ready(prev[id], cb, className)
      && Dispatch(elems, ids + [id], cb, className) == prev[id := Step(prev[id], id, cb, className)]
  {
    AllReadySub(elems, ids, ids + [id], cb, className);
    assert (ids + [id])[..|ids + [id]| - 1] == ids;
  }

  /** The loop step of every callback: dispatching one more id of a ready list. */
  lemma DispatchPrefixStep(elems: map<NodeId, Element>, ids: seq<NodeId>, j: nat, cb: Callback, className: string)
    requires AllReady(elems, ids, cb, className) && j < |ids|
    ensures AllReady(elems, ids[..j], cb, className) && AllReady(elems, ids[..j + 1], cb, className)
    ensures var prev := Dispatch(elems, ids[..j], cb, className);
      && ids[j] in prev && Ready(prev[ids[j]], cb, className)
      && Dispatch(elems, ids[..j + 1], cb, className) == prev[ids[j] := Step(prev[ids[j]], ids[j], cb, className)]
  {
    assert ids[..j + 1] == ids[..j] + [ids[j]];
    AllReadySub(elems, ids[..j + 1], ids, cb, className);
    DispatchSnoc(elems, ids[..j], ids[j], cb, className);
  }

  /** Dispatching a whole ready list is its last prefix. */
  lemma DispatchWhole(elems: map<NodeId, Element>, ids: seq<NodeId>, cb: Callback, className: string)
    requires AllReady(elems, ids, cb, className)
    ensures AllReady(elems, ids[..|ids|], cb, className)
    ensures Dispatch(elems, ids[..|ids|], cb, className) == Dispatch(elems, ids, cb, className)
  {
    assert ids[..|ids|] == ids;
  }

  /**
   * The mutation callback's outer loop step: the records up to target `i`
   * are the records before it followed by what `findNodes` returns for it,
   * searched in the document as the earlier records left it.
   */
  lemma MutationTargetStep(elems: map<NodeId, Element>, targets: seq<NodeId>, i: nat,
                           layout: NodeId -> Measure, className: string)
    requires WellFormed(elems, className)
    requires forall t :: t in targets ==> t in elems
    requires i < |targets|
    ensures (forall t :: t in targets[..i] ==> t in elems) && (forall t :: t in targets[..i + 1] ==> t in elems)
    ensures AllReady(elems, AllFound(elems, targets[..i], className), Mutation(layout), className)
    ensures AllReady(elems, AllFound(elems, targets[..i + 1], className), Mutation(layout), className)
    ensures var before := Dispatch(elems, AllFound(elems, targets[..i], className), Mutation(layout), className);
      && targets[i] in before
      && AllReady(before, FindNodes(before, targets[i], className), Mutation(layout), className)
      && Dispatch(before, FindNodes(before, targets[i], className), Mutation(layout), className)
         == Dispatch(elems, AllFound(elems, targets[..i + 1], className), Mutation(layout), className)
  {
    var cb := Mutation(layout);
    assert targets[..i + 1] == targets[..i] + [targets[i]];
    assert targets[..i + 1][..i] == targets[..i];
    var found := FindNodes(elems, targets[i], className);
    var all := AllFound(elems, targets[..i], className);
    assert AllFound(elems, targets[..i + 1], className) == all + found;
    MarkedReady(elems, all + found, cb, className);
    MarkedReady(elems, all, cb, className);
    DispatchAppend(elems, all, found, cb, className);
    var before := Dispatch(elems, all, cb, className);
    FindNodesSameTree(before, elems, targets[i], className);
  }

  /** The mutation callback with no records so far, and with all of them. */
  lemma MutationTargetsWhole(elems: map<NodeId, Element>, targets: seq<NodeId>, layout: NodeId -> Measure, className: string)
    requires WellFormed(elems, className)
    requires forall t :: t in targets ==> t in elems
    ensures targets[..0] == [] && targets[..|targets|] == targets
    ensures AllReady(elems, AllFound(elems, targets, className), Mutation(layout), className)
    ensures Dispatch(elems, AllFound(elems, targets[..0], className), Mutation(layout), className) == elems
  {
    assert targets[..|targets|] == targets;
    MarkedReady(elems, AllFound(elems, targets, className), Mutation(layout), className);
  }

  /** Dispatching two lists one after the other is dispatching their concatenation. */
  lemma {:induction false} DispatchAppend(elems: map<NodeId, Element>, a: seq<NodeId>, b: seq<NodeId>,
                                          cb: Callback, className: string)
    requires AllReady(elems, a + b, cb, className)
    ensures AllReady(elems, a, cb, className)
    ensures AllReady(Dispatch(elems, a, cb, className), b, cb, className)
    ensures Dispatch(Dispatch(elems, a, cb, className), b, cb, className) == Dispatch(elems, a + b, cb, className)
  {
    AllReadySub(elems, a, a + b, cb, className);
    var mid := Dispatch(elems, a, cb, className);
    if b == [] {
      assert a + b == a;
    } else {
      var init, last := b[..|b| - 1], b[|b| - 1];
      assert b == init + [last];
      assert a + b == (a + init) + [last];
      DispatchSnoc(elems, a + init, last, cb, className);
      DispatchAppend(elems, a, init, cb, className);
      assert AllReady(mid, b, cb, className);
      DispatchSnoc(mid, init, last, cb, className);
    }
  }

  // ------------------------------------------------------------ step lemmas

  /** A settled element is left alone by both baselining callbacks. */
  lemma SettledStepFixed(e: Element, id: NodeId, cb: Callback, className: string)
    requires !cb.Resize? && Settled(e, className)
    ensures Step(e, id, cb, className) == e
  {
    SaveSettled(e, className);
  }

  /** Running a callback's step twice on an element does what running it once does. */
  lemma StepIdempotent(e: Element, id: NodeId, cb: Callback, className: string)
    requires Ready(e, cb, className)
    ensures Step(Step(e, id, cb, className), id, cb, className) == Step(e, id, cb, className)
  {
    var r := Step(e, id, cb, className);
    if cb.Resize? {
      FormulaOnlyWritesFontSize(e, cb.layout(id));
    } else {
      SettledStepFixed(r, id, cb, className);
    }
  }

  // ------------------------------------------------------- dispatch lemmas

  /**
   * Dispatch does not depend on the order of `ids` or on repetitions in it:
   * each listed element ends up stepped exactly once, every other element is
   * untouched.
   */
  lemma {:induction false} DispatchClosedForm(elems: map<NodeId, Element>, ids: seq<NodeId>, cb: Callback, className: string)
    requires AllReady(elems, ids, cb, className)
    ensures forall id :: id in elems && id in ids ==>
              Dispatch(elems, ids, cb, className)[id] == Step(elems[id], id, cb, className)
    ensures forall id :: id in elems && id !in ids ==> Dispatch(elems, ids, cb, className)[id] == elems[id]
  {
    if ids != [] {
      var init, last := ids[..|ids| - 1], ids[|ids| - 1];
      assert ids == init + [last];
      DispatchSnoc(elems, init, last, cb, className);
      DispatchClosedForm(elems, init, cb, className);
      var prev, r := Dispatch(elems, init, cb, className), Dispatch(elems, ids, cb, className);
      forall id | id in elems
        ensures id in ids ==> r[id] == Step(elems[id], id, cb, className)
        ensures id !in ids ==> r[id] == elems[id]
      {
        if id == last {
          if last in init {
            StepIdempotent(elems[last], last, cb, className);
          }
        } else {
          assert id in ids <==> id in init;
          assert r[id] == prev[id];
        }
      }
    }
  }

  /** Baselining callbacks leave every element they visit settled, with its baseline written once. */
  lemma BaselineWriteOnce(elems: map<NodeId, Element>, ids: seq<NodeId>, cb: Callback, className: string)
    requires AllReady(elems, ids, cb, className)
    ensures var r := Dispatch(elems, ids, cb, className);
      && (forall id :: id in elems && elems[id].fz.Some? ==> r[id].fz == elems[id].fz)
      && (!cb.Resize? ==> forall id :: id in ids ==> Settled(r[id], className))
  {
    DispatchClosedForm(elems, ids, cb, className);
    forall id | id in elems && id in ids
      ensures elems[id].fz.Some? ==> Step(elems[id], id, cb, className).fz == elems[id].fz
    {
      if !cb.Resize? {
        SaveWriteOnce(elems[id], className);
      }
    }
  }

  /** The mutation callback rescales and observes exactly the visited elements that lacked a measuring child. */
  lemma MutationRescalesOnlyNewlyBaselined(elems: map<NodeId, Element>, ids: seq<NodeId>,
                                           layout: NodeId -> Measure, className: string)
    requires AllReady(elems, ids, Mutation(layout), className)
    ensures var r := Dispatch(elems, ids, Mutation(layout), className);
      forall id :: id in elems ==>
        if id in ids && !IsSaveMarker(elems[id].children[0], className) then
          var baselined := Save(elems[id], className).0;
          baselined.fz.Some? && r[id] == Formula(baselined, layout(id)).(observed := true)
        else
          r[id].fontSize == elems[id].fontSize && r[id].observed == elems[id].observed
  {
    DispatchClosedForm(elems, ids, Mutation(layout), className);
  }

  /**
   * After the page replaced the children of an observed element, the mutation
   * record targeting it re-baselines it: the baseline is kept, a new measuring
   * child goes in front of the new children, and the element is rescaled and
   * stays observed.
   */
  lemma ReplacedContentRebaselined(elems: map<NodeId, Element>, id: NodeId,
                                   layout: NodeId -> Measure, className: string)
    requires WellFormed(elems, className) && id in elems && Marked(elems[id], className)
    requires elems[id].observed && !IsSaveMarker(elems[id].children[0], className)
    ensures FindNodes(elems, id, className) == [id]
    ensures AllReady(elems, [id], Mutation(layout), className)
    ensures var e, r := elems[id], Dispatch(elems, [id], Mutation(layout), className)[id];
      && r.fz == e.fz && r.observed
      && r.children == [Marker(className, e.innerText, e.fz)] + e.children
      && r == Formula(e.(children := r.children), layout(id)).(observed := true)
  {
    MarkedReady(elems, [id], Mutation(layout), className);
    DispatchClosedForm(elems, [id], Mutation(layout), className);
    assert ElementOk(elems.Keys, elems[id], className);
  }

  /**
   * The whole cycle for a tracked element whose content the page replaced:
   * the mutation record for it re-inserts a measuring child holding the NEW
   * text at the kept baseline, rescales the element and keeps it observed.
   */
  lemma {:induction false} EditedContentRemeasured(elems: map<NodeId, Element>, id: NodeId, kids: seq<Child>,
                                                   text: string, ds: seq<NodeId>,
                                                   layout: NodeId -> Measure, className: string)
    requires WellFormed(elems, className) && id in elems && Marked(elems[id], className)
    requires elems[id].observed && |kids| > 0 && !IsSaveMarker(kids[0], className)
    requires forall d :: d in ds ==> d in elems
    ensures var edited := elems[id := elems[id].(children := kids, innerText := text, descendants := ds)];
      && AllReady(edited, FindNodes(edited, id, className), Mutation(layout), className)
      && var r := Dispatch(edited, FindNodes(edited, id, className), Mutation(layout), className)[id];
      && r.fz == elems[id].fz && r.observed && r.innerText == text
      && r.children == [Marker(className, text, elems[id].fz)] + kids
  {
    var edited := elems[id := elems[id].(children := kids, innerText := text, descendants := ds)];
    PageReplacesContent(elems, id, kids, text, ds, className);
    ReplacedContentRebaselined(edited, id, layout, className);
  }

  /** The DOMContentLoaded scan never changes a font size; it observes exactly the newly baselined elements. */
  lemma ContentLoadedNeverRescales(elems: map<NodeId, Element>, ids: seq<NodeId>, className: string)
    requires AllReady(elems, ids, ContentLoaded, className)
    ensures var r := Dispatch(elems, ids, ContentLoaded, className);
      forall id :: id in elems ==>
        && r[id].fontSize == elems[id].fontSize
        && (r[id].observed <==>
              elems[id].observed || (id in ids && !IsSaveMarker(elems[id].children[0], className)))
  {
    DispatchClosedForm(elems, ids, ContentLoaded, className);
  }

  /**
   * The resize callback runs the formula alone on its entries: only their
   * inline font size changes, to the formula's size, and an entry whose size
   * is negative keeps its old one. It never baselines.
   */
  lemma ResizeOnlyRescales(elems: map<NodeId, Element>, ids: seq<NodeId>,
                           layout: NodeId -> Measure, className: string)
    requires AllReady(elems, ids, Resize(layout), className)
    ensures var r := Dispatch(elems, ids, Resize(layout), className);
      forall id :: id in elems ==>
        && r[id] == elems[id].(fontSize := r[id].fontSize)
        && (id !in ids ==> r[id] == elems[id])
        && (id in ids ==> r[id] == Formula(elems[id], layout(id)))
        && (id in ids && FormulaSize(elems[id], layout(id)) >= 0.0 ==>
              r[id].fontSize == Some(FormulaSize(elems[id], layout(id))))
        && (id in ids && FormulaSize(elems[id], layout(id)) < 0.0 ==> r[id] == elems[id])
  {
    DispatchClosedForm(elems, ids, Resize(layout), className);
  }

  /** Visiting only settled elements, a baselining callback changes nothing. */
  lemma {:induction false} SettledIgnored(elems: map<NodeId, Element>, ids: seq<NodeId>, cb: Callback, className: string)
    requires !cb.Resize?
    requires forall id :: id in ids ==> id in elems && Settled(elems[id], className)
    ensures AllReady(elems, ids, cb, className) && Dispatch(elems, ids, cb, className) == elems
  {
    if ids != [] {
      var init, last := ids[..|ids| - 1], ids[|ids| - 1];
      assert forall id :: id in init ==> id in ids;
      SettledIgnored(elems, init, cb, className);
      SettledStepFixed(elems[last], last, cb, className);
    }
  }

  /** Each target that carries the class is found alone. */
  lemma {:induction false} AllFoundOfMarked(elems: map<NodeId, Element>, targets: seq<NodeId>, className: string)
    requires forall t :: t in targets ==> t in elems && Marked(elems[t], className)
    ensures AllFound(elems, targets, className) == targets
  {
    if targets != [] {
      var init, last := targets[..|targets| - 1], targets[|targets| - 1];
      assert targets == init + [last];
      assert forall t :: t in init ==> t in targets;
      AllFoundOfMarked(elems, init, className);
      assert FindNodes(elems, last, className) == [last];
      assert AllFound(elems, targets, className) == init + [last];
    }
  }

  /**
   * The guard against the callbacks' own insertions: inserting a measuring
   * child into a found element queues a mutation record whose target is that
   * element. Delivering such records after a baselining pass finds each
   * target alone, sees it settled, and changes nothing.
   */
  lemma OwnInsertionsIgnored(elems: map<NodeId, Element>, ids: seq<NodeId>, cb: Callback,
                             targets: seq<NodeId>, layout: NodeId -> Measure, className: string)
    requires !cb.Resize? && AllReady(elems, ids, cb, className)
    requires forall id :: id in ids ==> Marked(elems[id], className)
    requires forall t :: t in targets ==> t in ids
    ensures var r := Dispatch(elems, ids, cb, className);
      && (forall t :: t in targets ==> t in r)
      && AllFound(r, targets, className) == targets
      && Dispatch(r, targets, Mutation(layout), className) == r
  {
    var r := Dispatch(elems, ids, cb, className);
    BaselineWriteOnce(elems, ids, cb, className);
    AllFoundOfMarked(r, targets, className);
    SettledIgnored(r, targets, Mutation(layout), className);
  }

  /** `findNodes` reads only classes and descendants, which no callback changes. */
  lemma {:induction false} MatchingSameTree(a: map<NodeId, Element>, b: map<NodeId, Element>,
                                            ds: seq<NodeId>, className: string)
    requires a.Keys == b.Keys && forall id :: id in a ==> SameTree(a[id], b[id])
    ensures Matching(a, ds, className) == Matching(b, ds, className)
  {
    if ds != [] {
      MatchingSameTree(a, b, ds[1..], className);
    }
  }

  lemma FindNodesSameTree(a: map<NodeId, Element>, b: map<NodeId, Element>, target: NodeId, className: string)
    requires a.Keys == b.Keys && forall id :: id in a ==> SameTree(a[id], b[id])
    requires target in a
    ensures FindNodes(a, target, className) == FindNodes(b, target, className)
  {
    MatchingSameTree(a, b, a[target].descendants, className);
  }
}

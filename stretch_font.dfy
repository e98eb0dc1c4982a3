/**
 * The `useStretchFont(root, className)` closure as an object: the element
 * records it mutates, the `Nodes` list found at start-up, and whether the
 * observers exist yet. The three asynchronous callbacks are methods the host
 * calls directly, and each is proved to do what `Dispatch` says.
 */
module UseStretchFont {
  import opened Dom
  import opened Scaling
  import opened Baseline
  import opened Callbacks

  class StretchFont {
    const root: NodeId
    const className: string
    var elements: map<NodeId, Element>
    var nodes: seq<NodeId>   // the closure's `Nodes`
    var observing: bool      // the resize and mutation observers have been created

    ghost predicate Valid()
      reads this
    {
      && root in elements
      && WellFormed(elements, className)
      && (!observing ==> forall id :: id in elements ==> !elements[id].observed)
    }

    constructor (root: NodeId, className: string, elements: map<NodeId, Element>)
      requires root in elements && WellFormed(elements, className)
      requires forall id :: id in elements ==> !elements[id].observed
      ensures Valid()
      ensures this.root == root && this.className == className && this.elements == elements
      ensures nodes == [] && !observing
    {
      this.root := root;
      this.className := className;
      this.elements := elements;
      nodes := [];
      observing := false;
    }

    /** `saveFontSize`: true when the element was newly baselined. */
    method SaveFontSize(id: NodeId) returns (saved: bool)
      requires Valid() && id in elements && |elements[id].children| > 0
      modifies this
      ensures Valid() && nodes == old(nodes) && observing == old(observing)
      ensures id in elements && (elements[id], saved) == Save(old(elements)[id], className)
      ensures Settled(elements[id], className)
      ensures elements == old(elements)[id := elements[id]]
    {
      ghost var e0 := elements[id];
      if elements[id].fz.None? {
        elements := elements[id := elements[id].(fz := Some(ComputedFontSize(elements[id])))];
      }
      var e := elements[id];
      if IsSaveMarker(e.children[0], className) {
        saved := false;
      } else {
        elements := elements[id := e.(children := [Marker(className, e.innerText, e.fz)] + e.children)];
        saved := true;
      }
      SaveOnlyBaselines(e0, className);
      UpdatePreservesWellFormed(old(elements), id, elements[id], className);
    }

    /** `formula`: writes the clamped size as the element's inline font size and nothing else; a negative size is dropped. */
    method ApplyFormula(id: NodeId, m: Measure)
      requires Valid() && id in elements && elements[id].fz.Some?
      modifies this
      ensures Valid() && nodes == old(nodes) && observing == old(observing)
      ensures elements == old(elements)[id := Formula(old(elements)[id], m)]
    {
      var e := elements[id];
      var size := FormulaSize(e, m);
      if size >= 0.0 {
        elements := elements[id := e.(fontSize := Some(size))];
        UpdatePreservesWellFormed(old(elements), id, elements[id], className);
      }
    }

    /** `resizeObserver.observe(node)`, only ever called on a baselined element. */
    method Observe(id: NodeId)
      requires Valid() && observing && id in elements && Settled(elements[id], className)
      modifies this
      ensures Valid() && nodes == old(nodes) && observing == old(observing)
      ensures elements == old(elements)[id := old(elements)[id].(observed := true)]
    {
      elements := elements[id := elements[id].(observed := true)];
      UpdatePreservesWellFormed(old(elements), id, elements[id], className);
    }

    /** The DOMContentLoaded listener: find the elements, create the observers, baseline and observe. */
    method OnContentLoaded()
      requires Valid()
      modifies this
      ensures Valid() && observing
      ensures nodes == FindNodes(old(elements), root, className)
      ensures AllReady(old(elements), nodes, ContentLoaded, className)
      ensures elements == Dispatch(old(elements), nodes, ContentLoaded, className)
    {
      ghost var start := elements;
      nodes := FindNodes(elements, root, className);
      observing := true;
      MarkedReady(start, nodes, ContentLoaded, className);
      var i := 0;
      while i < |nodes|
        invariant 0 <= i <= |nodes| && Valid() && observing
        invariant nodes == FindNodes(start, root, className)
        invariant AllReady(start, nodes, ContentLoaded, className)
        invariant elements == Dispatch(start, nodes[..i], ContentLoaded, className)
      {
        DispatchPrefixStep(start, nodes, i, ContentLoaded, className);
        ContentLoadedNode(nodes[i]);
        i := i + 1;
      }
      DispatchWhole(start, nodes, ContentLoaded, className);
    }

    /** The DOMContentLoaded listener's work on one found element. */
    method ContentLoadedNode(id: NodeId)
      requires Valid() && observing && id in elements && |elements[id].children| > 0
      modifies this
      ensures Valid() && observing && nodes == old(nodes)
      ensures elements == old(elements)[id := Step(old(elements)[id], id, ContentLoaded, className)]
    {
      var saved := SaveFontSize(id);
      ghost var baselined := elements[id];
      assert Step(old(elements)[id], id, ContentLoaded, className)
          == if saved then baselined.(observed := true) else baselined;
      if !saved {
        return;
      }
      Observe(id);
      UpdateTwice(old(elements), id, baselined, elements[id]);
    }

    /** The mutation callback: each record's target in turn. */
    method OnMutation(targets: seq<NodeId>, layout: NodeId -> Measure)
      requires Valid() && observing
      requires forall t :: t in targets ==> t in elements
      modifies this
      ensures Valid() && observing && nodes == old(nodes)
      ensures AllReady(old(elements), AllFound(old(elements), targets, className), Mutation(layout), className)
      ensures elements == Dispatch(old(elements), AllFound(old(elements), targets, className), Mutation(layout), className)
    {
      ghost var start := elements;
      MutationTargetsWhole(start, targets, layout, className);
      var i := 0;
      while i < |targets|
        invariant 0 <= i <= |targets| && Valid() && observing && nodes == old(nodes)
        invariant forall t :: t in targets[..i] ==> t in start
        invariant AllReady(start, AllFound(start, targets[..i], className), Mutation(layout), className)
        invariant elements == Dispatch(start, AllFound(start, targets[..i], className), Mutation(layout), className)
      {
        MutationTargetStep(start, targets, i, layout, className);
        OnMutationTarget(targets[i], layout);
        i := i + 1;
      }
    }

    /** One mutation record: baseline what `findNodes(target)` returns; rescale and observe the newly baselined. */
    method OnMutationTarget(target: NodeId, layout: NodeId -> Measure)
      requires Valid() && observing && target in elements
      modifies this
      ensures Valid() && observing && nodes == old(nodes)
      ensures AllReady(old(elements), FindNodes(old(elements), target, className), Mutation(layout), className)
      ensures elements == Dispatch(old(elements), FindNodes(old(elements), target, className), Mutation(layout), className)
    {
      ghost var start := elements;
      var found := FindNodes(elements, target, className);
      MarkedReady(start, found, Mutation(layout), className);
      var j := 0;
      while j < |found|
        invariant 0 <= j <= |found| && Valid() && observing && nodes == old(nodes)
        invariant elements == Dispatch(start, found[..j], Mutation(layout), className)
      {
        DispatchPrefixStep(start, found, j, Mutation(layout), className);
        MutationNode(found[j], layout);
        j := j + 1;
      }
      DispatchWhole(start, found, Mutation(layout), className);
    }

    /** The mutation callback's work on one found element. */
    method MutationNode(id: NodeId, layout: NodeId -> Measure)
      requires Valid() && observing && id in elements && |elements[id].children| > 0
      modifies this
      ensures Valid() && observing && nodes == old(nodes)
      ensures elements == old(elements)[id := Step(old(elements)[id], id, Mutation(layout), className)]
    {
      var saved := SaveFontSize(id);
      ghost var baselined := elements[id];
      assert Step(old(elements)[id], id, Mutation(layout), className)
          == if saved then Formula(baselined, layout(id)).(observed := true) else baselined;
      if !saved {
        return;
      }
      ApplyFormula(id, layout(id));
      Observe(id);
      UpdateTwice(old(elements)[id := baselined], id, Formula(baselined, layout(id)), elements[id]);
      UpdateTwice(old(elements), id, baselined, elements[id]);
    }

    /** The resize callback (run on the next animation frame): rescale each entry's element. */
    method OnResize(entries: seq<NodeId>, layout: NodeId -> Measure)
      requires Valid()
      requires forall id :: id in entries ==> id in elements && elements[id].observed
      modifies this
      ensures Valid() && nodes == old(nodes) && observing == old(observing)
      ensures AllReady(old(elements), entries, Resize(layout), className)
      ensures elements == Dispatch(old(elements), entries, Resize(layout), className)
    {
      ghost var start := elements;
      ghost var cb := Resize(layout);
      ObservedReady(start, entries, layout, className);
      var i := 0;
      while i < |entries|
        invariant 0 <= i <= |entries| && Valid() && nodes == old(nodes) && observing == old(observing)
        invariant elements == Dispatch(start, entries[..i], cb, className)
      {
        DispatchPrefixStep(start, entries, i, cb, className);
        ResizeNode(entries[i], layout);
        i := i + 1;
      }
      DispatchWhole(start, entries, cb, className);
    }
  
    /** The resize callback's work on one entry: the formula alone. */
    method ResizeNode(id: NodeId, layout: NodeId -> Measure)
      requires Valid() && id in elements && elements[id].fz.Some?
      modifies this
      ensures Valid() && nodes == old(nodes) && observing == old(observing)
      ensures elements == old(elements)[id := Step(old(elements)[id], id, Resize(layout), className)]
    {
      ApplyFormula(id, layout(id));
    }
  }
}

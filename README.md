# stretch-font, modelled in Dafny

`useStretchFont(root, className)` makes the text of every element that carries
`className` track the width of its box. Each such element is *baselined*:

- its font size is saved as `data-fz`, once: a present `data-fz` is kept;
- a measuring child `<i class="<className>__save">` is put in front of it. This
  child holds the element's text at the baseline size. It is inserted again
  whenever it is no longer the first child (the page put a node in front of it
  or replaced the element's content). Hiding it is left to the page's style
  sheet.

From then on, the element's font size is its own width divided by the measuring
child's width, times the baseline size, times 0.97. The result is clamped by
the optional `data-stretch-max` and `data-stretch-min` attributes, `max` tested
first. A negative result is not a valid font size, so the browser ignores the
assignment. Three callbacks drive the work:

- the DOMContentLoaded scan baselines the elements found under `root` and
  observes only those it newly baselined. An element whose first child already
  is a measuring child (saved markup) is not observed, so it is not
  rescaled;
- the mutation callback baselines the elements found under each changed node.
  It rescales and observes only the elements it newly baselined. This is also
  what stops it from reprocessing an element after its own `<i>` insertion;
- the resize callback only rescales.

The model has five modules:

- `Dom` (dom.dfy): the element records. Each holds its classes, descendants,
  `data-fz`, bounds, child list, inline font size and resize-observer
  registration. It also defines the document invariant `WellFormed`.
- `Scaling` (scaling.dfy): bound resolution, clamping and the formula, as
  functions over `real`, with their lemmas.
- `Baseline` (baseline.dfy): `saveFontSize` as a function `Save` returning the
  new record and whether a measuring child was inserted, with its lemmas.
- `Callbacks` (callbacks.dfy): `findNodes`, the per-element `Step` of each
  callback, and `Dispatch`, the fold of a step over a list of ids. The lemmas
  prove which callback may run the formula and that the result does not depend
  on the order of the ids. They also prove that each element is processed once
  and that the callbacks' own insertions are ignored.
- `UseStretchFont` (stretch_font.dfy): the closure as a class `StretchFont`.
  It has the element map, the `Nodes` list and whether the observers exist.
  Its methods mirror the functions and `forEach` loops of stretch-font.js.
  Each callback method is proved equal to `Dispatch` of its step, and each
  keeps `Valid()`: an observed element always has its baseline. Its measuring
  child may have been displaced by the page; the mutation callback then
  re-baselines it.

The formula uses the single factor 0.97 and the element's width only. The
measuring child sits inside the element. The mutation observer watches
`childList` and `subtree` only, not text changes.

## Model

| member | source | states |
|---|---|---|
| Dom.ComputedFontSize | stretch-font.js:39-41 | the computed font size is never negative; an inline size wins over the cascaded one |
| Dom.PageReplacesContent | stretch-font.js:92 | the edit the mutation observer watches (a tracked element's children, innerText and descendants replaced, its measuring child gone) leaves the document well formed, so every callback can run on it |
| Scaling.Resolve | stretch-font.js:49-51 | a bound is unset exactly when its attribute is missing; an empty attribute resolves to fz, a number to itself |
| Scaling.Unclamped | stretch-font.js:53 | the ratio formula is non-negative for a non-negative baseline, and an element as wide as its measuring child gets fz × 0.97 |
| Scaling.Clamp | stretch-font.js:54 | the result is the computed size or one of the set bounds, and lies in [min, max] when both are set and ordered |
| Scaling.FormulaSize | stretch-font.js:49-54 | the size is the ratio formula or a resolved bound, and lies between the resolved bounds when they are ordered |
| Scaling.Formula | stretch-font.js:48-56 | only the inline font size changes; a non-negative size is written, a negative one leaves the element unchanged |
| Scaling.MaxWins | stretch-font.js:54 | a computed size above a set maximum becomes exactly the maximum, whatever the minimum |
| Scaling.MinApplies | stretch-font.js:54 | when the maximum does not fire, a computed size below a set minimum becomes exactly the minimum |
| Scaling.ClampKeepsInRange | stretch-font.js:54 | the computed size is applied unchanged if and only if it crosses no set bound |
| Scaling.ClampWithinBounds | stretch-font.js:54 | with both bounds set and min ≤ max, the applied size lies in [min, max] |
| Scaling.ClampInvertedBounds | stretch-font.js:54 | with min > max the result is max above max and min otherwise |
| Scaling.NoBoundsNoClamp | stretch-font.js:53 | with both bound attributes absent the size is width / first-child width × fz × 0.97 |
| Scaling.EmptyBoundsAreBaseline | stretch-font.js:49-54 | a present but empty bound resolves to the baseline fz: an empty max caps at fz, an empty min floors at fz |
| Scaling.FormulaWithinBounds | stretch-font.js:48-56 | with both bounds resolved and ordered, the written font size lies between them |
| Scaling.FormulaAlwaysWritten | stretch-font.js:48-56 | with a non-negative baseline and no negative bound, the computed size is always written |
| Scaling.NegativeMaxIgnored | stretch-font.js:54-55 | a negative `data-stretch-max` (and no non-negative min) yields a negative size, which is dropped: the element is unchanged |
| Scaling.FormulaOnlyWritesFontSize | stretch-font.js:48-56 | the formula changes only the inline font size (fz, bounds, children untouched) and is idempotent for unchanged layout |
| Scaling.UnclampedProportionalToWidth | stretch-font.js:53 | the unclamped size scales linearly with the element's width |
| Scaling.ExampleSizes | stretch-font.js:49-54 | 16px baseline at 3× the child width gives 46.56px; an empty max gives 16px; a min of 10 lifts 7.76px to 10px |
| Baseline.Marker | stretch-font.js:25-28 | the inserted child carries the save class, the element's text and the baseline font size |
| Baseline.Save | stretch-font.js:19-32 | the result is true iff the first child is not a measuring child; afterwards the element is settled and a present fz is kept |
| Baseline.SaveWriteOnce | stretch-font.js:20-22 | fz is captured from the computed font size only when absent; a present fz is kept |
| Baseline.SaveInsertsOneMarker | stretch-font.js:24-31 | the result is true iff the first child is not the save marker; then exactly one marker with font size fz and the element's text is put at position 0, otherwise the children are unchanged |
| Baseline.SaveOnlyBaselines | stretch-font.js:19-32 | saving changes only fz and the children and always leaves the element settled (fz set, marker first) |
| Baseline.SaveSettled | stretch-font.js:24 | on a settled element saving returns false and changes nothing |
| Baseline.SaveReinsertsMarker | stretch-font.js:24-29 | when the page has put another node in front of the measuring child, saving keeps fz and inserts a second measuring child in front |
| Baseline.SaveTwice | stretch-font.js:19-32 | a second consecutive call returns false and is a no-op |
| Callbacks.Matching | stretch-font.js:77 | the result holds exactly the listed ids that are elements carrying the class |
| Callbacks.FindNodes | stretch-font.js:75-78 | a target carrying the class is returned alone; otherwise exactly its class-carrying descendants, never the target itself |
| Callbacks.AllFound | stretch-font.js:85-86 | the elements found for a batch of mutation records are exactly the union of findNodes over the records' targets, and all carry the class |
| Callbacks.AllFoundOfMarked | stretch-font.js:76 | records whose targets carry the class find exactly those targets |
| Callbacks.Step | stretch-font.js:84-97 | each callback's per-element work keeps the tree and leaves a baselined element settled |
| Callbacks.Dispatch | stretch-font.js:84-97 | folding a callback's step over ids keeps the set of elements and their classes and descendants |
| Callbacks.StepIdempotent | stretch-font.js:19-56 | running a callback's work twice on one element equals running it once |
| Callbacks.DispatchClosedForm | stretch-font.js:84-97 | after a callback, each listed element has been stepped exactly once, whatever the order or repetitions; unlisted elements are untouched |
| Callbacks.DispatchAppend | stretch-font.js:85-86 | processing two batches one after the other equals processing their concatenation |
| Callbacks.BaselineWriteOnce | stretch-font.js:20-22 | no callback changes a baseline once set, and the baselining callbacks leave every visited element settled |
| Callbacks.MutationRescalesOnlyNewlyBaselined | stretch-font.js:86-90 | the mutation callback rescales and observes exactly the visited elements that lacked the marker; all others keep their font size and registration |
| Callbacks.ReplacedContentRebaselined | stretch-font.js:84-90 | after the page replaced an observed element's children, its mutation record re-baselines it: fz kept, a new measuring child in front of the new children, rescaled and still observed |
| Callbacks.EditedContentRemeasured | stretch-font.js:24-29 | after the page replaced a tracked element's content, its mutation record puts a measuring child holding the new text, at the kept baseline, in front of the new children, and the element stays observed |
| Callbacks.ContentLoadedNeverRescales | stretch-font.js:94-97 | the start-up scan never changes a font size and observes exactly the newly baselined elements |
| Callbacks.ResizeOnlyRescales | stretch-font.js:64-66 | each entry becomes Formula of itself: only its inline font size changes, to the formula's size when non-negative, and it stays unchanged when that size is negative; all other elements are untouched |
| Callbacks.SettledIgnored | stretch-font.js:87 | a baselining callback over settled elements changes nothing |
| Callbacks.OwnInsertionsIgnored | stretch-font.js:84-97 | mutation records targeting elements the callbacks have just baselined find each target alone and change nothing |
| Callbacks.FindNodesSameTree | stretch-font.js:75-78 | findNodes reads only classes and descendants, so the callbacks never change what it finds |
| UseStretchFont.StretchFont.constructor | stretch-font.js:10-12 | the closure starts with no found nodes and no observers, over a well-formed document where nothing is observed |
| UseStretchFont.StretchFont.SaveFontSize | stretch-font.js:19-32 | updates only the element's record, to Save's result, returns Save's flag, and keeps Valid |
| UseStretchFont.StretchFont.ApplyFormula | stretch-font.js:48-56 | leaves the elements as Formula of the element: only its inline font size changes, and a negative size is dropped |
| UseStretchFont.StretchFont.Observe | stretch-font.js:89 | registers only a settled element for resizing |
| UseStretchFont.StretchFont.OnContentLoaded | stretch-font.js:80-98 | stores findNodes(root) as Nodes, creates the observers, and leaves the elements as the start-up Dispatch over Nodes |
| UseStretchFont.StretchFont.ContentLoadedNode | stretch-font.js:94-97 | one scanned element: save, then observe only if newly baselined |
| UseStretchFont.StretchFont.OnMutation | stretch-font.js:84-92 | leaves the elements as the mutation Dispatch over everything found for the records' targets, in order |
| UseStretchFont.StretchFont.OnMutationTarget | stretch-font.js:85-91 | one record: the mutation Dispatch over findNodes(target) |
| UseStretchFont.StretchFont.MutationNode | stretch-font.js:86-90 | one found element: save; formula and observe only if newly baselined |
| UseStretchFont.StretchFont.OnResize | stretch-font.js:64-66 | leaves the elements as the resize Dispatch over the entries |
| UseStretchFont.StretchFont.ResizeNode | stretch-font.js:65 | one entry: the formula alone |

## Left out

- Layout is an input. `offsetWidth` of an element and of its first child come
  from a `layout` function carried by the mutation and resize callback values.
  Reflow between reads and the marker's real rendered width are not modelled.
- The first child's width is a positive real. stretch-font.js does not guard a
  zero width, so a `NaN`/`Infinity` font size is outside the model.
- A marked element must have a first child (part of `WellFormed`).
  stretch-font.js throws on a null `firstChild`.
- Baseline.Marker: the marker's inline size is fz as stored. A negative
  `data-fz` written by the page would be rejected by the browser; that is not
  modelled for the marker.
- `querySelectorAll` is abstracted: each element record lists its element
  descendants in document order, and findNodes filters that list.
- `getComputedStyle` is abstracted: the computed font size is the inline size
  if any, else a per-element `cascadedFontSize`.
- Attribute strings are already parsed. The `"px"` suffix strip, unary `+` and
  `NaN` from non-numeric attributes are not modelled. An empty `data-fz` is
  treated like a missing one.
- The marker copies the element's `innerText` as a plain string. stretch-font.js
  assigns that text to the marker's `innerHTML`, so markup characters in it are
  parsed again; the model does not capture that re-parsing. The marker's
  effect on the element's own `innerText` is not modelled either.
- Arithmetic uses Dafny `real`; IEEE double rounding is not modelled.
- Observer scheduling is not modelled: `ResizeObserver`, `MutationObserver`,
  `requestAnimationFrame`, the DOMContentLoaded event, and the resize
  observer's first notification after `observe`. The callbacks are methods
  called directly. The mutation callback receives the records' targets after
  the page's own edits. Of those edits only the replacement of an element's
  content (children, `innerText`, descendants) is stated
  (Dom.PageReplacesContent); adding or removing elements is not modelled.
- Callbacks.FindNodes: the contract states membership, not that the matches
  keep document order. By Callbacks.DispatchClosedForm, the final state does
  not depend on that order.
- Default arguments (`root = document`, `className = "stretch-font"`), the
  module export and rollup.config.js (build configuration) are not part of
  this model.

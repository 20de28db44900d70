# Outfit board: a Dafny model of the item-manipulation engine

The outfit board is an embeddable editor. Image items are placed on a bounded
board and dragged, resized, rotated, layered, hidden, flipped, duplicated and
exported. The repository holds two controllers and a canvas view:

- `src/components/OutfitBoard/index.js` is a single-file controller. It has a
  pointer session (drag, resize or rotate) kept in three boolean flags, grid
  snapping, and an aspect-locked resize with a 50-unit floor. It also
  auto-imports the `inputImages` prop and latches the export trigger.
- `outfit-board/src/components/OutfitBoard/index.js` is a class controller. It
  turns heterogeneous image references into URLs (`normalizeImageValue`),
  imports them without duplicating sources, and implements the toolbar
  commands: delete, z-order, opacity, visibility, flip, rotate-by and
  duplicate.
- `outfit-board/src/components/OutfitBoard/OutfitBoard.web.js` is the web
  canvas view. It has a second normalizer and reports drags and transforms back
  to the controller. It applies the transformer's bound-box veto and draws the
  visible items in ascending `zIndex` order.

The model is functional. An immutable `Item` record lives in a `seq<Item>`, and
every handler is a pure function from the old state to the new one. Modules:

| module | file | what it holds |
|---|---|---|
| `Base` | base.dfy | `Option`, `Math.max/min/abs/round` on reals |
| `Js` | js.dfy | the JavaScript values a host passes as image references, truthiness and the `or` operator |
| `Items` | items.dfy | the item record, `updateItem`'s partial merge, look-ups by id and source, max/min `zIndex` |
| `Store` | store.dfy | delete, bring-forward, send-backward, opacity and the `initialState` snapshot, identical in both controllers |
| `Geometry` | geometry.dfy | snapping, the drag clamp, the aspect-locked resize, rotation offsets |
| `Session` | session.dfy | the single-file controller's pointer session and input-image merge |
| `Normalize` | normalize.dfy | both `normalizeImageValue` helpers |
| `Controller` | controller.dfy | the class controller's import, toolbar commands and prop reactions |
| `CanvasView` | canvas_view.dfy | transform and drag ends, the bound-box veto, render order |
| `ExportEdge` | export_edge.dfy | when an export fires, in both front ends |

Inputs the code gets from its environment become parameters:

- pointer coordinates are board-local points;
- the pointer's angle about the rotation pivot (`Math.atan2` in degrees) is a real the caller supplies;
- ids made from `Date.now()` / `Math.random()` are given;
- `JSON.parse` is a `Parsed` value;
- whether an image has finished loading is a set of loaded sources;
- whether the board is mounted is a boolean.

## Model

| member | source | states |
|---|---|---|
| Base.Round | src/components/OutfitBoard/index.js:129 | `Math.round` gives the integer within half a unit of its argument, halves rounding up |
| Js.Or | outfit-board/src/components/OutfitBoard/index.js:46 | `a || b` is `a` when `a` is truthy and `b` otherwise, so it is truthy exactly when one operand is |
| Items.Placed | outfit-board/src/components/OutfitBoard/index.js:139-154 | a new item is square, at (offset, offset), unrotated, opaque, visible, unflipped, with scale (1, 1) |
| Items.Merge | outfit-board/src/components/OutfitBoard/index.js:193 | `{ ...item, ...updates }` keeps id and source and takes each field from the update when present, else from the item |
| Items.MergeThen | src/components/OutfitBoard/index.js:134 | merging two updates in turn is merging one update in which the later fields win |
| Items.UpdateItem | outfit-board/src/components/OutfitBoard/index.js:190-196 | `updateItem` keeps length and order, merges every item with the id, and leaves every other item as it was |
| Items.UpdateKeepsIds | src/components/OutfitBoard/index.js:132-136 | `updateItem` never changes any item's id or source |
| Items.UpdateAbsentIsIdentity | outfit-board/src/components/OutfitBoard/index.js:190-196 | updating an id that no item carries is a no-op |
| Items.UpdateFixed | outfit-board/src/components/OutfitBoard/index.js:190-196 | an update that every matching item already agrees with leaves the list as it was |
| Items.UpdateTwice | src/components/OutfitBoard/index.js:132-136 | two updates of one id equal one update with the composed patch |
| Items.FindIndex | src/components/OutfitBoard/index.js:180 | `items.find` by id returns the first item with that id, and finds nothing exactly when the id is absent |
| Items.FindIndexAfterUpdate | src/components/OutfitBoard/index.js:180 | after an update, the find by id lands on the same position as before |
| Items.MaxZ | src/components/OutfitBoard/index.js:245 | `Math.max` over the zIndex values bounds every item's zIndex and is attained by one |
| Items.MinZ | src/components/OutfitBoard/index.js:255 | `Math.min` over the zIndex values bounds every item's zIndex from below and is attained by one |
| Store.RemoveId | src/components/OutfitBoard/index.js:236 | the filter keeps exactly the items whose id differs, and none with the removed id; a list without that id comes back unchanged |
| Store.RemoveIdConcat | src/components/OutfitBoard/index.js:236 | filtering a concatenation filters each part, so survivors keep their order and their number of copies |
| Store.Delete | src/components/OutfitBoard/index.js:234-239 | with a selection, every item with that id goes and the selection clears; without one nothing changes |
| Store.DeleteKeepsOrder | src/components/OutfitBoard/index.js:234-239 | deleting from a concatenation deletes from each part, so the remaining items keep their order |
| Store.BringForward | src/components/OutfitBoard/index.js:241-249 | every item with the selected id gets zIndex one above the old maximum and no other field or item changes; a missing selection or stale id changes nothing |
| Store.SendBackward | src/components/OutfitBoard/index.js:251-261 | the selected item's zIndex drops by exactly one, never below the minimum, only when above the minimum; otherwise nothing changes |
| Store.SendBackwardCanDuplicateZ | src/components/OutfitBoard/index.js:256-257 | sending back the item at zIndex 2 over one at zIndex 1 leaves both at 1 |
| Store.SetOpacity | src/components/OutfitBoard/index.js:263-267 | with a selection, every item with the id gets the new opacity and nothing else changes |
| Store.ApplyInitialState | src/components/OutfitBoard/index.js:48-59 | a non-empty snapshot that parses to an array replaces the items; an empty, non-array or unparseable one leaves them |
| Store.ApplyInitialStateIdempotent | src/components/OutfitBoard/index.js:48-59 | applying the same snapshot twice is applying it once |
| Store.ApplyInitialStateForgetsBoard | src/components/OutfitBoard/index.js:48-59 | a usable snapshot gives the same board whatever was there before |
| Store.MalformedSnapshotKeepsEmptyBoard | src/components/OutfitBoard/index.js:48-59 | a malformed snapshot on a fresh board leaves it empty |
| Geometry.Snap | src/components/OutfitBoard/index.js:127-130 | with the grid off the value is unchanged; with it on the result is the multiple of the grid size whose quotient k satisfies value/size − 0.5 < k ≤ value/size + 0.5, which is `Math.round` with halves rounded up |
| Geometry.SnapRoundsHalfUp | src/components/OutfitBoard/index.js:127-130 | a value half a step between two multiples goes to the upper one: 30 → 40 and −30 → −20 on a 20-unit grid, 7.5° → 15° |
| Geometry.SnapIdempotent | src/components/OutfitBoard/index.js:127-130 | snapping a snapped value changes nothing |
| Geometry.ClampToBoard | src/components/OutfitBoard/index.js:186-187 | a value below 0 becomes 0, one above the limit becomes max(0, limit), and one in [0, limit] is kept |
| Geometry.DragAxis | src/components/OutfitBoard/index.js:184-187 | the dragged coordinate is the snapped pointer-minus-offset when that is in [0, board − size], 0 when it is below and max(0, board − size) when it is above |
| Geometry.DragClampExample | src/components/OutfitBoard/index.js:184-188 | a 200 by 200 item on a 640 by 480 board dragged to (1000, 1000) stops at (440, 280) |
| Geometry.KeepAspect | src/components/OutfitBoard/index.js:190-199 | for a positive start size the width is the floored new width unless the height hit the floor, both sides are at least 50, and the start aspect ratio holds in both branches; the vertical delta plays no part |
| Geometry.KeepAspectExample | src/components/OutfitBoard/index.js:190-199 | start (200, 100) with delta 50 gives (250, 125) |
| Geometry.ResizeTo | src/components/OutfitBoard/index.js:201-207 | after snapping, a side that overruns the board is cut to board edge minus position and one that fits is kept, so x + width ≤ board width and y + height ≤ board height |
| Geometry.ResizeSnapBreaksFloor | src/components/OutfitBoard/index.js:196-202 | with a 40-unit grid, a 50 by 50 start becomes 40 by 40, below the floor |
| Geometry.RotationOffset | src/components/OutfitBoard/index.js:165-167 | the recorded offset is the pointer angle minus the rotation, so subtracting it from that angle gives back the rotation |
| Geometry.RotateTo | src/components/OutfitBoard/index.js:211-212 | with the grid off the rotation is angle minus offset; with it on it is that value rounded, halves up, to a multiple of 15 |
| Geometry.RotationComposes | src/components/OutfitBoard/index.js:210-213 | with the grid off a rotate move adds the change in pointer angle to the starting rotation, and an unmoved pointer keeps the rotation |
| Session.PointerDown | src/components/OutfitBoard/index.js:138-172 | pointer-down selects the item, raises the flag for its mode and records the drag offset, the resize start or the rotation pivot and offset; the other two flags and their records, and the items, are untouched |
| Session.PointerDownFromIdle | src/components/OutfitBoard/index.js:144-171 | from an idle board exactly one session flag is up afterwards, the one asked for |
| Session.OverlappingSessions | src/components/OutfitBoard/index.js:144-159 | a resize pointer-down during a drag leaves two flags up and moves keep dragging |
| Session.PointerUp | src/components/OutfitBoard/index.js:217-221 | pointer-up drops all three flags and changes nothing else |
| Session.BackgroundPointerDown | src/components/OutfitBoard/index.js:278-282 | a pointer-down on the board background clears the selection only |
| Session.PointerMove | src/components/OutfitBoard/index.js:174-215 | with no selection, a stale id or no session nothing changes; the selection, the session and the item count are kept, and items without the selected id are untouched (the new values are stated by the three members below) |
| Session.DragItems | src/components/OutfitBoard/index.js:184-188 | the drag branch moves exactly the items with the target's id, to the `Geometry.DragAxis` position on each axis |
| Session.ResizeItems | src/components/OutfitBoard/index.js:189-209 | the resize branch resizes exactly the items with the target's id, to the `Geometry.ResizeTo` size |
| Session.RotateItems | src/components/OutfitBoard/index.js:210-213 | the rotate branch turns exactly the items with the target's id, to the `Geometry.RotateTo` angle |
| Session.PointerMoveDrags | src/components/OutfitBoard/index.js:184-188 | a drag move sets each item with the selected id to the snapped, clamped pointer-minus-offset of `Geometry.DragAxis` on both axes, so it lies in [0, max(0, board − size)]; only the position changes |
| Session.PointerMoveResizes | src/components/OutfitBoard/index.js:189-209 | a resize move gives each item with the selected id the size `Geometry.ResizeTo` computes from the start size and the horizontal pointer travel (aspect lock, floor, snap, edge cap); only the size changes and the right and bottom edges stay on the board |
| Session.PointerMoveRotates | src/components/OutfitBoard/index.js:210-213 | a rotate move sets the rotation of each item with the selected id to `Geometry.RotateTo` of the pointer angle and the recorded offset; nothing else changes |
| Session.MoveAfterUpIsNoop | src/components/OutfitBoard/index.js:183-214 | after pointer-up a move changes nothing |
| Session.RotateSessionRoundTrip | src/components/OutfitBoard/index.js:160-213 | a rotate session whose pointer has not moved, with the grid off, leaves the items as they were |
| Session.DragSessionStill | src/components/OutfitBoard/index.js:144-188 | a drag whose pointer has not moved, with the grid off, leaves an on-board item where it was |
| Session.DeleteSelected | src/components/OutfitBoard/index.js:234-239 | after delete, no item carries the selected id |
| Session.FindBySrc | src/components/OutfitBoard/index.js:64 | the find by source returns an item of the list with that source, and nothing exactly when no item has it |
| Session.FindSrcIndex | src/components/OutfitBoard/index.js:64 | the index found holds the source and no earlier index does; nothing is found exactly when no item has the source |
| Session.FindBySrcIsFirst | src/components/OutfitBoard/index.js:64 | the find by source returns the item at the first index holding that source |
| Session.Candidate | src/components/OutfitBoard/index.js:64-77 | an entry whose source is on the board maps to an item of the board with that source, else to a new 120 by 120 item at 50 + 60·index with zIndex count + index + 1 |
| Session.Candidates | src/components/OutfitBoard/index.js:63-78 | `newItems` has one entry per prop entry, in order, and entry j is the candidate for the j-th source with the j-th id |
| Session.AppendNewIds | src/components/OutfitBoard/index.js:80-88 | the merge keeps the old list as a prefix and appends only candidates whose id is not yet present |
| Session.AppendNewIdsUnique | src/components/OutfitBoard/index.js:80-88 | the merge never introduces a duplicate id |
| Session.AppendNewIdsCovers | src/components/OutfitBoard/index.js:80-88 | after the merge step every candidate's id is present on the board |
| Session.AppendNewIdsKeeps | src/components/OutfitBoard/index.js:80-88 | a candidate whose id is new and not shared with an earlier candidate is itself appended |
| Session.AppendNewIdsInOrder | src/components/OutfitBoard/index.js:80-88 | the appended items are a subsequence of the candidates: they keep candidate order and each occurrence is pushed at most once |
| Session.AppendNewIdsAscending | src/components/OutfitBoard/index.js:80-88 | when the candidates with a new id rise in zIndex, so do the appended items |
| Session.MergeEffect | src/components/OutfitBoard/index.js:61-90 | with the closure's list and the updater's list kept apart: the updater's list stays as a prefix, and the appended items are a subsequence of `newItems` built from the closure's list, each with a new id and a source from the prop, an item of the closure's list or one with a source it lacks |
| Session.MergeInputImages | src/components/OutfitBoard/index.js:61-90 | when both lists are the same board: earlier items stay as an unchanged prefix; every appended item has a source from the prop that no earlier item had and a new id, and zIndex rises along the appended items, so they come in entry order, at most one per entry |
| Session.MergeInputImagesAppendsImports | src/components/OutfitBoard/index.js:66-77 | every appended item is the new 120 by 120 item made for some entry j: id ids[j], source images[j], position 50 + 60·j, zIndex count + j + 1 |
| Session.FreshCandidateIsImport | src/components/OutfitBoard/index.js:63-78 | a `newItems` entry whose id is not on the board is the freshly made item for that entry |
| Session.MergeImportsEverySource | src/components/OutfitBoard/index.js:61-90 | with fresh, pairwise distinct ids every source in the prop is on the board afterwards |
| Session.MountEffectCanDuplicateSource | src/components/OutfitBoard/index.js:48-90 | on mount the image effect checks sources against the empty initial list but appends to the snapshot, so a source in both ends up twice |
| Session.MergeAllPresentAddsNothing | src/components/OutfitBoard/index.js:61-90 | once every source in the prop is on the board, the effect adds nothing |
| Session.SameBatchNotDeduplicated | src/components/OutfitBoard/index.js:63-86 | two entries with the same new source in one batch both become items |
| Normalize.NormalizeImageValue | outfit-board/src/components/OutfitBoard/index.js:10-61 | falsy values other than 0 give null, a string gives itself, a number gives a null URL, a string `uri` wins; any URL returned is a non-empty string taken from the input |
| Normalize.NormalizeFieldPriority | outfit-board/src/components/OutfitBoard/index.js:24-42 | object fields are tried in the order `uri`, `image.uri`, `data.uri`, `url` |
| Normalize.MaybeUriIsRedundant | outfit-board/src/components/OutfitBoard/index.js:44-49 | the `maybeUri` probe never finds a URL the four earlier probes missed |
| Normalize.WebNormalizeImageValue | outfit-board/src/components/OutfitBoard/OutfitBoard.web.js:9-45 | every falsy value, 0 included, gives null; a string gives itself; a string `uri` wins; a non-zero number gives a null URL; any URL is truthy |
| Normalize.NormalizersAgree | outfit-board/src/components/OutfitBoard/OutfitBoard.web.js:15-25 | on strings and on objects with a string `uri` both normalizers give the same URL |
| Normalize.NormalizersDisagreeOnZero | outfit-board/src/components/OutfitBoard/OutfitBoard.web.js:15 | on 0 the controller returns a URL-less result and the canvas view returns nothing |
| Normalize.NestedUriNotChecked | outfit-board/src/components/OutfitBoard/OutfitBoard.web.js:28-30 | the canvas view takes a non-string nested `image.uri` as the URL, where the controller falls back to `String(img)` |
| Controller.NewItems | outfit-board/src/components/OutfitBoard/index.js:132-155 | every new item is the 200 by 200 import of an accepted entry (URL present, no item with it), and every accepted entry yields its import |
| Controller.NewItemsAscending | outfit-board/src/components/OutfitBoard/index.js:132-155 | the new items' zIndex values rise strictly along the list, so they come in entry order and no entry yields two |
| Controller.NewItemsCount | outfit-board/src/components/OutfitBoard/index.js:132-155 | there are exactly as many new items as accepted entries |
| Controller.AddImagesFromList | outfit-board/src/components/OutfitBoard/index.js:129-162 | a missing list changes nothing; otherwise the old items stay as a prefix, followed by exactly the imports of the accepted entries, each present, in entry order |
| Controller.ReimportAddsNothing | outfit-board/src/components/OutfitBoard/index.js:129-162 | importing the same list a second time adds nothing |
| Controller.SameBatchNotDeduplicated | outfit-board/src/components/OutfitBoard/index.js:132-155 | two entries with the same new URL in one batch both become items |
| Controller.AddImageToCanvas | outfit-board/src/components/OutfitBoard/index.js:164-188 | an entry without URL changes nothing; otherwise the old items stay and the one appended item is the import a bulk import onto an empty board makes for entry number count, and its id becomes the selection |
| Controller.AddImageToCanvasSelectsNew | outfit-board/src/components/OutfitBoard/index.js:164-188 | with a fresh id the selection names the new item, whose source is the entry's URL |
| Controller.AddImageToCanvasKeepsIdsUnique | outfit-board/src/components/OutfitBoard/index.js:164-188 | with a fresh id, adding by hand keeps ids unique |
| Controller.AddImageToCanvasDoesNotDeduplicate | outfit-board/src/components/OutfitBoard/index.js:164-188 | adding the same image twice by hand gives two items with that source |
| Controller.ToggleVisibility | outfit-board/src/components/OutfitBoard/index.js:243-251 | without a selection, or with a stale one, nothing changes; the selection and the item count are always kept |
| Controller.ToggleVisibilitySetsSelected | outfit-board/src/components/OutfitBoard/index.js:243-251 | every item with the selected id takes the negation of the first one's `visible`; nothing else changes |
| Controller.ToggleVisibilityTwice | outfit-board/src/components/OutfitBoard/index.js:243-251 | with unique ids, toggling twice restores the board |
| Controller.Flip | outfit-board/src/components/OutfitBoard/index.js:253-264 | without a selection, or with a stale one, nothing changes; the selection and the item count are always kept |
| Controller.FlipSetsSelected | outfit-board/src/components/OutfitBoard/index.js:253-264 | every item with the selected id takes the negation of the first one's `flipped` and ends with `scaleX` = -1 exactly when flipped; nothing else changes |
| Controller.FlipPreservesConsistency | outfit-board/src/components/OutfitBoard/index.js:253-264 | if every item's `scaleX` matches its `flipped`, that still holds after a flip |
| Controller.FlipTwice | outfit-board/src/components/OutfitBoard/index.js:253-264 | with unique ids and a consistent selected item, two flips restore the board |
| Controller.RotateBy | outfit-board/src/components/OutfitBoard/index.js:266-274 | without a selection, or with a stale one, nothing changes; the selection and the item count are always kept |
| Controller.RotateByTurnsSelected | outfit-board/src/components/OutfitBoard/index.js:266-274 | every item with the selected id takes the first one's rotation plus the degrees, without reduction; nothing else changes |
| Controller.RotateByComposes | outfit-board/src/components/OutfitBoard/index.js:266-274 | rotating by a then by b is rotating by a + b |
| Controller.ThreeQuarterTurns | outfit-board/src/components/OutfitBoard/index.js:266-274 | three 90° rotations from 0 give 270 |
| Controller.Duplicate | outfit-board/src/components/OutfitBoard/index.js:276-294 | appends a copy differing only in the new id, x + 20, y + 20 and zIndex one above the old maximum, and selects it; the old items stay |
| Controller.DuplicateKeepsIdsUnique | outfit-board/src/components/OutfitBoard/index.js:276-294 | with a fresh id, duplicating keeps ids unique |
| Controller.Mount | outfit-board/src/components/OutfitBoard/index.js:70-88 | the snapshot's items stay as a prefix; after them every item is an import of an entry, every entry with a URL has its import there, and zIndex rises along them, so they come in entry order, once each; without a usable snapshot mounting is a plain import onto an empty board |
| Controller.MountCanDuplicateSource | outfit-board/src/components/OutfitBoard/index.js:70-88 | an image both in the snapshot and in the list is on the board twice after mounting |
| Controller.OnInputImagesChanged | outfit-board/src/components/OutfitBoard/index.js:95-111 | the list is imported only when it changed (presence, length or some entry's URL) and is non-empty |
| Controller.SamePropsImportNothing | outfit-board/src/components/OutfitBoard/index.js:95-111 | an update with the same list imports nothing |
| Controller.OnInitialStateChanged | outfit-board/src/components/OutfitBoard/index.js:117-126 | an unchanged snapshot string leaves the items; a changed one goes through the snapshot handling |
| Controller.InitialStateChangeActsAsMount | outfit-board/src/components/OutfitBoard/index.js:117-126 | a changed, usable snapshot gives the board that mounting with it and no image list gives |
| Controller.InitialStateChangeIdempotent | outfit-board/src/components/OutfitBoard/index.js:117-126 | handling the same snapshot change twice is handling it once |
| CanvasView.TransformEndSize | outfit-board/src/components/OutfitBoard/OutfitBoard.web.js:92-93 | each side is the stored side times the node's scale, or 50 when that is smaller, so both are at least 50 whatever the scale's sign |
| CanvasView.Transformed | outfit-board/src/components/OutfitBoard/OutfitBoard.web.js:79-95 | the reported item takes position and rotation from the node and exactly the `TransformEndSize` size, and keeps every other field |
| CanvasView.Dragged | outfit-board/src/components/OutfitBoard/OutfitBoard.web.js:72-78 | the reported item takes the node's position and keeps every other field |
| CanvasView.Forwarded | outfit-board/src/components/OutfitBoard/OutfitBoard.web.js:119-127 | only x, y, rotation, width and height are forwarded to `updateItem` |
| CanvasView.ForwardedRoundTrip | outfit-board/src/components/OutfitBoard/OutfitBoard.web.js:119-127 | merging the forwarded fields into the stored item rebuilds the reported item whenever the two agree on the other fields |
| CanvasView.TransformEnd | outfit-board/src/components/OutfitBoard/OutfitBoard.web.js:79-94 | items with the id get the node's position and rotation and exactly the `TransformEndSize` size (each side max(50, side × scale)), and keep everything else; other items and all ids stay |
| CanvasView.DragEnd | outfit-board/src/components/OutfitBoard/OutfitBoard.web.js:72-78 | items with the id get the new position, with rotation and size resent from the drawn item; other items and all ids stay |
| CanvasView.DragEndMovesOnly | outfit-board/src/components/OutfitBoard/OutfitBoard.web.js:72-78 | dragging the current copy of an item with a unique id changes its position only |
| CanvasView.TransformEndKeepsFloor | outfit-board/src/components/OutfitBoard/OutfitBoard.web.js:92-93 | if every item is at least 50 by 50, that holds after a transform end |
| CanvasView.MirroredTransformCollapsesSide | outfit-board/src/components/OutfitBoard/OutfitBoard.web.js:92-93 | a node reporting scale −1 on an axis returns that side as 50, even with no resize |
| CanvasView.IntendedTransformEndSize | outfit-board/src/components/OutfitBoard/OutfitBoard.web.js:92-93 | the intended size uses the scale's magnitude: at least 50, and the stored side times it when that is at least 50 |
| CanvasView.IntendedSizeIgnoresMirror | outfit-board/src/components/OutfitBoard/OutfitBoard.web.js:92-93 | the intended size is the same whatever the signs of the node's scales |
| CanvasView.IntendedTransformKeepsUntouchedSize | outfit-board/src/components/OutfitBoard/OutfitBoard.web.js:92-93 | with the intended size, a transform whose scale stays at ±1 keeps an item's size |
| CanvasView.BoundBox | outfit-board/src/components/OutfitBoard/OutfitBoard.web.js:274-279 | the new box is accepted exactly when both sides are at least 50 in magnitude, else the old box stays |
| CanvasView.BoundBoxKeepsFloor | outfit-board/src/components/OutfitBoard/OutfitBoard.web.js:274-279 | starting from a box above the floor, any sequence of proposals keeps the box above the floor |
| CanvasView.SortByZ | outfit-board/src/components/OutfitBoard/OutfitBoard.web.js:160 | the sorted copy is ascending by zIndex and a permutation of the items |
| CanvasView.SortByZStable | outfit-board/src/components/OutfitBoard/OutfitBoard.web.js:160 | items with equal zIndex keep their relative order |
| CanvasView.Drawable | outfit-board/src/components/OutfitBoard/OutfitBoard.web.js:58 | an item is drawn exactly when it is visible and its image has loaded, and ascending order is kept |
| CanvasView.DrawableConcat | outfit-board/src/components/OutfitBoard/OutfitBoard.web.js:58 | drawing a concatenation draws each part, so drawn items keep their order |
| CanvasView.DrawableCount | outfit-board/src/components/OutfitBoard/OutfitBoard.web.js:58 | a visible, loaded item is drawn once per occurrence; any other item is not drawn |
| CanvasView.DrawableWithZ | outfit-board/src/components/OutfitBoard/OutfitBoard.web.js:58 | filtering by visibility and filtering by zIndex commute |
| CanvasView.Rendered | outfit-board/src/components/OutfitBoard/OutfitBoard.web.js:160 | the layer holds exactly the visible, loaded items, ascending by zIndex |
| CanvasView.RenderedCount | outfit-board/src/components/OutfitBoard/OutfitBoard.web.js:160 | the layer draws every visible, loaded item exactly as often as the board holds it, and nothing else |
| CanvasView.RenderedKeepsTies | outfit-board/src/components/OutfitBoard/OutfitBoard.web.js:160 | drawn items sharing a zIndex appear in board order |
| CanvasView.HiddenNotRendered | outfit-board/src/components/OutfitBoard/OutfitBoard.web.js:58 | a hidden item is not drawn |
| ExportEdge.LatchStep | src/components/OutfitBoard/index.js:98-105 | an export fires exactly when the trigger is set, the latch is clear and the board is mounted; a false trigger clears the latch |
| ExportEdge.WebFires | outfit-board/src/components/OutfitBoard/OutfitBoard.web.js:114-116 | the canvas view exports exactly when the trigger just became truthy and the stage and callback exist |
| ExportEdge.LatchCountsRisingEdges | src/components/OutfitBoard/index.js:98-105 | on a mounted board the controller exports once per rising edge of the trigger |
| ExportEdge.WebCountsRisingEdges | outfit-board/src/components/OutfitBoard/OutfitBoard.web.js:111-117 | the canvas view exports once per rising edge too, as often as the controller's latch does |
| ExportEdge.HeldTriggerExportsOnce | src/components/OutfitBoard/index.js:98-105 | a trigger that stays true exports once |
| ExportEdge.ExportAtMount | src/components/OutfitBoard/index.js:98-105 | the controller's effect also runs on mount with a clear latch, so it exports once more than the canvas view exactly when the trigger is already true at mount |
| ExportEdge.TriggerHeldAtMount | outfit-board/src/components/OutfitBoard/OutfitBoard.web.js:111-117 | a trigger true from mount on is exported once by the controller and never by the canvas view, which compares only on updates |

The delete, z-order and opacity handlers of the class controller
(outfit-board/src/components/OutfitBoard/index.js:202-241) do what those of
the single-file controller do, so the `Store` members model both. The same
holds for `updateItem` (lines 190-196 and src/components/OutfitBoard/index.js:132-136).

## Behaviour worth knowing


- `updateItem` does not clamp width or height to 50. The floor holds only where a caller enforces it.
- In the resize move, the 50-unit floor holds before snapping and capping, not after (`Geometry.ResizeSnapBreaksFloor`).
- Rotation snaps to 15° only when the grid is enabled.
- `sendBackward` can give two items the same zIndex, so zIndex values are not unique (`Store.SendBackwardCanDuplicateZ`).
- `pointerDown` does not lower the other session flags, so two sessions can be active (`Session.OverlappingSessions`). Exactly one is active only when starting from idle.
- A malformed snapshot keeps the prior items rather than emptying the board. On a fresh board the two coincide.
- Re-import de-duplicates against items already on the board, not within one batch. On mount it checks against the empty pre-snapshot list, so a source can end up on the board twice (`Controller.MountCanDuplicateSource`).
- The single-file controller's image effect looks sources up in the list its closure captured and merges into the list the state updater receives. On mount these differ: the first is empty and the second holds the snapshot, so the same doubling happens there (`Session.MergeEffect`, `Session.MountEffectCanDuplicateSource`).
- On mount the single-file controller exports a trigger that is already true; the canvas view has no mount hook and does not (`ExportEdge.ExportAtMount`).

## Findings

| source | as written | input that shows it | evidently intended | confidence | as-written member | corrected member |
|---|---|---|---|---|---|---|
| outfit-board/src/components/OutfitBoard/OutfitBoard.web.js:92-93 | each side is `Math.max(50, side * node scale)`. The group of a flipped item is drawn with scale −1, and a mirrored group reports a negative scale on one axis | a 200 by 200 flipped item whose transform leaves the node's scale at (−1, 1) comes back 50 by 200 | the side follows the magnitude of the scale, so mirroring does not shrink the item | medium; not executed | CanvasView.MirroredTransformCollapsesSide | CanvasView.IntendedTransformEndSize |

`CanvasView.TransformEnd` models the code as written. `CanvasView.IntendedTransformKeepsUntouchedSize`
and `CanvasView.IntendedSizeIgnoresMirror` state the corrected behaviour.

## Left out

- Rendering, styling, React/React Native/Konva wiring, `useImage`, the Transformer attachment, the image gallery and the DOM listener attach/detach: presentation only.
- Raster export (`html2canvas`, `toDataURL`), the `onExport` / `onStateChange` callbacks and console logging: I/O. Only the decision to export is modelled.
- `Math.atan2` and the radians-to-degrees conversion: floating-point trigonometry, so the angle is a parameter.
- IEEE doubles, NaN and infinities: numbers are exact reals.
- `JSON.parse` / `JSON.stringify` and the snapshot round trip: a foreign parser, so the parse result is an input.
- `parseFloat` in the opacity handler: the parsed value is the input.
- The native `rnSource` half of the normalizers' result: only the URL feeds the engine.
- Arrays, functions and symbols as image references, and the exact text `String()` gives an object: kept abstract in `Js.Value`.
- `handleSelectItem`, `handleBoardNameChange` and the board name: plain setters with no rule (the 50-character limit is only an input attribute).
- Session.PointerMove: requires a non-zero captured width and height for a resize, because the code divides by them and the resulting infinities are not reals.
- Geometry.KeepAspect: requires a non-zero start size, for the same division. Its floor and aspect guarantees are stated only for a positive start size.
- Geometry.Snap: requires a non-zero grid size when the grid is on, because `value / 0` is not a real.
- Session.MergeInputImages: entries are source strings compared by string equality. Objects passed to the single-file controller, compared there by reference, are not modelled.
- Session.Candidates: items it creates get the defaults `visible`, unflipped and scale (1, 1), which the single-file controller leaves unset.
- The order of the two halves of `componentDidUpdate` within one update, and React's batching outside mount: each half is modelled as its own step.
- The effect-run granularity of the export latch: a run is one change of the trigger or latch. The board element is attached before effects run, so the rising-edge lemmas take the board as mounted; `ExportEdge.LatchStep` keeps the code's guard for completeness.
- Session.MergeImportsEverySource: requires fresh, pairwise distinct ids, as the timestamped ids are meant to be; with colliding ids an entry can be dropped.

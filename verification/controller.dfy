/** The board controller (outfit-board index.js): importing images by
    normalized URL, the toolbar commands (visibility, flip, rotate-by,
    duplicate) and the reaction to new `initialState` / `inputImages` props.
    Delete, z-order and opacity are the shared commands of the Store module. */
module Controller {
  import opened Base
  import opened Js
  import opened Items
  import opened Store
  import opened Normalize

  /** Side of the square items this controller creates. */
  const ItemSize: real := 200.0

  /** The item bulk import creates for entry `index` when `count` items were
      on the board. */
  function ImportItem(id: string, url: string, index: nat, count: nat): Item {
    Placed(id, url, 50.0 + 60.0 * index as real, ItemSize, count + index + 1)
  }

  /** An entry is imported when it normalizes to a URL no item has as source. */
  predicate Accepted(items: seq<Item>, img: Value) {
    UrlOf(img).Some? && UrlOf(img).value !in Srcs(items)
  }

  /** `it` is the item bulk import makes for some accepted entry. */
  predicate IsImportOf(items: seq<Item>, images: seq<Value>, ids: seq<string>, it: Item)
    requires |ids| == |images|
  {
    exists j :: 0 <= j < |images| && Accepted(items, images[j])
      && it == ImportItem(ids[j], UrlOf(images[j]).value, j, |items|)
  }

  /** The `newItems` of addImagesFromList for entries `0..n`. Entry indices
      count skipped entries too, so positions and zIndex values can have gaps. */
  function NewItems(items: seq<Item>, images: seq<Value>, ids: seq<string>, n: nat): (r: seq<Item>)
    requires |ids| == |images| && n <= |images|
    ensures |r| <= n
    ensures forall k :: 0 <= k < |r| ==> IsImportOf(items, images, ids, r[k])
    ensures forall j :: 0 <= j < n && Accepted(items, images[j]) ==>
              ImportItem(ids[j], UrlOf(images[j]).value, j, |items|) in r
  {
    if n == 0 then []
    else
      var prev := NewItems(items, images, ids, n - 1);
      if Accepted(items, images[n - 1]) then
        prev + [ImportItem(ids[n - 1], UrlOf(images[n - 1]).value, n - 1, |items|)]
      else prev
  }

  /** The new items come in list order: their zIndex values, count + index
      + 1, rise strictly along the list. With the two membership ensures of
      `NewItems` this makes it exactly one item per accepted entry, in entry
      order. */
  lemma {:induction false} NewItemsAscending(items: seq<Item>, images: seq<Value>, ids: seq<string>, n: nat)
    requires |ids| == |images| && n <= |images|
    ensures Ascending(NewItems(items, images, ids, n))
    ensures forall k :: 0 <= k < |NewItems(items, images, ids, n)| ==>
              NewItems(items, images, ids, n)[k].zIndex <= |items| + n
  {
    if n > 0 {
      NewItemsAscending(items, images, ids, n - 1);
      var prev := NewItems(items, images, ids, n - 1);
      if Accepted(items, images[n - 1]) {
        var it := ImportItem(ids[n - 1], UrlOf(images[n - 1]).value, n - 1, |items|);
        assert NewItems(items, images, ids, n) == prev + [it];
        AscendingAppend(prev, it, |items| + n);
      } else {
        assert NewItems(items, images, ids, n) == prev;
      }
    }
  }

  /** How many of entries `0..n` are accepted. */
  function AcceptedCount(items: seq<Item>, images: seq<Value>, n: nat): nat
    requires n <= |images|
  {
    if n == 0 then 0
    else AcceptedCount(items, images, n - 1) + (if Accepted(items, images[n - 1]) then 1 else 0)
  }

  /** Bulk import makes exactly one item per accepted entry. */
  lemma {:induction false} NewItemsCount(items: seq<Item>, images: seq<Value>, ids: seq<string>, n: nat)
    requires |ids| == |images| && n <= |images|
    ensures |NewItems(items, images, ids, n)| == AcceptedCount(items, images, n)
  {
    if n > 0 {
      NewItemsCount(items, images, ids, n - 1);
    }
  }

  /** With no accepted entry among `0..n` there is nothing new. */
  lemma {:induction false} NewItemsNoneAccepted(items: seq<Item>, images: seq<Value>, ids: seq<string>, n: nat)
    requires |ids| == |images| && n <= |images|
    requires forall j :: 0 <= j < n ==> !Accepted(items, images[j])
    ensures NewItems(items, images, ids, n) == []
  {
    if n > 0 {
      NewItemsNoneAccepted(items, images, ids, n - 1);
    }
  }

  /** addImagesFromList: a missing or non-array list changes nothing. Otherwise
      the earlier items stay as an unchanged prefix, and after them comes, in
      list order, one new 200 by 200 item for every entry whose URL no earlier
      item has as source — and nothing else. Entries of one batch are not
      checked against each other. */
  function AddImagesFromList(items: seq<Item>, images: Option<seq<Value>>, ids: seq<string>): (r: seq<Item>)
    requires images.Some? ==> |ids| == |images.value|
    ensures images.None? ==> r == items
    ensures |items| <= |r| && r[..|items|] == items
    ensures images.Some? ==>
              forall k :: |items| <= k < |r| ==> IsImportOf(items, images.value, ids, r[k])
    ensures images.Some? ==>
              forall j :: 0 <= j < |images.value| && Accepted(items, images.value[j]) ==>
                ImportItem(ids[j], UrlOf(images.value[j]).value, j, |items|) in r[|items|..]
    ensures Ascending(r[|items|..])
  {
    if images.None? then items
    else
      var list := images.value;
      var added := NewItems(items, list, ids, |list|);
      NewItemsAscending(items, list, ids, |list|);
      assert (items + added)[|items|..] == added;
      assert forall k :: |items| <= k < |items| + |added| ==> (items + added)[k] == added[k - |items|];
      items + added
  }

  /** Importing the same list again adds nothing: every URL it names is now
      the source of some item. */
  lemma ReimportAddsNothing(items: seq<Item>, images: seq<Value>, ids: seq<string>, ids2: seq<string>)
    requires |ids| == |images| && |ids2| == |images|
    ensures var once := AddImagesFromList(items, Some(images), ids);
            AddImagesFromList(once, Some(images), ids2) == once
  {
    var once := AddImagesFromList(items, Some(images), ids);
    forall j | 0 <= j < |images|
      ensures !Accepted(once, images[j])
    {
      if UrlOf(images[j]).Some? {
        var u := UrlOf(images[j]).value;
        if u in Srcs(items) {
          var m :| 0 <= m < |items| && Srcs(items)[m] == u;
          assert once[m] == items[m];
          assert Srcs(once)[m] == u;
        } else {
          var it := ImportItem(ids[j], u, j, |items|);
          assert it in once[|items|..];
          var m :| |items| <= m < |once| && once[m] == it;
          assert Srcs(once)[m] == u;
        }
      }
    }
    NewItemsNoneAccepted(once, images, ids2, |images|);
  }

  /** Two entries with the same new URL in one batch both become items. */
  lemma SameBatchNotDeduplicated()
    ensures |AddImagesFromList([], Some([Str("a"), Str("a")]), ["i0", "i1"])| == 2
  {
    assert UrlOf(Str("a")) == Some("a");
  }

  /** addImageToCanvas: an entry without a URL changes nothing; otherwise one
      200 by 200 item is appended at 50 + 60 * count with zIndex count + 1, and
      selected. That is the item a bulk import onto an empty board would make
      for entry number `count`. There is no check against existing sources
      here. */
  function AddImageToCanvas(d: Doc, img: Value, freshId: string): (r: Doc)
    ensures UrlOf(img).None? ==> r == d
    ensures UrlOf(img).Some? ==>
              r.selected == Some(freshId)
              && |r.items| == |d.items| + 1 && r.items[..|d.items|] == d.items
              && r.items[|d.items|] == ImportItem(freshId, UrlOf(img).value, |d.items|, 0)
  {
    if UrlOf(img).None? then d
    else
      var url := UrlOf(img).value;
      var n := |d.items|;
      Doc(d.items + [Placed(freshId, url, 50.0 + 60.0 * n as real, ItemSize, n + 1)], Some(freshId))
  }

  /** With a fresh, non-empty id the new item is the selection, carrying the
      entry's URL as source. */
  lemma AddImageToCanvasSelectsNew(d: Doc, img: Value, freshId: string)
    requires UrlOf(img).Some? && freshId != [] && freshId !in Ids(d.items)
    ensures var r := AddImageToCanvas(d, img, freshId);
            Targets(r) && Selected(r) == r.items[|d.items|] && Selected(r).src == UrlOf(img).value
  {
    var r := AddImageToCanvas(d, img, freshId);
    assert Ids(r.items)[|d.items|] == freshId;
  }

  /** With a fresh id, adding by hand keeps ids unique. */
  lemma AddImageToCanvasKeepsIdsUnique(d: Doc, img: Value, freshId: string)
    requires UniqueIds(d.items) && freshId !in Ids(d.items)
    ensures UniqueIds(AddImageToCanvas(d, img, freshId).items)
  {
    var r := AddImageToCanvas(d, img, freshId);
    if UrlOf(img).Some? {
      forall i, j | 0 <= i < j < |r.items|
        ensures r.items[i].id != r.items[j].id
      {
        if j == |d.items| {
          assert Ids(d.items)[i] == d.items[i].id;
        }
      }
    }
  }

  /** Adding by hand an image already on the board gives a second item with
      the same source. */
  lemma AddImageToCanvasDoesNotDeduplicate(d: Doc, url: string, freshId: string)
    requires url != []
    ensures var r := AddImageToCanvas(AddImageToCanvas(d, Str(url), freshId), Str(url), freshId);
            |r.items| == |d.items| + 2 && r.items[|d.items|].src == r.items[|d.items| + 1].src == url
  {
  }

  /** The first item with the selected id, for a doc that targets one. */
  function Selected(d: Doc): Item
    requires Targets(d)
  {
    d.items[FindIndex(d.items, d.selected.value).value]
  }

  function VisiblePatch(v: bool): Patch {
    NoChange.(visible := Some(v))
  }

  /** The board after every item with the selected id is merged with `p`. */
  function UpdateSelection(d: Doc, p: Patch): Doc
    requires d.selected.Some?
  {
    d.(items := UpdateItem(d.items, d.selected.value, p))
  }

  /** After such an update the same item is selected, now merged with `p`. */
  lemma UpdateSelected(d: Doc, p: Patch)
    requires Targets(d)
    ensures Targets(UpdateSelection(d, p))
    ensures Selected(UpdateSelection(d, p)) == Merge(Selected(d), p)
  {
    var id := d.selected.value;
    var u := UpdateSelection(d, p);
    FindIndexAfterUpdate(d.items, id, id, p);
    UpdateKeepsIds(d.items, id, p);
  }

  /** With unique ids the selected item is the only one carrying its id. */
  lemma OnlySelected(d: Doc)
    requires Targets(d) && UniqueIds(d.items)
    ensures forall i :: 0 <= i < |d.items| && d.items[i].id == d.selected.value ==> d.items[i] == Selected(d)
  {
    var k := FindIndex(d.items, d.selected.value).value;
    forall i | 0 <= i < |d.items| && d.items[i].id == d.selected.value
      ensures d.items[i] == Selected(d)
    {
      assert !(i < k) && !(k < i);
    }
  }

  /** Two updates of the selection, the second overriding every field the
      first sets and agreeing with what the selected item already holds,
      restore the board when ids are unique. */
  lemma UpdateSelectionRestores(d: Doc, p: Patch, q: Patch)
    requires Targets(d) && UniqueIds(d.items)
    requires Then(p, q) == q && Merge(Selected(d), q) == Selected(d)
    ensures UpdateSelection(UpdateSelection(d, p), q) == d
  {
    var id := d.selected.value;
    UpdateTwice(d.items, id, p, q);
    OnlySelected(d);
    UpdateFixed(d.items, id, q);
  }

  /** handleToggleVisibility: every item with the selected id takes the
      negation of the first one's `visible`. */
  function ToggleVisibility(d: Doc): (r: Doc)
    ensures !Targets(d) ==> r == d
    ensures r.selected == d.selected && |r.items| == |d.items|
  {
    if Targets(d) then UpdateSelection(d, VisiblePatch(!Selected(d).visible)) else d
  }

  /** Only the items with the selected id change, and only their `visible`. */
  lemma ToggleVisibilitySetsSelected(d: Doc)
    requires Targets(d)
    ensures forall i :: 0 <= i < |d.items| ==>
              if d.items[i].id == d.selected.value
              then ToggleVisibility(d).items[i] == d.items[i].(visible := !Selected(d).visible)
              else ToggleVisibility(d).items[i] == d.items[i]
  {
  }

  /** With unique ids, toggling twice restores the board. */
  lemma ToggleVisibilityTwice(d: Doc)
    requires UniqueIds(d.items)
    ensures ToggleVisibility(ToggleVisibility(d)) == d
  {
    if Targets(d) {
      var v := Selected(d).visible;
      var p, q := VisiblePatch(!v), VisiblePatch(v);
      UpdateSelected(d, p);
      var once := UpdateSelection(d, p);
      assert ToggleVisibility(d) == once;
      assert ToggleVisibility(once) == UpdateSelection(once, q);
      UpdateSelectionRestores(d, p, q);
    }
  }

  /** A flipped item is mirrored horizontally and only then. */
  predicate FlipConsistent(it: Item) {
    it.scaleX == if it.flipped then -1.0 else 1.0
  }

  function FlipPatch(it: Item): Patch {
    NoChange.(flipped := Some(!it.flipped), scaleX := Some(if it.flipped then 1.0 else -1.0))
  }

  /** handleFlip: every item with the selected id takes the negation of the
      first one's `flipped`, and `scaleX` becomes -1 exactly when the new
      `flipped` is true. */
  function Flip(d: Doc): (r: Doc)
    ensures !Targets(d) ==> r == d
    ensures r.selected == d.selected && |r.items| == |d.items|
  {
    if Targets(d) then UpdateSelection(d, FlipPatch(Selected(d))) else d
  }

  /** Only the items with the selected id change, only in `flipped` and
      `scaleX`, and they end mirror-consistent whatever they were. */
  lemma FlipSetsSelected(d: Doc)
    requires Targets(d)
    ensures forall i :: 0 <= i < |d.items| ==>
              var n := Flip(d).items[i];
              if d.items[i].id == d.selected.value
              then n == d.items[i].(flipped := !Selected(d).flipped, scaleX := n.scaleX) && FlipConsistent(n)
              else n == d.items[i]
  {
  }

  /** Flipping keeps every item mirror-consistent if all were. */
  lemma FlipPreservesConsistency(d: Doc)
    requires forall i :: 0 <= i < |d.items| ==> FlipConsistent(d.items[i])
    ensures forall i :: 0 <= i < |Flip(d).items| ==> FlipConsistent(Flip(d).items[i])
  {
    if Targets(d) {
      FlipSetsSelected(d);
    }
  }

  /** With unique ids and a mirror-consistent selected item, two flips restore
      the board. */
  lemma FlipTwice(d: Doc)
    requires UniqueIds(d.items)
    requires Targets(d) ==> FlipConsistent(Selected(d))
    ensures Flip(Flip(d)) == d
  {
    if Targets(d) {
      var p := FlipPatch(Selected(d));
      UpdateSelected(d, p);
      var once := UpdateSelection(d, p);
      var q := FlipPatch(Selected(once));
      assert Flip(d) == once;
      assert Flip(once) == UpdateSelection(once, q);
      UpdateSelectionRestores(d, p, q);
    }
  }

  function RotationBy(r: real): Patch {
    NoChange.(rotation := Some(r))
  }

  /** Every item carrying the selected id gets rotation `base + degrees`. */
  function TurnBy(d: Doc, base: real, degrees: real): Doc
    requires d.selected.Some?
  {
    d.(items := UpdateItem(d.items, d.selected.value, RotationBy(base + degrees)))
  }

  /** A second turn of the same selection, starting from where the first one
      left the angle, adds up with it. */
  lemma TurnByTwice(d: Doc, x: real, a: real, y: real, b: real)
    requires d.selected.Some? && y == x + a
    ensures TurnBy(TurnBy(d, x, a), y, b) == TurnBy(d, x, a + b)
  {
    var p, q := RotationBy(x + a), RotationBy(y + b);
    UpdateTwice(d.items, d.selected.value, p, q);
    assert Then(p, q) == q;
    assert q == RotationBy(x + (a + b));
  }

  /** handleRotate(degrees): every item with the selected id takes the first
      one's rotation plus `degrees`, with no reduction modulo 360. */
  function RotateBy(d: Doc, degrees: real): (r: Doc)
    ensures !Targets(d) ==> r == d
    ensures r.selected == d.selected && |r.items| == |d.items|
  {
    if Targets(d) then TurnBy(d, Selected(d).rotation, degrees) else d
  }

  /** Only the items with the selected id change, and only their rotation,
      which becomes the first one's plus `degrees`. */
  lemma RotateByTurnsSelected(d: Doc, degrees: real)
    requires Targets(d)
    ensures forall i :: 0 <= i < |d.items| ==>
              if d.items[i].id == d.selected.value
              then RotateBy(d, degrees).items[i] == d.items[i].(rotation := Selected(d).rotation + degrees)
              else RotateBy(d, degrees).items[i] == d.items[i]
  {
  }

  /** Rotating by a and then by b is rotating by a + b. */
  lemma RotateByComposes(d: Doc, a: real, b: real)
    ensures RotateBy(RotateBy(d, a), b) == RotateBy(d, a + b)
  {
    if Targets(d) {
      RotateBySelectsSame(d, a);
      var once := RotateBy(d, a);
      assert once == TurnBy(d, Selected(d).rotation, a);
      assert RotateBy(once, b) == TurnBy(once, Selected(once).rotation, b);
      TurnByTwice(d, Selected(d).rotation, a, Selected(once).rotation, b);
    }
  }

  /** After one rotation the same item is selected, now carrying the new angle. */
  lemma RotateBySelectsSame(d: Doc, a: real)
    requires Targets(d)
    ensures Targets(RotateBy(d, a))
    ensures Selected(RotateBy(d, a)).rotation == Selected(d).rotation + a
  {
    var id := d.selected.value;
    var once := RotateBy(d, a);
    assert Ids(once.items) == Ids(d.items) by {
      assert forall i :: 0 <= i < |d.items| ==> once.items[i].id == d.items[i].id;
    }
    FindIndexSameIds(once.items, d.items, id);
    var k := FindIndex(d.items, id).value;
    assert Selected(once) == once.items[k];
  }

  /** Three quarter turns from 0 give 270, not -90. */
  lemma ThreeQuarterTurns(it: Item)
    requires it.rotation == 0.0 && it.id != []
    ensures var d := Doc([it], Some(it.id));
            RotateBy(RotateBy(RotateBy(d, 90.0), 90.0), 90.0).items[0].rotation == 270.0
  {
    var d := Doc([it], Some(it.id));
    RotateByComposes(d, 90.0, 90.0);
    RotateByComposes(d, 180.0, 90.0);
    assert Ids([it])[0] == it.id;
  }

  /** handleDuplicate: appends a copy of the first selected item that differs
      only in a new id, a (20, 20) offset and a zIndex above every item, and
      selects the copy. No selection or a stale id: no change. */
  function Duplicate(d: Doc, freshId: string): (r: Doc)
    ensures !Targets(d) ==> r == d
    ensures Targets(d) ==>
              var it := Selected(d);
              && r.selected == Some(freshId)
              && |r.items| == |d.items| + 1 && r.items[..|d.items|] == d.items
              && r.items[|d.items|]
                 == it.(id := freshId, x := it.x + 20.0, y := it.y + 20.0,
                        zIndex := r.items[|d.items|].zIndex)
              && r.items[|d.items|].zIndex == MaxZ(d.items) + 1
              && forall j :: 0 <= j < |d.items| ==> d.items[j].zIndex < r.items[|d.items|].zIndex
  {
    if Targets(d) then CopyOnTop(d.items, Selected(d), freshId) else d
  }

  /** The copy of `it` appended above every item and selected. */
  function CopyOnTop(items: seq<Item>, it: Item, freshId: string): (r: Doc)
    requires items != []
    ensures r.selected == Some(freshId)
    ensures |r.items| == |items| + 1 && r.items[..|items|] == items
    ensures r.items[|items|]
            == it.(id := freshId, x := it.x + 20.0, y := it.y + 20.0, zIndex := r.items[|items|].zIndex)
    ensures r.items[|items|].zIndex == MaxZ(items) + 1
    ensures forall j :: 0 <= j < |items| ==> items[j].zIndex < r.items[|items|].zIndex
  {
    var copy := it.(id := freshId, x := it.x + 20.0, y := it.y + 20.0, zIndex := MaxZ(items) + 1);
    assert (items + [copy])[..|items|] == items;
    Doc(items + [copy], Some(freshId))
  }

  /** A duplicate with a fresh id keeps ids unique. */
  lemma DuplicateKeepsIdsUnique(d: Doc, freshId: string)
    requires UniqueIds(d.items) && freshId !in Ids(d.items)
    ensures UniqueIds(Duplicate(d, freshId).items)
  {
    if Targets(d) {
      var r := Duplicate(d, freshId);
      forall i, j | 0 <= i < j < |r.items|
        ensures r.items[i].id != r.items[j].id
      {
        if j == |d.items| {
          assert Ids(d.items)[i] == d.items[i].id;
        }
      }
    }
  }

  /** componentDidMount. React batches the two state updates, so the import
      checks sources against the board as it was before the snapshot was
      applied (empty) but appends to the snapshot's items. */
  function Mount(text: string, parsed: Parsed, images: Option<seq<Value>>, ids: seq<string>): (r: seq<Item>)
    requires images.Some? ==> |ids| == |images.value|
    ensures var base := ApplyInitialState([], text, parsed);
            |base| <= |r| && r[..|base|] == base
    ensures text == [] || !parsed.ParsedArray? ==> r == AddImagesFromList([], images, ids)
    ensures images.Some? ==>
              var base := ApplyInitialState([], text, parsed);
              (forall k :: |base| <= k < |r| ==> IsImportOf([], images.value, ids, r[k]))
              && forall j :: 0 <= j < |images.value| && UrlOf(images.value[j]).Some? ==>
                   ImportItem(ids[j], UrlOf(images.value[j]).value, j, 0) in r[|base|..]
    ensures Ascending(r[|ApplyInitialState([], text, parsed)|..])
  {
    var base := ApplyInitialState([], text, parsed);
    var added := AddImagesFromList([], images, ids);
    assert (base + added)[..|base|] == base;
    assert (base + added)[|base|..] == added;
    assert forall k :: |base| <= k < |base + added| ==> (base + added)[k] == added[k - |base|];
    assert Srcs([]) == [];
    assert added[0..] == added;
    base + added
  }

  /** Because of that, an image both in the snapshot and in the list is on the
      board twice after mounting. */
  lemma MountCanDuplicateSource()
    ensures var it := Placed("p", "a", 50.0, 200.0, 1);
            var r := Mount("[..]", ParsedArray([it]), Some([Str("a")]), ["n"]);
            |r| == 2 && r[0].src == r[1].src == "a"
  {
    assert UrlOf(Str("a")) == Some("a");
    assert Srcs([]) == [];
  }

  /** The `imagesChanged` test of componentDidUpdate: the list appeared or
      vanished, changed length, or some entry's URL differs. */
  predicate ImagesChanged(prev: Option<seq<Value>>, cur: Option<seq<Value>>) {
    (cur.None? && prev.Some?)
    || (cur.Some? && prev.None?)
    || (cur.Some? && prev.Some?
        && (|cur.value| != |prev.value|
            || exists idx :: 0 <= idx < |cur.value| && UrlOf(cur.value[idx]) != UrlOf(prev.value[idx])))
  }

  /** The `inputImages` half of componentDidUpdate: import only when the list
      changed and is non-empty. */
  function OnInputImagesChanged(items: seq<Item>, prev: Option<seq<Value>>, cur: Option<seq<Value>>,
                                ids: seq<string>): (r: seq<Item>)
    requires cur.Some? ==> |ids| == |cur.value|
    ensures !ImagesChanged(prev, cur) || cur.None? || cur.value == [] ==> r == items
    ensures ImagesChanged(prev, cur) && cur.Some? && cur.value != [] ==>
              r == AddImagesFromList(items, cur, ids)
  {
    if ImagesChanged(prev, cur) && cur.Some? && |cur.value| > 0 then
      AddImagesFromList(items, cur, ids)
    else items
  }

  /** Re-rendering with the same list imports nothing. */
  lemma SamePropsImportNothing(items: seq<Item>, images: Option<seq<Value>>, ids: seq<string>)
    requires images.Some? ==> |ids| == |images.value|
    ensures OnInputImagesChanged(items, images, images, ids) == items
  {
  }

  /** The `initialState` half of componentDidUpdate: a changed snapshot is
      applied as on mount. */
  function OnInitialStateChanged(items: seq<Item>, prevText: string, text: string, parsed: Parsed): (r: seq<Item>)
    ensures text == prevText ==> r == items
    ensures text != prevText ==> r == ApplyInitialState(items, text, parsed)
  {
    if text != prevText then ApplyInitialState(items, text, parsed) else items
  }

  /** A changed, usable snapshot leaves the board exactly as mounting with that
      snapshot and no image list would. */
  lemma InitialStateChangeActsAsMount(items: seq<Item>, prevText: string, text: string, parsed: Parsed)
    requires text != prevText && text != [] && parsed.ParsedArray?
    ensures OnInitialStateChanged(items, prevText, text, parsed) == Mount(text, parsed, None, [])
  {
    assert Mount(text, parsed, None, []) == parsed.items + [];
  }

  /** Seeing the same changed snapshot twice in a row is seeing it once. */
  lemma InitialStateChangeIdempotent(items: seq<Item>, prevText: string, text: string, parsed: Parsed)
    ensures var once := OnInitialStateChanged(items, prevText, text, parsed);
            OnInitialStateChanged(once, prevText, text, parsed) == once
  {
    ApplyInitialStateIdempotent(items, text, parsed);
  }
}

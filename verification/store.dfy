/** The item-list commands both controllers implement identically: delete the
    selected item, bring it forward, send it backward, set its opacity, and
    replace the whole list from an `initialState` snapshot. */
module Store {
  import opened Base
  import opened Items

  /** The part of a board's state these commands read and write: the items and
      the selected id (`null` is `None`). */
  datatype Doc = Doc(items: seq<Item>, selected: Option<string>)

  /** `if (selectedItem)`: an id is selected and it is not the empty string. */
  predicate HasSelection(sel: Option<string>) {
    sel.Some? && sel.value != []
  }

  /** `items.filter(item => item.id !== id)`. */
  function RemoveId(items: seq<Item>, id: string): (r: seq<Item>)
    ensures |r| <= |items|
    ensures id !in Ids(r)
    ensures forall it :: it in r <==> it in items && it.id != id
    ensures id !in Ids(items) ==> r == items
  {
    if items == [] then []
    else if items[0].id == id then RemoveId(items[1..], id)
    else [items[0]] + RemoveId(items[1..], id)
  }

  /** The filter works item by item: filtering a concatenation filters each
      part and keeps them in order. With the ensures of `RemoveId` on a single
      item this pins down order and multiplicity of what remains. */
  lemma {:induction false} RemoveIdConcat(a: seq<Item>, b: seq<Item>, id: string)
    ensures RemoveId(a + b, id) == RemoveId(a, id) + RemoveId(b, id)
    decreases |a|
  {
    if a == [] {
      assert a + b == b;
    } else {
      assert (a + b)[0] == a[0];
      assert (a + b)[1..] == a[1..] + b;
      RemoveIdConcat(a[1..], b, id);
    }
  }

  /** handleDelete: with a selection, every item carrying the selected id goes
      and the selection is cleared; without one nothing happens. */
  function Delete(d: Doc): (r: Doc)
    ensures !HasSelection(d.selected) ==> r == d
    ensures HasSelection(d.selected) ==> r.selected.None?
    ensures HasSelection(d.selected) ==> d.selected.value !in Ids(r.items)
    ensures HasSelection(d.selected) ==>
              forall it :: it in r.items <==> it in d.items && it.id != d.selected.value
  {
    if HasSelection(d.selected) then Doc(RemoveId(d.items, d.selected.value), None)
    else d
  }

  /** Delete keeps the surviving items in their order: deleting from a
      concatenation deletes from each part. */
  lemma DeleteKeepsOrder(a: seq<Item>, b: seq<Item>, sel: Option<string>)
    requires HasSelection(sel)
    ensures Delete(Doc(a + b, sel)).items == Delete(Doc(a, sel)).items + Delete(Doc(b, sel)).items
  {
    RemoveIdConcat(a, b, sel.value);
  }

  function ZPatch(z: int): Patch {
    NoChange.(zIndex := Some(z))
  }

  function OpacityPatch(o: real): Patch {
    NoChange.(opacity := Some(o))
  }

  /** The selection is set and names an item that exists. */
  predicate Targets(d: Doc) {
    HasSelection(d.selected) && d.selected.value in Ids(d.items)
  }

  /** handleBringForward: the selected item's zIndex becomes one more than the
      current maximum, so it sits strictly above every other item; only that
      field of that item changes. No selection or a stale id: no change. */
  function BringForward(d: Doc): (r: Doc)
    ensures !Targets(d) ==> r == d
    ensures r.selected == d.selected && |r.items| == |d.items|
    ensures Targets(d) ==>
              forall i :: 0 <= i < |d.items| && d.items[i].id == d.selected.value ==>
                r.items[i] == d.items[i].(zIndex := r.items[i].zIndex)
                && r.items[i].zIndex == MaxZ(d.items) + 1
                && forall j :: 0 <= j < |d.items| ==> d.items[j].zIndex < r.items[i].zIndex
    ensures Targets(d) ==>
              forall i, j ::
                (0 <= i < |d.items| && 0 <= j < |d.items|
                 && d.items[i].id == d.selected.value && d.items[j].id != d.selected.value) ==>
                  r.items[j] == d.items[j] && r.items[j].zIndex < r.items[i].zIndex
  {
    if Targets(d) then
      d.(items := UpdateItem(d.items, d.selected.value, ZPatch(MaxZ(d.items) + 1)))
    else d
  }

  /** handleSendBackward: when the (first) selected item's zIndex is above the
      minimum it drops by exactly one — never below the minimum; at the minimum,
      with no selection or with a stale id, nothing changes. */
  function SendBackward(d: Doc): (r: Doc)
    ensures !Targets(d) ==> r == d
    ensures r.selected == d.selected && |r.items| == |d.items|
    ensures Targets(d) ==>
              var k := FindIndex(d.items, d.selected.value).value;
              if d.items[k].zIndex == MinZ(d.items) then r == d
              else forall i :: 0 <= i < |d.items| ==>
                if d.items[i].id == d.selected.value then
                  r.items[i] == d.items[i].(zIndex := d.items[k].zIndex - 1)
                  && r.items[i].zIndex >= MinZ(d.items)
                else r.items[i] == d.items[i]
  {
    if Targets(d) then
      var k := FindIndex(d.items, d.selected.value).value;
      var minZ := MinZ(d.items);
      if d.items[k].zIndex > minZ then
        d.(items := UpdateItem(d.items, d.selected.value, ZPatch(d.items[k].zIndex - 1)))
      else d
    else d
  }

  /** sendBackward picks `current - 1` without looking at other items, so it
      can give two items the same zIndex. */
  lemma SendBackwardCanDuplicateZ()
    ensures
      var a := Placed("a", "u", 50.0, 200.0, 1);
      var b := Placed("b", "v", 110.0, 200.0, 2);
      var r := SendBackward(Doc([a, b], Some("b")));
      r.items[0].zIndex == r.items[1].zIndex == 1
  {
    var a := Placed("a", "u", 50.0, 200.0, 1);
    var b := Placed("b", "v", 110.0, 200.0, 2);
    assert Ids([a, b])[1] == "b";
  }

  /** handleOpacityChange with the slider value already parsed: every item with
      the selected id takes the new opacity and nothing else changes. The
      handler does not look the item up first. */
  function SetOpacity(d: Doc, value: real): (r: Doc)
    ensures !HasSelection(d.selected) ==> r == d
    ensures r.selected == d.selected && |r.items| == |d.items|
    ensures forall i :: 0 <= i < |d.items| ==>
              if HasSelection(d.selected) && d.items[i].id == d.selected.value
              then r.items[i] == d.items[i].(opacity := value)
              else r.items[i] == d.items[i]
  {
    if HasSelection(d.selected) then
      d.(items := UpdateItem(d.items, d.selected.value, OpacityPatch(value)))
    else d
  }

  /** What `JSON.parse(initialState)` produced; the parser itself is foreign. */
  datatype Parsed = ParsedArray(items: seq<Item>) | ParsedNonArray | Unparseable

  /** The `initialState` handling: a non-empty snapshot that parses to an array
      replaces the items wholesale; an empty string, a non-array or a parse
      error leaves them as they are (the error is only logged). */
  function ApplyInitialState(items: seq<Item>, text: string, parsed: Parsed): (r: seq<Item>)
    ensures text == [] ==> r == items
    ensures !parsed.ParsedArray? ==> r == items
    ensures text != [] && parsed.ParsedArray? ==> r == parsed.items
  {
    if text != [] && parsed.ParsedArray? then parsed.items else items
  }

  /** Applying the same snapshot twice is applying it once. */
  lemma ApplyInitialStateIdempotent(items: seq<Item>, text: string, parsed: Parsed)
    ensures ApplyInitialState(ApplyInitialState(items, text, parsed), text, parsed)
            == ApplyInitialState(items, text, parsed)
  {
  }

  /** A usable snapshot replaces the board wholesale: what was there before
      does not matter. */
  lemma ApplyInitialStateForgetsBoard(a: seq<Item>, b: seq<Item>, text: string, parsed: Parsed)
    requires text != [] && parsed.ParsedArray?
    ensures ApplyInitialState(a, text, parsed) == ApplyInitialState(b, text, parsed)
  {
  }

  /** A malformed snapshot on a fresh board leaves it empty. */
  lemma MalformedSnapshotKeepsEmptyBoard(text: string)
    ensures ApplyInitialState([], text, Unparseable) == []
    ensures ApplyInitialState([], text, ParsedNonArray) == []
  {
  }
}

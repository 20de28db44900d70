/** The item record both controllers keep in their `items` state, the partial
    update `updateItem(id, updates)` applies, and the look-ups the handlers
    share (first item with an id, highest and lowest zIndex). */
module Items {
  import opened Base

  /** One placed image. `src` is the image URL; the native-only `rnSource`
      copy is not part of the model. */
  datatype Item = Item(
    id: string,
    src: string,
    x: real,
    y: real,
    width: real,
    height: real,
    rotation: real,
    opacity: real,
    zIndex: int,
    visible: bool,
    flipped: bool,
    scaleX: real,
    scaleY: real)

  /** The `updates` object of `updateItem`: a field that is `Some` overwrites the
      item's field (`{ ...item, ...updates }`), `None` leaves it. No caller
      passes `id` or `src`, so they are not patchable. */
  datatype Patch = Patch(
    x: Option<real>,
    y: Option<real>,
    width: Option<real>,
    height: Option<real>,
    rotation: Option<real>,
    opacity: Option<real>,
    zIndex: Option<int>,
    visible: Option<bool>,
    flipped: Option<bool>,
    scaleX: Option<real>,
    scaleY: Option<real>)

  const NoChange: Patch :=
    Patch(None, None, None, None, None, None, None, None, None, None, None)

  /** A freshly created item: square, unrotated, opaque, visible, unflipped,
      at (`offset`, `offset`). */
  function Placed(id: string, src: string, offset: real, size: real, z: int): (it: Item)
    ensures it.id == id && it.src == src && it.zIndex == z
    ensures it.x == offset && it.y == offset && it.width == size && it.height == size
    ensures it.rotation == 0.0 && it.opacity == 1.0 && it.visible && !it.flipped
    ensures it.scaleX == 1.0 && it.scaleY == 1.0
  {
    Item(id, src, offset, offset, size, size, 0.0, 1.0, z, true, false, 1.0, 1.0)
  }

  /** `{ ...item, ...updates }`. */
  function Merge(it: Item, p: Patch): (r: Item)
    ensures r.id == it.id && r.src == it.src
    ensures r.x == p.x.GetOr(it.x) && r.y == p.y.GetOr(it.y)
    ensures r.width == p.width.GetOr(it.width) && r.height == p.height.GetOr(it.height)
    ensures r.rotation == p.rotation.GetOr(it.rotation)
    ensures r.opacity == p.opacity.GetOr(it.opacity)
    ensures r.zIndex == p.zIndex.GetOr(it.zIndex)
    ensures r.visible == p.visible.GetOr(it.visible)
    ensures r.flipped == p.flipped.GetOr(it.flipped)
    ensures r.scaleX == p.scaleX.GetOr(it.scaleX) && r.scaleY == p.scaleY.GetOr(it.scaleY)
  {
    Item(it.id, it.src,
         p.x.GetOr(it.x), p.y.GetOr(it.y),
         p.width.GetOr(it.width), p.height.GetOr(it.height),
         p.rotation.GetOr(it.rotation), p.opacity.GetOr(it.opacity),
         p.zIndex.GetOr(it.zIndex), p.visible.GetOr(it.visible),
         p.flipped.GetOr(it.flipped), p.scaleX.GetOr(it.scaleX), p.scaleY.GetOr(it.scaleY))
  }

  /** Applying `q` after `p` is applying one patch in which `q` wins. */
  function Then(p: Patch, q: Patch): Patch {
    Patch(
      if q.x.Some? then q.x else p.x,
      if q.y.Some? then q.y else p.y,
      if q.width.Some? then q.width else p.width,
      if q.height.Some? then q.height else p.height,
      if q.rotation.Some? then q.rotation else p.rotation,
      if q.opacity.Some? then q.opacity else p.opacity,
      if q.zIndex.Some? then q.zIndex else p.zIndex,
      if q.visible.Some? then q.visible else p.visible,
      if q.flipped.Some? then q.flipped else p.flipped,
      if q.scaleX.Some? then q.scaleX else p.scaleX,
      if q.scaleY.Some? then q.scaleY else p.scaleY)
  }

  lemma MergeThen(it: Item, p: Patch, q: Patch)
    ensures Merge(Merge(it, p), q) == Merge(it, Then(p, q))
  {
  }

  function Ids(items: seq<Item>): (r: seq<string>)
    ensures |r| == |items|
    ensures forall i :: 0 <= i < |items| ==> r[i] == items[i].id
  {
    if items == [] then [] else [items[0].id] + Ids(items[1..])
  }

  function Srcs(items: seq<Item>): (r: seq<string>)
    ensures |r| == |items|
    ensures forall i :: 0 <= i < |items| ==> r[i] == items[i].src
  {
    if items == [] then [] else [items[0].src] + Srcs(items[1..])
  }

  /** No two items share an id. */
  predicate UniqueIds(items: seq<Item>) {
    forall i, j :: 0 <= i < j < |items| ==> items[i].id != items[j].id
  }

  /** `updateItem(id, updates)`: every item whose id matches is merged with the
      patch; the list keeps its length and order, and nothing else changes. */
  function UpdateItem(items: seq<Item>, id: string, p: Patch): (r: seq<Item>)
    ensures |r| == |items|
    ensures forall i :: 0 <= i < |items| && items[i].id == id ==> r[i] == Merge(items[i], p)
    ensures forall i :: 0 <= i < |items| && items[i].id != id ==> r[i] == items[i]
  {
    if items == [] then []
    else [if items[0].id == id then Merge(items[0], p) else items[0]]
         + UpdateItem(items[1..], id, p)
  }

  lemma UpdateKeepsIds(items: seq<Item>, id: string, p: Patch)
    ensures Ids(UpdateItem(items, id, p)) == Ids(items)
    ensures Srcs(UpdateItem(items, id, p)) == Srcs(items)
  {
  }

  /** Updating an id no item carries changes nothing. */
  lemma UpdateAbsentIsIdentity(items: seq<Item>, id: string, p: Patch)
    requires id !in Ids(items)
    ensures UpdateItem(items, id, p) == items
  {
    var r := UpdateItem(items, id, p);
    forall i | 0 <= i < |items|
      ensures r[i] == items[i]
    {
      assert Ids(items)[i] == items[i].id;
    }
  }

  /** An update that every matching item already agrees with changes nothing. */
  lemma UpdateFixed(items: seq<Item>, id: string, p: Patch)
    requires forall i :: 0 <= i < |items| && items[i].id == id ==> Merge(items[i], p) == items[i]
    ensures UpdateItem(items, id, p) == items
  {
    var r := UpdateItem(items, id, p);
    forall i | 0 <= i < |items|
      ensures r[i] == items[i]
    {
    }
  }

  /** Two updates of one id are one update with the composed patch. */
  lemma UpdateTwice(items: seq<Item>, id: string, p: Patch, q: Patch)
    ensures UpdateItem(UpdateItem(items, id, p), id, q) == UpdateItem(items, id, Then(p, q))
  {
    var once := UpdateItem(items, id, p);
    var twice := UpdateItem(once, id, q);
    var direct := UpdateItem(items, id, Then(p, q));
    forall i | 0 <= i < |items|
      ensures twice[i] == direct[i]
    {
      if items[i].id == id {
        MergeThen(items[i], p, q);
      }
    }
  }

  /** `items.findIndex(i => i.id === id)`, as an option. */
  function FindIndex(items: seq<Item>, id: string): (r: Option<nat>)
    ensures r.Some? ==> r.value < |items| && items[r.value].id == id
    ensures r.Some? ==> forall j :: 0 <= j < r.value ==> items[j].id != id
    ensures r.None? <==> id !in Ids(items)
  {
    if items == [] then None
    else if items[0].id == id then Some(0)
    else match FindIndex(items[1..], id)
      case None => None
      case Some(k) => Some(k + 1)
  }

  /** `items.find(i => i.id === id)`: the first item with that id. */
  function Find(items: seq<Item>, id: string): Option<Item> {
    match FindIndex(items, id)
    case None => None
    case Some(k) => Some(items[k])
  }

  /** Look-ups by id only see ids. */
  lemma {:induction false} FindIndexSameIds(a: seq<Item>, b: seq<Item>, id: string)
    requires Ids(a) == Ids(b)
    ensures FindIndex(a, id) == FindIndex(b, id)
  {
    if a != [] {
      assert a[0].id == Ids(a)[0] == Ids(b)[0] == b[0].id;
      assert Ids(a[1..]) == Ids(a)[1..] == Ids(b)[1..] == Ids(b[1..]);
      FindIndexSameIds(a[1..], b[1..], id);
    }
  }

  /** ... so they survive any update. */
  lemma FindIndexAfterUpdate(items: seq<Item>, id: string, key: string, p: Patch)
    ensures FindIndex(UpdateItem(items, key, p), id) == FindIndex(items, id)
  {
    UpdateKeepsIds(items, key, p);
    FindIndexSameIds(UpdateItem(items, key, p), items, id);
  }

  /** `Math.max(...items.map(i => i.zIndex))` for a non-empty list. */
  function MaxZ(items: seq<Item>): (m: int)
    requires items != []
    ensures forall i :: 0 <= i < |items| ==> items[i].zIndex <= m
    ensures exists i :: 0 <= i < |items| && items[i].zIndex == m
  {
    if |items| == 1 then items[0].zIndex
    else
      var rest := MaxZ(items[1..]);
      assert forall i :: 1 <= i < |items| ==> items[i] == items[1..][i - 1];
      if items[0].zIndex >= rest then items[0].zIndex else rest
  }

  /** `Math.min(...items.map(i => i.zIndex))` for a non-empty list. */
  function MinZ(items: seq<Item>): (m: int)
    requires items != []
    ensures forall i :: 0 <= i < |items| ==> m <= items[i].zIndex
    ensures exists i :: 0 <= i < |items| && items[i].zIndex == m
  {
    if |items| == 1 then items[0].zIndex
    else
      var rest := MinZ(items[1..]);
      assert forall i :: 1 <= i < |items| ==> items[i] == items[1..][i - 1];
      if items[0].zIndex <= rest then items[0].zIndex else rest
  }

  /** zIndex rises strictly along `s`. */
  predicate Ascending(s: seq<Item>) {
    forall a, b :: 0 <= a < b < |s| ==> s[a].zIndex < s[b].zIndex
  }

  /** Appending an item above a list whose zIndex values stay below `bound`. */
  lemma AscendingAppend(s: seq<Item>, it: Item, bound: int)
    requires Ascending(s) && (forall k :: 0 <= k < |s| ==> s[k].zIndex < bound) && it.zIndex == bound
    ensures Ascending(s + [it]) && forall k :: 0 <= k < |s + [it]| ==> (s + [it])[k].zIndex <= bound
  {
    var t := s + [it];
    forall a, b | 0 <= a < b < |t|
      ensures t[a].zIndex < t[b].zIndex
    {
      assert t[a] == s[a];
      if b < |s| {
        assert t[b] == s[b];
      }
    }
    forall k | 0 <= k < |t| ensures t[k].zIndex <= bound {
      if k < |s| {
        assert t[k] == s[k];
      }
    }
  }

  /** An item below every element of an ascending list can go in front. */
  lemma ConsAscending(x: Item, t: seq<Item>)
    requires Ascending(t) && forall k :: 0 <= k < |t| ==> x.zIndex < t[k].zIndex
    ensures Ascending([x] + t)
  {
    var u := [x] + t;
    forall a, b | 0 <= a < b < |u|
      ensures u[a].zIndex < u[b].zIndex
    {
      assert u[b] == t[b - 1];
      if a > 0 {
        assert u[a] == t[a - 1];
      }
    }
  }
}

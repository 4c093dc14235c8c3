/** The earlier snapshot (src/main.go): a global `items` slice that the request handlers and
    their helpers work on directly. Only the store-touching lines are modelled. */
module Snapshot {
  import opened Wrappers
  import opened Models
  import TodoModels
  import Memory

  /** The sequence after `addItemAction`: the item, numbered one past the current length, appended. */
  function AddedByLength(s: seq<Item>, item: Item): seq<Item>
  {
    s + [item.(id := |s| + 1)]
  }

  /** The global `items` of the snapshot. */
  class Store {
    var items: seq<Item>

    /** `var items = models.Items{}`: an empty collection. */
    constructor ()
      ensures items == []
    {
      items := [];
    }

    /** `seedData` replaces the whole collection with the seed. */
    method SeedData()
      modifies this
      ensures items == TodoModels.DataSeed()
    {
      items := TodoModels.DataSeed();
    }

    /** `findByID` returns a copy of the first item with the id (a pointer to the loop variable),
        or nil. */
    method FindById(id: int) returns (found: Option<Item>)
      ensures found == FindFirst(items, id)
      ensures found.None? <==> !HasId(items, id)
    {
      var i := 0;
      while i < |items|
        invariant 0 <= i <= |items|
        invariant forall j :: 0 <= j < i ==> items[j].id != id
      {
        var item := items[i];
        if item.id == id {
          return Some(item);
        }
        i := i + 1;
      }
      return None;
    }

    /** `removeByID` cuts out the first item with the id and stops; an absent id changes nothing. */
    method RemoveById(id: int)
      modifies this
      ensures items == RemoveFirst(old(items), id)
    {
      var i := 0;
      while i < |items|
        invariant 0 <= i <= |items|
        invariant forall j :: 0 <= j < i ==> items[j].id != id
        invariant items == old(items)
      {
        if items[i].id == id {
          items := items[..i] + items[i + 1..];
          break;
        }
        i := i + 1;
      }
    }

    /** `replaceItem` as written: the loop variable shadows the parameter, so the test compares an
        item's id with itself. That test holds at the first index, so the loop writes the first
        element back unchanged and breaks; an empty collection skips the loop. */
    method ReplaceItem(item: Item)
      modifies this
      ensures items == old(items)
    {
      if |items| > 0 {
        var index := 0;
        var item := items[index];
        items := items[index := item];
      }
    }

    /** The store lines of `addItemAction`: number the item one past the length and append it. */
    method AddItem(item: Item) returns (added: Item)
      modifies this
      ensures added == item.(id := |old(items)| + 1)
      ensures items == AddedByLength(old(items), item)
    {
      var newItem := item;
      newItem := newItem.(id := |items| + 1);
      items := items + [newItem];
      added := newItem;
    }

    /** The store lines of `updateItemAction`: look the item up and set Done on the copy that
        `findByID` returns. The id must be present, since the result is dereferenced. The store
        itself is not changed (the method may not modify it). */
    method UpdateItemAction(id: int) returns (shown: Item)
      requires HasId(items, id)
      ensures FindFirst(items, id).Some?
      ensures shown == MarkedDone(FindFirst(items, id).value)
      ensures shown.done && shown.id == id
    {
      var found := FindById(id);
      var item := new ItemPtr(found.value);
      item.value := item.value.(done := true);
      shown := item.value;
    }
  }

  /** Numbering by length can duplicate a stored id after a deletion: removing id 1 from the
      seed and adding an item gives two items with id 2. */
  lemma LengthNumberingReusesId()
    ensures AddedByLength(RemoveFirst(TodoModels.DataSeed(), 1), Item(0, false, "Item X")) ==
            [Item(2, false, "Item B"), Item(2, false, "Item X")]
    ensures !UniqueIds(AddedByLength(RemoveFirst(TodoModels.DataSeed(), 1), Item(0, false, "Item X")))
  {
    assert FirstMatch(TodoModels.DataSeed(), 1) == Some(0);
    assert RemoveFirst(TodoModels.DataSeed(), 1) == [Item(2, false, "Item B")];
    var r := AddedByLength(RemoveFirst(TodoModels.DataSeed(), 1), Item(0, false, "Item X"));
    assert r[0].id == r[1].id;
  }

  /** Numbering by length is fresh as long as ids are exactly 1, 2, ..., n, that is, before any
      deletion; the later store's running maximum does not depend on that. */
  lemma LengthNumberingFreshWithoutDeletes(s: seq<Item>, item: Item)
    requires forall i :: 0 <= i < |s| ==> s[i].id == i + 1
    ensures UniqueIds(AddedByLength(s, item))
    ensures AddedByLength(s, item) == Memory.Created(s, item)
  {
    if s != [] {
      assert s[|s| - 1].id == |s|;
      assert !(Memory.NextId(s) > |s| + 1);
    }
  }

  /** A PUT followed by a GET on the seeded snapshot: the PUT answers with a done item, but the
      stored item is still not done, because only the copy was changed. */
  method PutThenGet() returns (shown: Item, stored: Option<Item>)
    ensures shown == Item(1, true, "Item A")
    ensures stored == Some(Item(1, false, "Item A"))
  {
    var store := new Store();
    store.SeedData();
    assert FirstMatch(store.items, 1) == Some(0);
    shown := store.UpdateItemAction(1);
    stored := store.FindById(1);
  }

  /** `replaceItem` with a changed version of the first seed item leaves the seed as it was. */
  method ReplaceThenList() returns (listed: seq<Item>)
    ensures listed == TodoModels.DataSeed()
    ensures listed[0] != Item(1, true, "Item A changed")
  {
    var store := new Store();
    store.SeedData();
    store.ReplaceItem(Item(1, true, "Item A changed"));
    listed := store.items;
  }
}

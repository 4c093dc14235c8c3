/** The in-memory backend (data/memory/memory.go): one process-wide ordered sequence of items
    and the five repository operations on it. */
module Memory {
  import opened Wrappers
  import opened DbErrors
  import opened Models

  // ----- specification functions -----

  /** The id `Create` assigns: one more than the largest stored id, and 1 when no id is 1 or more.
      Computed left to right, the way the running-maximum loop does. */
  function NextId(s: seq<Item>): (r: int)
    ensures r >= 1
    ensures forall i :: 0 <= i < |s| ==> s[i].id < r
    ensures r == 1 || exists i :: 0 <= i < |s| && s[i].id == r - 1
    decreases |s|
  {
    if s == [] then 1
    else
      var p := NextId(s[..|s| - 1]);
      assert forall i :: 0 <= i < |s| - 1 ==> s[..|s| - 1][i] == s[i];
      if s[|s| - 1].id >= p then s[|s| - 1].id + 1 else p
  }

  /** The sequence after `Create(item)`: the item, carrying the assigned id, appended at the end. */
  function Created(s: seq<Item>, item: Item): seq<Item>
  {
    s + [item.(id := NextId(s))]
  }

  /** The position of the last item with `id`: the update loop has no `break`. */
  function LastMatch(s: seq<Item>, id: int): (r: Option<nat>)
    ensures r.Some? ==> r.value < |s| && s[r.value].id == id
    ensures r.Some? ==> forall j :: r.value < j < |s| ==> s[j].id != id
    ensures r.None? <==> !HasId(s, id)
    decreases |s|
  {
    if s == [] then None
    else if s[|s| - 1].id == id then Some(|s| - 1)
    else
      assert forall i :: 0 <= i < |s| - 1 ==> s[..|s| - 1][i] == s[i];
      LastMatch(s[..|s| - 1], id)
  }

  /** The sequence after `Update(item)`: the last entry with the item's id takes its done flag and
      title; with no such entry nothing changes. */
  function Updated(s: seq<Item>, item: Item): seq<Item>
  {
    match LastMatch(s, item.id)
    case None => s
    case Some(k) => s[k := s[k].(done := item.done, title := item.title)]
  }

  // ----- the store -----

  /** The package-level `items` slice. `seeded` stands for the slice being non-nil. */
  class Store {
    var items: seq<Item>
    var seeded: bool

    /** A nil slice holds nothing, and ids are unique: every operation keeps both. */
    ghost predicate Valid()
      reads this
    {
      (!seeded ==> items == []) && UniqueIds(items)
    }

    /** The state before any client exists: a nil slice. */
    constructor ()
      ensures Valid() && !seeded && items == []
    {
      items, seeded := [], false;
    }

    /** `NewClient` seeds the store on first use and leaves it alone afterwards. */
    method NewClient()
      requires Valid()
      modifies this
      ensures Valid() && seeded
      ensures items == if old(seeded) then old(items) else DataSeed()
    {
      SeedOnce();
    }

    /** `dataSeed`: installs the two seed items only while the slice is nil. */
    method SeedOnce()
      requires Valid()
      modifies this
      ensures Valid() && seeded
      ensures items == if old(seeded) then old(items) else DataSeed()
    {
      if seeded {
        return;
      }
      DataSeedShape();
      items := DataSeed();
      seeded := true;
    }

    /** `List` hands back every item in insertion order. */
    method List() returns (r: seq<Item>)
      ensures r == items
    {
      r := items;
    }

    /** `Get` returns the first item with the id, or nothing; absence is not an error. */
    method Get(id: int) returns (found: Option<Item>)
      ensures found == FindFirst(items, id)
      ensures found.None? <==> !HasId(items, id)
    {
      var i := 0;
      while i < |items|
        invariant 0 <= i <= |items|
        invariant forall j :: 0 <= j < i ==> items[j].id != id
      {
        if items[i].id == id {
          found := Some(items[i]);
          return;
        }
        i := i + 1;
      }
      found := None;
    }

    /** `Create` writes the assigned id into the caller's item, appends a copy of it and hands
        back the same pointer. */
    method Create(item: ItemPtr) returns (created: ItemPtr)
      requires Valid()
      modifies this, item
      ensures Valid() && seeded
      ensures created == item
      ensures item.value == old(item.value).(id := NextId(old(items)))
      ensures items == Created(old(items), old(item.value))
    {
      var id := 1;
      var i := 0;
      while i < |items|
        invariant 0 <= i <= |items|
        invariant id == NextId(items[..i])
      {
        assert items[..i + 1][..i] == items[..i];
        if items[i].id >= id {
          id := items[i].id + 1;
        }
        i := i + 1;
      }
      assert items[..i] == items;
      item.value := item.value.(id := id);
      CreatedKeepsUnique(items, item.value);
      items := items + [item.value];
      seeded := true;
      created := item;
    }

    /** `Update` overwrites done and title of the matching entry, or reports `ErrItemNotFound`
        and hands the caller's item back. */
    method Update(item: Item) returns (result: Item, err: Option<DbError>)
      requires Valid()
      modifies this
      ensures Valid() && seeded == old(seeded)
      ensures items == Updated(old(items), item)
      ensures !HasId(old(items), item.id) ==> result == item && err == Some(ErrItemNotFound)
      ensures HasId(old(items), item.id) ==>
                err == None && result == items[LastMatch(old(items), item.id).value]
    {
      var existing: Option<nat> := None;
      var i := 0;
      while i < |items|
        invariant 0 <= i <= |items|
        invariant existing == LastMatch(items[..i], item.id)
      {
        assert items[..i + 1][..i] == items[..i];
        if items[i].id == item.id {
          existing := Some(i);
        }
        i := i + 1;
      }
      assert items[..i] == items;
      if existing.None? {
        return item, Some(ErrItemNotFound);
      }
      UpdatedKeepsIds(items, item);
      var k := existing.value;
      items := items[k := items[k].(done := item.done, title := item.title)];
      result, err := items[k], None;
    }

    /** `Delete` cuts out the first entry with the id, if any; it never reports an error. */
    method Delete(id: int) returns (err: Option<DbError>)
      requires Valid()
      modifies this
      ensures Valid() && seeded == old(seeded)
      ensures items == RemoveFirst(old(items), id)
      ensures err == None
    {
      RemoveFirstKeepsUnique(items, id);
      var i := 0;
      while i < |items|
        invariant 0 <= i <= |items|
        invariant forall j :: 0 <= j < i ==> items[j].id != id
        invariant items == old(items)
      {
        if items[i].id == id {
          items := items[..i] + items[i + 1..];
          break;
        }
        i := i + 1;
      }
      err := None;
    }
  }

  // ----- properties of the specification -----

  /** Create appends exactly one element at the end and leaves the earlier ones alone; the new
      element keeps the caller's title and done flag and carries an id above every stored id. */
  lemma CreatedShape(s: seq<Item>, item: Item)
    ensures |Created(s, item)| == |s| + 1
    ensures Created(s, item)[..|s|] == s
    ensures Created(s, item)[|s|].title == item.title && Created(s, item)[|s|].done == item.done
    ensures forall i :: 0 <= i < |s| ==> s[i].id < Created(s, item)[|s|].id
  {
  }

  /** Create keeps ids unique. */
  lemma CreatedKeepsUnique(s: seq<Item>, item: Item)
    requires UniqueIds(s)
    ensures UniqueIds(Created(s, item))
  {
  }

  /** Update never writes an id and never changes the length. */
  lemma UpdatedKeepsIds(s: seq<Item>, item: Item)
    ensures |Updated(s, item)| == |s|
    ensures forall i :: 0 <= i < |s| ==> Updated(s, item)[i].id == s[i].id
    ensures UniqueIds(s) ==> UniqueIds(Updated(s, item))
  {
  }

  /** On a present id, Update changes done and title of the matching entry and nothing else. */
  lemma UpdatedTouchesOnlyMatch(s: seq<Item>, item: Item)
    requires HasId(s, item.id)
    ensures LastMatch(s, item.id).Some?
    ensures var k := LastMatch(s, item.id).value;
      Updated(s, item)[k] == Item(s[k].id, item.done, item.title) &&
      forall i :: 0 <= i < |s| && i != k ==> Updated(s, item)[i] == s[i]
  {
  }

  /** The last match depends only on the ids, so a sequence with the same ids has the same one. */
  lemma LastMatchByIds(s: seq<Item>, t: seq<Item>, id: int)
    requires |s| == |t|
    requires forall i :: 0 <= i < |s| ==> s[i].id == t[i].id
    ensures LastMatch(s, id) == LastMatch(t, id)
  {
    var a, b := LastMatch(s, id), LastMatch(t, id);
    if a.Some? && b.Some? {
      assert !(a.value < b.value) && !(b.value < a.value);
    }
  }

  /** Applying the same Update twice gives the state that applying it once gives. */
  lemma {:induction false} UpdatedIdempotent(s: seq<Item>, item: Item)
    ensures Updated(Updated(s, item), item) == Updated(s, item)
  {
    UpdatedKeepsIds(s, item);
    LastMatchByIds(Updated(s, item), s, item.id);
  }

  /** With unique ids the first and the last match coincide, so Update and Get agree on the entry. */
  lemma FirstIsLastWhenUnique(s: seq<Item>, id: int)
    requires UniqueIds(s)
    ensures FirstMatch(s, id) == LastMatch(s, id)
  {
    var a, b := FirstMatch(s, id), LastMatch(s, id);
    if a.Some? && b.Some? {
      assert !(a.value < b.value) && !(b.value < a.value);
    }
  }

  /** With unique ids Update replaces the stored entry by the given item wholesale. */
  lemma UpdateReplacesEntry(s: seq<Item>, item: Item)
    requires UniqueIds(s) && HasId(s, item.id)
    ensures FirstMatch(s, item.id).Some?
    ensures Updated(s, item) == s[FirstMatch(s, item.id).value := item]
  {
    FirstIsLastWhenUnique(s, item.id);
  }

  /** Marking the stored copy done and writing it back with Update makes `Get` see it done. */
  lemma MarkDonePersists(s: seq<Item>, id: int)
    requires UniqueIds(s) && HasId(s, id)
    ensures FindFirst(s, id).Some?
    ensures FindFirst(Updated(s, MarkedDone(FindFirst(s, id).value)), id) ==
            Some(MarkedDone(FindFirst(s, id).value))
  {
    var marked := MarkedDone(FindFirst(s, id).value);
    UpdateReplacesEntry(s, marked);
    var k := FirstMatch(s, id).value;
    var r := Updated(s, marked);
    UpdatedKeepsIds(s, marked);
    assert FirstMatch(r, id) == Some(k) by {
      assert r[k].id == id;
    }
  }

  /** After deleting id 1 from the seed, Create assigns 3, not 1. */
  lemma DeleteThenCreateDoesNotReuse()
    ensures Created(RemoveFirst(DataSeed(), 1), Item(0, false, "Item X")) ==
            [Item(2, false, "Item B"), Item(3, false, "Item X")]
  {
    assert FirstMatch(DataSeed(), 1) == Some(0);
    assert RemoveFirst(DataSeed(), 1) == [Item(2, false, "Item B")];
  }

  /** Ids are derived from the current maximum, so a freed id can be handed out again: on the
      seed, deleting id 2 makes the next Create hand out 2 again. */
  lemma DeletingMaxReusesId()
    ensures Created(RemoveFirst(DataSeed(), 2), Item(0, false, "Item X")) ==
            [Item(1, false, "Item A"), Item(2, false, "Item X")]
  {
    assert FirstMatch(DataSeed(), 2) == Some(1);
    assert RemoveFirst(DataSeed(), 2) == [Item(1, false, "Item A")];
  }

  /** Deleting an id while some larger id is still stored keeps the next id above the deleted
      one, for as long as that larger id remains. */
  lemma {:induction false} NextIdAboveDeletedWhileLargerStored(s: seq<Item>, id: int, j: nat)
    requires HasId(s, id)
    requires j < |s| && s[j].id > id
    ensures NextId(RemoveFirst(s, id)) > id
  {
    var k := FirstMatch(s, id).value;
    RemoveFirstShape(s, id, k);
    var r := RemoveFirst(s, id);
    assert j != k;
    var j' := if j < k then j else j - 1;
    assert r[j'] == s[j];
  }

  /** The sequence of store calls the HTTP handler tests make, one after another on the shared
      store: list, get, mark done, delete and create. */
  method HandlerTestSequence()
    returns (listedFirst: seq<Item>, got: Option<Item>, updated: Item, listedAfterDelete: seq<Item>,
             created: Item, listed: seq<Item>)
    ensures |listedFirst| == 2
    ensures got == Some(Item(1, false, "Item A"))
    ensures updated == Item(1, true, "Item A")
    ensures listedAfterDelete == [Item(2, false, "Item B")]
    ensures created == Item(3, false, "Item X")
    ensures listed == [Item(2, false, "Item B"), Item(3, false, "Item X")]
  {
    var store := new Store();
    store.NewClient();
    listedFirst := store.List();
    store.NewClient();
    got := store.Get(1);
    assert FirstMatch(store.items, 1) == Some(0);
    store.NewClient();
    var found := store.Get(1);
    var ptr := new ItemPtr(found.value);
    ptr.SetAsDone();
    var err;
    updated, err := store.Update(ptr.value);
    assert store.items == [Item(1, true, "Item A"), Item(2, false, "Item B")];
    store.NewClient();
    err := store.Delete(1);
    assert FirstMatch([Item(1, true, "Item A"), Item(2, false, "Item B")], 1) == Some(0);
    store.NewClient();
    listedAfterDelete := store.List();
    assert store.items == [Item(2, false, "Item B")];
    store.NewClient();
    var newItem := new ItemPtr(Item(0, false, "Item X"));
    var c := store.Create(newItem);
    created := c.value;
    assert store.items == [Item(2, false, "Item B"), Item(3, false, "Item X")];
    store.NewClient();
    listed := store.List();
  }
}

/** The to-do record and its collection (models/item.go). */
module Models {
  import opened Wrappers

  /** One to-do entry. Go's `int` is modelled as an unbounded `int`. */
  datatype Item = Item(id: int, done: bool, title: string)

  /** The item that `SetAsDone` leaves behind: done, with the same id and title. */
  function MarkedDone(item: Item): (r: Item)
    ensures r.done
    ensures r.id == item.id && r.title == item.title
  {
    item.(done := true)
  }

  /** Marking an item done twice is the same as marking it once. */
  lemma MarkedDoneIdempotent(item: Item)
    ensures MarkedDone(MarkedDone(item)) == MarkedDone(item)
  {
  }

  /** A Go `*Item`: a cell holding an item that methods with a pointer receiver update in place. */
  class ItemPtr {
    var value: Item

    constructor (item: Item)
      ensures value == item
    {
      value := item;
    }

    /** `SetAsDone` sets the Done field of the pointed-to item and nothing else. */
    method SetAsDone()
      modifies this
      ensures value == MarkedDone(old(value))
    {
      value := value.(done := true);
    }
  }

  /** The `Main` constructor: an empty collection. */
  function Main(): (r: seq<Item>)
    ensures |r| == 0
  {
    []
  }

  /** The two sample items every fresh store starts from. */
  function DataSeed(): seq<Item>
  {
    [Item(1, false, "Item A"), Item(2, false, "Item B")]
  }

  // ----- queries over a collection of items -----

  /** Some item of `s` carries `id`. */
  predicate HasId(s: seq<Item>, id: int)
  {
    exists i :: 0 <= i < |s| && s[i].id == id
  }

  /** No two items of `s` share an id. */
  predicate UniqueIds(s: seq<Item>)
  {
    forall i, j :: 0 <= i < j < |s| ==> s[i].id != s[j].id
  }

  lemma DataSeedShape()
    ensures |DataSeed()| == 2
    ensures DataSeed()[0].id == 1 && DataSeed()[1].id == 2
    ensures !DataSeed()[0].done && !DataSeed()[1].done
    ensures DataSeed()[0].title == "Item A" && DataSeed()[1].title == "Item B"
    ensures UniqueIds(DataSeed())
  {
  }

  /** The position of the first item with `id`, scanning from the front. */
  function FirstMatch(s: seq<Item>, id: int): (r: Option<nat>)
    ensures r.Some? ==> r.value < |s| && s[r.value].id == id
    ensures r.Some? ==> forall j :: 0 <= j < r.value ==> s[j].id != id
    ensures r.None? <==> !HasId(s, id)
    decreases |s|
  {
    if s == [] then None
    else if s[0].id == id then Some(0)
    else
      match FirstMatch(s[1..], id)
      case None => None
      case Some(k) => Some(k + 1)
  }

  /** The first item with `id`, as a copy, or nothing. */
  function FindFirst(s: seq<Item>, id: int): (r: Option<Item>)
    ensures r.None? <==> !HasId(s, id)
    ensures r.Some? ==> r.value.id == id
    ensures r.Some? ==> exists k :: 0 <= k < |s| && s[k] == r.value && forall j :: 0 <= j < k ==> s[j].id != id
  {
    match FirstMatch(s, id)
    case None => None
    case Some(k) => Some(s[k])
  }

  /** `s` without the first item that carries `id`; `s` itself when no item does. */
  function RemoveFirst(s: seq<Item>, id: int): (r: seq<Item>)
    ensures !HasId(s, id) ==> r == s
    ensures HasId(s, id) ==> |r| == |s| - 1
  {
    match FirstMatch(s, id)
    case None => s
    case Some(k) => s[..k] + s[k + 1..]
  }

  /** Removing the first match drops exactly that element and keeps the others in their order. */
  lemma RemoveFirstShape(s: seq<Item>, id: int, k: nat)
    requires FirstMatch(s, id) == Some(k)
    ensures |RemoveFirst(s, id)| == |s| - 1
    ensures forall j :: 0 <= j < k ==> RemoveFirst(s, id)[j] == s[j]
    ensures forall j :: k <= j < |s| - 1 ==> RemoveFirst(s, id)[j] == s[j + 1]
    ensures multiset(RemoveFirst(s, id)) + multiset{s[k]} == multiset(s)
  {
    assert s == s[..k] + [s[k]] + s[k + 1..];
  }

  /** Removing an id keeps ids unique, and afterwards that id is gone entirely. */
  lemma RemoveFirstKeepsUnique(s: seq<Item>, id: int)
    requires UniqueIds(s)
    ensures UniqueIds(RemoveFirst(s, id))
    ensures !HasId(RemoveFirst(s, id), id)
  {
    match FirstMatch(s, id)
    case None =>
    case Some(k) =>
      var r := RemoveFirst(s, id);
      RemoveFirstShape(s, id, k);
      forall i, j | 0 <= i < j < |r|
        ensures r[i].id != r[j].id
      {
        var i' := if i < k then i else i + 1;
        var j' := if j < k then j else j + 1;
        assert r[i] == s[i'] && r[j] == s[j'] && i' < j';
      }
      forall i | 0 <= i < |r|
        ensures r[i].id != id
      {
        var i' := if i < k then i else i + 1;
        assert r[i] == s[i'] && i' != k;
      }
  }
}

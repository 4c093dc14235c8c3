# In-memory to-do store

This project models the in-memory backend of a small to-do service in Dafny. The backend is one
process-wide ordered sequence of items (id, done flag, title). It offers the five repository
operations List, Get, Create, Update and Delete, and it seeds two sample items on first use. Each
item is one to-do entry.

The project also models the earlier snapshot of the same service (`src/main.go`). That snapshot
keeps the items in a global slice and edits the slice from its request handlers. Only its helpers
and the lines of its handlers that touch the store are modelled. They are kept so that its
id-by-length rule can be compared with the later running-maximum rule.

Modules, one per source file, plus the helper module `Wrappers`:

- `Models` (`models/item.go`): the `Item` datatype, `SetAsDone` (`ItemPtr`, a Go `*Item`), `Main`
  and `DataSeed`. It also holds the queries over a collection of items that both stores share:
  `HasId`, `UniqueIds`, `FirstMatch`, `FindFirst` and `RemoveFirst`. The last three are the
  specifications of the lookup and removal loops in `data/memory/memory.go` and `src/main.go`.
- `TodoModels` (`src/models/todo.go`): the snapshot's seed.
- `DbErrors` (`data/dberrors/dberrors.go`): `ErrItemNotFound`.
- `Memory` (`data/memory/memory.go`): class `Store` holds the package-level `items` slice. It
  also has a `seeded` flag, which stands for the slice being non-nil. Its methods are proved
  against the specification functions `FindFirst`, `NextId`, `Created`, `LastMatch`, `Updated`
  and `RemoveFirst`.
  `Valid()` is the store invariant: a nil slice holds nothing, and no two items share an id.
  Every mutating method keeps it.
- `Snapshot` (`src/main.go`): class `Store` holds the snapshot's global `items`.
- `Wrappers`: `Option`, where `None` stands for Go's nil result.

Ids are not fresh across deletions. Create computes the largest stored id plus 1, so an id freed
by a deletion can be handed out again: on the seed, deleting id 2 makes the next Create return 2
(`Memory.DeletingMaxReusesId`). An id deleted while a larger id is still stored is not handed
out while that larger id remains (`Memory.NextIdAboveDeletedWhileLargerStored`, with the seed
example `Memory.DeleteThenCreateDoesNotReuse`). Once every larger id is deleted too, it can be
handed out again.

## Model

| member | source | states |
|---|---|---|
| `Models.MarkedDone` | models/item_test.go:19-27 | the item `SetAsDone` leaves is done and keeps its id and title |
| `Models.ItemPtr.SetAsDone` | models/item.go:14-16 | the pointed-to item becomes `MarkedDone` of what it was; only that cell changes |
| `Models.MarkedDoneIdempotent` | models/item.go:14-16 | marking an item done twice gives the same item as marking it once |
| `Models.Main` | models/item.go:22-24 | the constructor returns an empty collection |
| `Models.DataSeedShape` | models/item.go:27-40 | the seed has exactly two items: ids 1 and 2 in that order, both not done, titled "Item A" and "Item B", ids unique |
| `Models.RemoveFirstShape` | data/memory/memory.go:88-95 | removing an id drops exactly the first matching element: length shrinks by 1, earlier elements keep their positions, later ones shift down by one, and the multiset loses just that element |
| `Models.RemoveFirstKeepsUnique` | data/memory/memory.go:88-95 | on a sequence with unique ids, removal keeps ids unique and leaves no item with the removed id |
| `TodoModels.DataSeedShape` | src/models/todo.go:17-29 | the snapshot's seed has two items, ids 1 and 2 in order, not done, titled "Item A" and "Item B", the same as the later seed |
| `Memory.NextId` | data/memory/memory.go:49-55 | the id the running-maximum loop computes is at least 1, above every stored id, and either 1 or one more than a stored id, so it is max(1, largest id + 1) |
| `Memory.LastMatch` | data/memory/memory.go:69-73 | the update loop, which has no break, finds the last index holding the id; none exactly when no item has it |
| `Memory.Store.constructor` | data/memory/memory.go:15 | the store starts as a nil slice: not seeded, no items, invariant holds |
| `Memory.Store.NewClient` | data/memory/memory.go:18-26 | a client seeds the store on first use and leaves the items alone on every later call |
| `Memory.Store.SeedOnce` | data/memory/memory.go:98-116 | the seed is installed only while the slice is nil; afterwards the store is seeded |
| `Memory.Store.List` | data/memory/memory.go:30-32 | all items are returned, in insertion order |
| `Memory.Store.Get` | data/memory/memory.go:35-44 | the result is the first item with the id, and absent exactly when no item has it; the store is not changed |
| `Memory.Store.Create` | data/memory/memory.go:47-62 | the caller's item gets id `NextId` of the old items and is appended as one element at the end; the same pointer is returned; ids stay unique |
| `Memory.Store.Update` | data/memory/memory.go:65-83 | an absent id returns the input item with `ErrItemNotFound` and changes nothing; a present id overwrites done and title of the last match, returns that entry and no error; ids stay unique |
| `Memory.Store.Delete` | data/memory/memory.go:86-96 | the first item with the id is removed (nothing when absent), the seeded flag is kept, and no error is returned |
| `Memory.CreatedShape` | data/memory/memory.go:57-61 | Create adds exactly one element at the end, earlier elements unchanged, and the new one keeps title and done and has an id above every stored id |
| `Memory.CreatedKeepsUnique` | data/memory/memory.go:49-59 | Create keeps ids unique |
| `Memory.UpdatedKeepsIds` | data/memory/memory.go:79-80 | Update never changes the length or any id, so it keeps ids unique |
| `Memory.UpdatedTouchesOnlyMatch` | data/memory/memory.go:69-82 | on a present id, the matching entry keeps its id and takes the new done and title; every other element is unchanged |
| `Memory.UpdatedIdempotent` | data/memory/memory.go:79-80 | applying the same Update twice gives the state one application gives |
| `Memory.FirstIsLastWhenUnique` | data/memory/memory.go:69-73 | with unique ids the last match Update uses is the first match Get and Delete use |
| `Memory.UpdateReplacesEntry` | data/memory/memory.go:79-80 | with unique ids and a present id, Update replaces the stored entry by the given item |
| `Memory.MarkDonePersists` | handlers.go:46-55 | getting an item, marking it done and writing it back with Update makes Get return it done |
| `Memory.DeleteThenCreateDoesNotReuse` | data/memory/memory.go:49-57 | after deleting id 1 from the seed, Create on "Item X" gives id 3 and the list is [Item B, Item X] |
| `Memory.DeletingMaxReusesId` | data/memory/memory.go:49-57 | after deleting id 2 from the seed, Create hands out id 2 again |
| `Memory.NextIdAboveDeletedWhileLargerStored` | data/memory/memory.go:49-55 | deleting an id while a larger id is still stored leaves the next id above the deleted one |
| `Memory.HandlerTestSequence` | handlers_test.go:36-180 | the tests' calls on one shared store: the list has 2 items; get 1 is Item A not done; marking it done gives Item A done; after deleting 1 the list is [Item B not done]; after creating "Item X" the list is [Item B, Item X with id 3] |
| `Snapshot.Store.constructor` | src/main.go:14 | the snapshot starts with an empty collection |
| `Snapshot.Store.SeedData` | src/main.go:138-141 | seeding replaces the whole collection with the seed |
| `Snapshot.Store.FindById` | src/main.go:118-125 | the result is a copy of the first item with the id, absent exactly when no item has it; the store is not changed |
| `Snapshot.Store.RemoveById` | src/main.go:100-107 | the first item with the id is removed and the rest keep their order; an absent id changes nothing |
| `Snapshot.Store.ReplaceItem` | src/main.go:90-97 | as written, the collection is the same afterwards, including when empty |
| `Snapshot.Store.AddItem` | src/main.go:55-56 | the item gets id length + 1 and is appended |
| `Snapshot.Store.UpdateItemAction` | src/main.go:65-67 | the id must be present; the answer is the first match marked done, and the store is not changed |
| `Snapshot.LengthNumberingReusesId` | src/main.go:55-56 | after deleting id 1 from the seed, adding an item duplicates id 2 |
| `Snapshot.LengthNumberingFreshWithoutDeletes` | src/main.go:55-56 | while ids are exactly 1..n, length + 1 equals the running-maximum id, so it keeps ids unique |
| `Snapshot.PutThenGet` | src/main.go:61-71 | after seeding, PUT /1 answers Item A done, yet the stored Item A is still not done |
| `Snapshot.ReplaceThenList` | src/main.go:90-97 | replacing with a changed item 1 leaves the seed as it was |

## Findings

| source | as written | input that shows it | evidently intended | confidence | as-written member | corrected member |
|---|---|---|---|---|---|---|
| src/main.go:55-56 | the new id is the collection length + 1 | seed, delete id 1, add "Item X": two items with id 2 | an id above every stored id, as the later store's running maximum gives | not executed; high | `Snapshot.LengthNumberingReusesId` | `Memory.CreatedKeepsUnique` |
| src/main.go:65-67 | Done is set on the copy `findByID` returns | seed, PUT /1, then GET /1: the stored item is still not done | the stored item becomes done, as the later handler gets it, marks it and writes it back with Update | not executed; high | `Snapshot.PutThenGet` | `Memory.MarkDonePersists` |
| src/main.go:90-97 | the loop variable shadows the parameter, so the id test compares an item with itself | seed, replaceItem({1, done, "Item A changed"}): nothing changes | the entry with the item's id is replaced, as the later store's Update does | not executed; high | `Snapshot.ReplaceThenList` | `Memory.UpdateReplacesEntry` |

## Left out

- The MongoDB backend (data/mongodb/mongodb.go) is not part of this model. It runs over a network connection with goroutines, channels and context timeouts, and its behaviour lives in the remote database.
- HTTP routing, JSON encoding and decoding, status codes and the server entry points (handlers.go, router.go, main.go and the HTTP parts of src/main.go) are not modelled. `getIDValue` is a call to `strconv.ParseInt`. Only the store calls of the handlers appear, in `Memory.HandlerTestSequence`, `Memory.MarkDonePersists` and `Snapshot.PutThenGet`.
- The `TodoRepository` interface and its selector (data/repository.go) are not modelled. The selector always returns the in-memory backend, so `Memory.Store` is called directly.
- The `Repo` handle that `NewClient` returns is not modelled, and neither is its constant `client` string. All state is package-level, so the handle carries none of it.
- Concurrency is not modelled: the slice has no locking, and the model runs each operation as one atomic step. Log output and process abort through `log.Fatal` are left out too.
- Memory.Store.Get: it returns a copy of the item, not a pointer into the slice. So a caller's later write through that pointer is not modelled. The Go handler does make such a write: it calls `SetAsDone` on the result before calling `Update`.
- Memory.Store.Update: it returns the updated entry as a value, not as a pointer into the slice.
- Memory.Store.List: it returns the items as a value. The Go slice shares its backing array with the store, so a later in-place shift by Delete would show through it. That is not modelled.
- Memory.Store.Create: ids are unbounded integers. The wrap-around of Go's fixed-width `int` at the largest id is not modelled.
- Memory.Store.List, Memory.Store.Get and Memory.Store.Create: their error results are always nil in the source, so they return only their value.
- Snapshot.Store.ReplaceItem: written without its loop. The shadowed test always holds, so the source's loop stops at its first iteration.
- Snapshot.Store.UpdateItemAction: requires the id to be present. The source dereferences a nil result otherwise, which is a runtime panic.
- The in-memory store's `dataSeed` writes its own copy of the seed literal. That literal equals `DataSeed` in models/item.go, so the model uses `Models.DataSeed`.

/** The record and seed data of the earlier snapshot (src/models/todo.go). Its `Item` struct has
    the same three fields as the later one, so it is the same datatype here. */
module TodoModels {
  import Models

  type Item = Models.Item

  /** The two sample items the earlier snapshot is seeded with. */
  function DataSeed(): seq<Item>
  {
    [Models.Item(1, false, "Item A"), Models.Item(2, false, "Item B")]
  }

  lemma DataSeedShape()
    ensures |DataSeed()| == 2
    ensures DataSeed()[0].id == 1 && DataSeed()[1].id == 2
    ensures !DataSeed()[0].done && !DataSeed()[1].done
    ensures DataSeed()[0].title == "Item A" && DataSeed()[1].title == "Item B"
    ensures DataSeed() == Models.DataSeed()
  {
  }
}

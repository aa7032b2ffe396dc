/** Items of a packing list and their lifecycle state. */
module Items {

  /** The four states an item moves through; the enum has no other value. */
  datatype ItemState = PackedIn | PackedOut | Purchased | Unpurchased

  datatype Item = Item(id: string, name: string, state: ItemState, deleted: bool)

  /** `new Item(id, name)`: the constructor's defaults apply to the last two fields. */
  function NewItem(id: string, name: string): (r: Item)
    ensures r.id == id && r.name == name
    ensures r.state == Unpurchased
    ensures !r.deleted
  {
    Item(id, name, Unpurchased, false)
  }
}

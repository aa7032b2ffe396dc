/** The edit operations a client records against a camp.  Every operation
    carries a client-generated `id` and an ISO-text `timestamp`; the list
    operations also name their target `listId`. */
module CampOperations {
  import opened Items

  datatype CampOperation =
    | Identity(id: string, timestamp: string)
    | CreateCamp(id: string, timestamp: string, name: string)
    | CreateCampList(id: string, timestamp: string, listId: string, name: string)
    | CreateCampItem(id: string, timestamp: string, listId: string, itemId: string, name: string)
    | ChangeCampItemState(id: string, timestamp: string, listId: string, itemIds: seq<string>, state: ItemState)
    | ChangeCampItemDeleted(id: string, timestamp: string, listId: string, itemIds: seq<string>, deleted: bool)
  {
    /** Operations addressed to one list. */
    predicate IsListOperation() {
      CreateCampList? || CreateCampItem? || ChangeCampItemState? || ChangeCampItemDeleted?
    }

    /** Operations that change a field of a set of items. */
    predicate IsItemChange() {
      ChangeCampItemState? || ChangeCampItemDeleted?
    }
  }

  /** The `type` tag of an operation. */
  datatype OpType =
    | IDENTITY | CREATE_CAMP | CREATE_CAMP_LIST | CREATE_CAMP_ITEM
    | CHANGE_CAMP_ITEM_STATE | CHANGE_CAMP_ITEM_DELETED

  function TypeOf(op: CampOperation): (t: OpType)
    ensures t == IDENTITY <==> op.Identity?
    ensures t == CREATE_CAMP <==> op.CreateCamp?
    ensures t == CREATE_CAMP_LIST <==> op.CreateCampList?
    ensures t == CREATE_CAMP_ITEM <==> op.CreateCampItem?
    ensures t == CHANGE_CAMP_ITEM_STATE <==> op.ChangeCampItemState?
    ensures t == CHANGE_CAMP_ITEM_DELETED <==> op.ChangeCampItemDeleted?
  {
    match op
    case Identity(_, _) => IDENTITY
    case CreateCamp(_, _, _) => CREATE_CAMP
    case CreateCampList(_, _, _, _) => CREATE_CAMP_LIST
    case CreateCampItem(_, _, _, _, _) => CREATE_CAMP_ITEM
    case ChangeCampItemState(_, _, _, _, _) => CHANGE_CAMP_ITEM_STATE
    case ChangeCampItemDeleted(_, _, _, _, _) => CHANGE_CAMP_ITEM_DELETED
  }

  /** `{ ...op, type: "IDENTITY" }`: the same operation, absorbed. */
  function Absorb(op: CampOperation): (r: CampOperation)
    ensures r.Identity? && r.id == op.id && r.timestamp == op.timestamp
  {
    Identity(op.id, op.timestamp)
  }
}

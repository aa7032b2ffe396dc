/** A camp snapshot and the projection that applies operations to it.
    Lists and items are found by id; the first match wins, and operations
    that name a missing list or missing items leave those parts alone. */
module Camps {
  import opened Results
  import opened Items
  import opened CampOperations

  datatype List = List(id: string, name: string, items: seq<Item>)

  datatype Camp = Camp(id: string, name: string, lists: seq<List>, revision: int)

  /** `new List(id, name)`: a list starts with no items. */
  function NewList(id: string, name: string): List {
    List(id, name, [])
  }

  /** The four operations the projection knows how to apply. */
  predicate Projectable(op: CampOperation) {
    op.IsListOperation()
  }

  /** Index of the first list with id `listId` (what `lists.find` returns). */
  function FindList(lists: seq<List>, listId: string): (r: Option<nat>)
    ensures r.Some? ==> r.value < |lists| && lists[r.value].id == listId
    ensures r.Some? ==> forall j :: 0 <= j < r.value ==> lists[j].id != listId
    ensures r.None? <==> forall j :: 0 <= j < |lists| ==> lists[j].id != listId
  {
    if |lists| == 0 then None
    else if lists[0].id == listId then Some(0)
    else
      match FindList(lists[1..], listId)
      case None => None
      case Some(k) => Some(k + 1)
  }

  /** The field an item-change operation sets. */
  datatype ItemChange = SetState(state: ItemState) | SetDeleted(deleted: bool)

  /** The per-item callback: a new item when the field differs, else the same item. */
  function ChangeItem(item: Item, change: ItemChange): Item {
    match change
    case SetState(s) => if item.state != s then Item(item.id, item.name, s, item.deleted) else item
    case SetDeleted(d) => if item.deleted != d then Item(item.id, item.name, item.state, d) else item
  }

  function MapItems(items: seq<Item>, itemIds: seq<string>, change: ItemChange): (r: seq<Item>)
    ensures |r| == |items|
    ensures forall k :: 0 <= k < |items| ==>
              r[k] == if items[k].id in itemIds then ChangeItem(items[k], change) else items[k]
  {
    seq(|items|, k requires 0 <= k < |items| =>
      if items[k].id in itemIds then ChangeItem(items[k], change) else items[k])
  }

  /** True when the callback really alters some targeted item. */
  predicate AnyChanged(items: seq<Item>, itemIds: seq<string>, change: ItemChange) {
    exists k :: 0 <= k < |items| && items[k].id in itemIds && ChangeItem(items[k], change) != items[k]
  }

  /** Rewrites the targeted items of the first list with id `listId`; the camp
      comes back as it was when the list is missing or nothing changes. */
  function TransformItems(camp: Camp, listId: string, itemIds: seq<string>, change: ItemChange): Camp {
    match FindList(camp.lists, listId)
    case None => camp
    case Some(i) =>
      var list := camp.lists[i];
      if !AnyChanged(list.items, itemIds, change) then camp
      else camp.(lists := camp.lists[i := List(list.id, list.name, MapItems(list.items, itemIds, change))])
  }

  /** Applies one operation.  IDENTITY and CREATE_CAMP are not projectable and fail. */
  function ApplyOperationToCamp(camp: Camp, op: CampOperation): (r: Result<Camp>)
    ensures r.Ok? <==> Projectable(op)
    ensures r.Err? ==> r.failure == UnknownOperation
    ensures r.Ok? ==> r.value.id == camp.id && r.value.name == camp.name && r.value.revision == camp.revision
    ensures r.Ok? && !op.CreateCampList? ==> |r.value.lists| == |camp.lists|
  {
    match op
    case CreateCampList(_, _, listId, name) =>
      Ok(camp.(lists := camp.lists + [NewList(listId, name)]))
    case CreateCampItem(_, _, listId, itemId, name) =>
      (match FindList(camp.lists, listId)
       case None => Ok(camp)
       case Some(i) =>
         var list := camp.lists[i];
         Ok(camp.(lists := camp.lists[i := List(list.id, list.name, list.items + [NewItem(itemId, name)])])))
    case ChangeCampItemState(_, _, listId, itemIds, state) =>
      Ok(TransformItems(camp, listId, itemIds, SetState(state)))
    case ChangeCampItemDeleted(_, _, listId, itemIds, deleted) =>
      Ok(TransformItems(camp, listId, itemIds, SetDeleted(deleted)))
    case _ =>
      Err(UnknownOperation)
  }

  /** Left fold of `ApplyOperationToCamp`; the first failure aborts the fold. */
  function ApplyOperationsToCamp(camp: Camp, ops: seq<CampOperation>): (r: Result<Camp>)
    ensures r.Err? ==> r.failure == UnknownOperation
    decreases |ops|
  {
    if |ops| == 0 then Ok(camp)
    else
      match ApplyOperationToCamp(camp, ops[0])
      case Err(f) => Err(f)
      case Ok(next) => ApplyOperationsToCamp(next, ops[1..])
  }

  /** Continues a fold result with more operations. */
  function ThenApply(r: Result<Camp>, ops: seq<CampOperation>): Result<Camp> {
    match r
    case Err(f) => Err(f)
    case Ok(c) => ApplyOperationsToCamp(c, ops)
  }

  // ---------------------------------------------------------------------------
  // Properties of the fold

  lemma ApplyNoOperations(camp: Camp)
    ensures ApplyOperationsToCamp(camp, []) == Ok(camp)
  {
  }

  lemma ApplyOneOperation(camp: Camp, op: CampOperation)
    ensures ApplyOperationsToCamp(camp, [op]) == ApplyOperationToCamp(camp, op)
  {
    assert [op][1..] == [];
  }

  /** Folding over `a + b` is folding over `a`, then over `b`. */
  lemma {:induction false} ApplyConcat(camp: Camp, a: seq<CampOperation>, b: seq<CampOperation>)
    ensures ApplyOperationsToCamp(camp, a + b) == ThenApply(ApplyOperationsToCamp(camp, a), b)
    decreases |a|
  {
    if |a| == 0 {
      assert a + b == b;
    } else {
      assert (a + b)[0] == a[0];
      assert (a + b)[1..] == a[1..] + b;
      match ApplyOperationToCamp(camp, a[0])
      case Err(_) =>
      case Ok(next) => ApplyConcat(next, a[1..], b);
    }
  }

  /** The fold succeeds exactly when every operation is projectable, and it
      never touches the camp's id, name or revision. */
  lemma {:induction false} ApplyAllSucceeds(camp: Camp, ops: seq<CampOperation>)
    ensures ApplyOperationsToCamp(camp, ops).Ok? <==> forall k :: 0 <= k < |ops| ==> Projectable(ops[k])
    ensures ApplyOperationsToCamp(camp, ops).Err? ==> ApplyOperationsToCamp(camp, ops).failure == UnknownOperation
    ensures ApplyOperationsToCamp(camp, ops).Ok? ==>
              var c := ApplyOperationsToCamp(camp, ops).value;
              c.id == camp.id && c.name == camp.name && c.revision == camp.revision
    decreases |ops|
  {
    if |ops| > 0 {
      match ApplyOperationToCamp(camp, ops[0])
      case Err(_) =>
      case Ok(next) =>
        ApplyAllSucceeds(next, ops[1..]);
        assert forall k :: 1 <= k < |ops| ==> ops[k] == ops[1..][k - 1];
    }
  }

  // ---------------------------------------------------------------------------
  // Properties of the single-operation projection

  /** CREATE_CAMP_LIST appends one empty list at the end and keeps the others in order. */
  lemma CreateListAppends(camp: Camp, op: CampOperation)
    requires op.CreateCampList?
    ensures var c := ApplyOperationToCamp(camp, op).value;
      && |c.lists| == |camp.lists| + 1
      && c.lists[..|camp.lists|] == camp.lists
      && c.lists[|camp.lists|] == List(op.listId, op.name, [])
  {
  }

  /** CREATE_CAMP_ITEM on a missing list changes nothing; on a present list it
      appends one default item to the first list with that id and to no other. */
  lemma CreateItemAppends(camp: Camp, op: CampOperation)
    requires op.CreateCampItem?
    ensures var c := ApplyOperationToCamp(camp, op).value;
      match FindList(camp.lists, op.listId)
      case None => c == camp
      case Some(i) =>
        && |c.lists| == |camp.lists|
        && (forall j :: 0 <= j < |camp.lists| && j != i ==> c.lists[j] == camp.lists[j])
        && c.lists[i].id == camp.lists[i].id
        && c.lists[i].name == camp.lists[i].name
        && c.lists[i].items == camp.lists[i].items + [Item(op.itemId, op.name, Unpurchased, false)]
  {
  }

  /** The state an item has after `op`, stated field by field. */
  predicate ItemAfter(before: Item, after: Item, op: CampOperation)
    requires op.IsItemChange()
  {
    var targeted := before.id in op.itemIds;
    && after.id == before.id
    && after.name == before.name
    && after.state == (if op.ChangeCampItemState? && targeted then op.state else before.state)
    && after.deleted == (if op.ChangeCampItemDeleted? && targeted then op.deleted else before.deleted)
  }

  /** The item-change operations set their field on exactly the targeted items
      of the first list with the given id; nothing else in the camp changes. */
  lemma ChangeItemsSetsField(camp: Camp, op: CampOperation)
    requires op.IsItemChange()
    ensures var c := ApplyOperationToCamp(camp, op).value;
      match FindList(camp.lists, op.listId)
      case None => c == camp
      case Some(i) =>
        && |c.lists| == |camp.lists|
        && (forall j :: 0 <= j < |camp.lists| && j != i ==> c.lists[j] == camp.lists[j])
        && c.lists[i].id == camp.lists[i].id
        && c.lists[i].name == camp.lists[i].name
        && |c.lists[i].items| == |camp.lists[i].items|
        && forall k :: 0 <= k < |camp.lists[i].items| ==>
             ItemAfter(camp.lists[i].items[k], c.lists[i].items[k], op)
  {
    var change := if op.ChangeCampItemState? then SetState(op.state) else SetDeleted(op.deleted);
    assert ApplyOperationToCamp(camp, op) == Ok(TransformItems(camp, op.listId, op.itemIds, change));
    match FindList(camp.lists, op.listId)
    case None =>
    case Some(i) =>
      var items := camp.lists[i].items;
      if !AnyChanged(items, op.itemIds, change) {
        forall k | 0 <= k < |items|
          ensures ItemAfter(items[k], items[k], op)
        {
          if items[k].id in op.itemIds {
            assert ChangeItem(items[k], change) == items[k];
          }
        }
      }
  }

  /** An item-change operation leaves the camp equal to its input exactly when
      the list is missing or every targeted item already has the target value. */
  lemma ChangeItemsNoOp(camp: Camp, op: CampOperation)
    requires op.IsItemChange()
    ensures ApplyOperationToCamp(camp, op) == Ok(camp) <==>
      match FindList(camp.lists, op.listId)
      case None => true
      case Some(i) =>
        forall k :: 0 <= k < |camp.lists[i].items| && camp.lists[i].items[k].id in op.itemIds ==>
          if op.ChangeCampItemState? then camp.lists[i].items[k].state == op.state
          else camp.lists[i].items[k].deleted == op.deleted
  {
    ChangeItemsSetsField(camp, op);
    match FindList(camp.lists, op.listId)
    case None =>
    case Some(i) =>
      var items := camp.lists[i].items;
      var c := ApplyOperationToCamp(camp, op).value;
      if exists k :: 0 <= k < |items| && items[k].id in op.itemIds &&
           (if op.ChangeCampItemState? then items[k].state != op.state else items[k].deleted != op.deleted) {
        var k :| 0 <= k < |items| && items[k].id in op.itemIds &&
           (if op.ChangeCampItemState? then items[k].state != op.state else items[k].deleted != op.deleted);
        assert ItemAfter(items[k], c.lists[i].items[k], op);
        assert c.lists[i].items[k] != items[k];
        assert c != camp;
      } else {
        assert |c.lists[i].items| == |items|;
        forall k | 0 <= k < |items|
          ensures c.lists[i].items[k] == items[k]
        {
          assert ItemAfter(items[k], c.lists[i].items[k], op);
        }
        assert c.lists[i].items == items;
        assert c.lists[i] == camp.lists[i];
        assert c.lists == camp.lists;
      }
  }
}

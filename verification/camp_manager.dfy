/** The client's per-camp sync state: the speculative snapshot `current`, the
    last confirmed snapshot `server`, the operations not yet confirmed, and
    whether a synchronize call is in flight. */
module CampManagers {
  import opened Results
  import opened CampOperations
  import opened Camps
  import opened Protocol

  datatype CampManager = CampManager(
    campId: string,
    current: Camp,
    server: Option<Camp>,
    lastServerOperation: int,
    operations: seq<CampOperation>,
    synchronizing: bool)

  /** What the client sends: camp id, last known revision and its pending
      operations.  The count of operations sent is kept to interpret the reply. */
  datatype SyncRequest = SyncRequest(campId: string, opIndex: int, newOps: seq<CampOperation>)

  /** The reply as the client sees it: `{status, serverOps?, campId?}`. */
  datatype SyncResult = SyncResult(status: SyncStatus, serverOps: Option<seq<CampOperation>>, campId: Option<string>)

  /** `ops.slice(n)`: the operations after the first `n`. */
  function Drop(ops: seq<CampOperation>, n: nat): (r: seq<CampOperation>)
    ensures n <= |ops| ==> ops == ops[..n] + r
    ensures n >= |ops| ==> r == []
  {
    if n >= |ops| then [] else ops[n..]
  }

  /** A camp created locally: only the CREATE_CAMP operation is pending and
      nothing is confirmed yet. */
  function CreateNewCamp(id: string, op: CampOperation): (cm: CampManager)
    requires op.CreateCamp?
    ensures cm.campId == id && cm.operations == [op] && cm.lastServerOperation == 0
    ensures cm.current == Camp(id, op.name, [], 1)
    ensures cm.server.None? && !cm.synchronizing
  {
    CampManager(id, Camp(id, op.name, [], 1), None, 0, [op], false)
  }

  /** A camp loaded from the server: confirmed and speculative snapshots agree
      and nothing is pending.  (`revision || 0` is `revision` for a number.) */
  function ConnectCamp(camp: Camp): (cm: CampManager)
    ensures cm.campId == camp.id && cm.current == camp && cm.server == Some(camp)
    ensures cm.lastServerOperation == camp.revision && cm.operations == [] && !cm.synchronizing
  {
    CampManager(camp.id, camp, Some(camp), camp.revision, [], false)
  }

  function ResetCampManager(cm: CampManager): (r: CampManager)
    ensures !r.synchronizing
    ensures r.(synchronizing := cm.synchronizing) == cm
  {
    cm.(synchronizing := false)
  }

  /** Starts a synchronize round unless one is in flight: at most one request
      per camp is outstanding. */
  function SynchronizeCamp(cm: CampManager): (r: (CampManager, Option<SyncRequest>))
    ensures cm.synchronizing ==> r == (cm, None)
    ensures !cm.synchronizing ==>
              r.0 == cm.(synchronizing := true) &&
              r.1 == Some(SyncRequest(cm.campId, cm.lastServerOperation, cm.operations))
  {
    if cm.synchronizing then (cm, None)
    else (cm.(synchronizing := true), Some(SyncRequest(cm.campId, cm.lastServerOperation, cm.operations)))
  }

  /** A local edit: applied to the speculative snapshot at once and queued. */
  function ApplyUserOperation(cm: CampManager, op: CampOperation): (r: Result<CampManager>)
    ensures r.Ok? <==> Projectable(op)
    ensures r.Ok? ==> r.value.operations == cm.operations + [op]
    ensures r.Ok? ==> r.value.current == ApplyOperationToCamp(cm.current, op).value
    ensures r.Ok? ==> r.value.(current := cm.current, operations := cm.operations) == cm
  {
    var current :- ApplyOperationToCamp(cm.current, op);
    Ok(cm.(current := current, operations := cm.operations + [op]))
  }

  /** Handles the reply to a request that carried the first `operationCount`
      pending operations. */
  function SyncResponse(cm: CampManager, operationCount: nat, result: SyncResult): (r: Result<CampManager>)
    // RETRY: only the in-flight flag changes.
    ensures result.status == Retry ==> r == Ok(cm.(synchronizing := false))
    // ALL_GOOD: the sent operations are confirmed; later ones stay pending.
    ensures result.status == AllGood ==>
      && r.Ok?
      && r.value.operations == Drop(cm.operations, operationCount)
      && r.value.lastServerOperation == cm.lastServerOperation + operationCount
      && r.value.server == Some(r.value.current)
      && r.value.current.(id := cm.current.id) == cm.current
      && r.value.current.id == (if Truthy(result.campId) && result.campId.value != cm.campId
                                then result.campId.value else cm.current.id)
      && r.value.campId == (if Truthy(result.campId) then result.campId.value else cm.campId)
      && !r.value.synchronizing
    // NEED_UPDATE: requires a confirmed snapshot and server operations, and no new id.
    ensures result.status == NeedUpdate && (cm.server.None? || result.serverOps.None? || Truthy(result.campId)) ==>
      r == Err(Catastrophic)
    ensures result.status == NeedUpdate && r.Ok? ==>
      && cm.server.Some? && result.serverOps.Some? && r.value.server.Some?
      && ApplyOperationsToCamp(cm.server.value, result.serverOps.value) == Ok(r.value.server.value)
      && r.value.operations == Drop(cm.operations, operationCount)
      && ApplyOperationsToCamp(r.value.server.value, r.value.operations) == Ok(r.value.current)
      && r.value.lastServerOperation == cm.lastServerOperation + |result.serverOps.value|
      && r.value.campId == cm.campId
      && !r.value.synchronizing
    ensures result.status == NeedUpdate && cm.server.Some? && result.serverOps.Some? && !Truthy(result.campId) ==>
      (r.Ok? <==> ThenApply(ApplyOperationsToCamp(cm.server.value, result.serverOps.value),
                            Drop(cm.operations, operationCount)).Ok?)
    // The only failures: a malformed NEED_UPDATE, or an operation the projection rejects.
    ensures r.Err? ==> r.failure == Catastrophic || r.failure == UnknownOperation
  {
    match result.status
    case Retry => Ok(cm.(synchronizing := false))
    case AllGood =>
      var current :=
        if Truthy(result.campId) && result.campId.value != cm.campId
        then cm.current.(id := result.campId.value)
        else cm.current;
      Ok(cm.(
        current := current,
        server := Some(current),
        operations := Drop(cm.operations, operationCount),
        lastServerOperation := cm.lastServerOperation + operationCount,
        campId := if Truthy(result.campId) then result.campId.value else cm.campId,
        synchronizing := false))
    case NeedUpdate =>
      if cm.server.None? || result.serverOps.None? || Truthy(result.campId) then Err(Catastrophic)
      else
        var newServer :- ApplyOperationsToCamp(cm.server.value, result.serverOps.value);
        var newClientOps := Drop(cm.operations, operationCount);
        var current :- ApplyOperationsToCamp(newServer, newClientOps);
        Ok(cm.(
          server := Some(newServer),
          current := current,
          operations := newClientOps,
          lastServerOperation := cm.lastServerOperation + |result.serverOps.value|,
          synchronizing := false))
  }

  // ---------------------------------------------------------------------------
  // The speculative snapshot is the confirmed one plus the pending operations

  predicate Consistent(cm: CampManager) {
    cm.server.Some? && ApplyOperationsToCamp(cm.server.value, cm.operations) == Ok(cm.current)
  }

  lemma ConnectCampConsistent(camp: Camp)
    ensures Consistent(ConnectCamp(camp))
  {
  }

  /** A local edit keeps `current` equal to `server` plus the pending operations. */
  lemma ApplyUserOperationConsistent(cm: CampManager, op: CampOperation)
    requires Consistent(cm) && Projectable(op)
    ensures Consistent(ApplyUserOperation(cm, op).value)
  {
    ApplyConcat(cm.server.value, cm.operations, [op]);
    ApplyOneOperation(cm.current, op);
  }

  /** A reply to a round that carried every pending operation leaves a
      consistent manager with nothing pending. */
  lemma AllGoodConsistent(cm: CampManager, operationCount: nat, result: SyncResult)
    requires result.status == AllGood && operationCount >= |cm.operations|
    ensures var r := SyncResponse(cm, operationCount, result).value;
      Consistent(r) && r.operations == []
  {
  }

  /** After NEED_UPDATE the manager is consistent again, whatever it was before. */
  lemma NeedUpdateConsistent(cm: CampManager, operationCount: nat, result: SyncResult)
    requires result.status == NeedUpdate && SyncResponse(cm, operationCount, result).Ok?
    ensures var r := SyncResponse(cm, operationCount, result).value;
      && Consistent(r)
      && ApplyOperationsToCamp(cm.server.value, result.serverOps.value + r.operations) == Ok(r.current)
  {
    var r := SyncResponse(cm, operationCount, result).value;
    ApplyConcat(cm.server.value, result.serverOps.value, r.operations);
  }

  /** A full round: the operations present when the request was built are the
      ones ALL_GOOD confirms; operations the user adds while the request is in
      flight stay pending, in order. */
  lemma {:induction false} RoundTripKeepsLaterOps(cm: CampManager, later: seq<CampOperation>, newId: Option<string>)
    requires !cm.synchronizing
    ensures var (sent, request) := SynchronizeCamp(cm);
      var edited := sent.(operations := sent.operations + later);
      var r := SyncResponse(edited, |request.value.newOps|, SyncResult(AllGood, None, newId));
      && r.Ok?
      && r.value.operations == later
      && r.value.lastServerOperation == cm.lastServerOperation + |cm.operations|
      && !r.value.synchronizing
  {
    var request := SynchronizeCamp(cm).1;
    assert (cm.operations + later)[|cm.operations|..] == later;
  }

  /** NEED_UPDATE drops the operations that were sent and does not rebase them:
      they are in neither the pending list nor the new speculative snapshot. */
  lemma NeedUpdateDropsSentOps(cm: CampManager, serverOps: seq<CampOperation>)
    requires cm.server.Some? && |cm.operations| > 0
    requires ApplyOperationsToCamp(cm.server.value, serverOps).Ok?
    ensures var r := SyncResponse(cm, |cm.operations|, SyncResult(NeedUpdate, Some(serverOps), None));
      && r.Ok?
      && r.value.operations == []
      && r.value.current == r.value.server.value
      && r.value.server == Some(ApplyOperationsToCamp(cm.server.value, serverOps).value)
  {
  }

  /** ALL_GOOD with operations still pending makes `server` include them: the
      confirmed snapshot can then be ahead of what the server holds.  A concrete
      case: one CREATE_CAMP_LIST sent, a second added during the round trip. */
  lemma AllGoodWithLaterOpsIsInconsistent()
    ensures var a := CreateCampList("op1", "t1", "L1", "Gear");
      var b := CreateCampList("op2", "t2", "L2", "Food");
      var base := Camp("c", "Camp", [], 1);
      var current := Camp("c", "Camp", [NewList("L1", "Gear"), NewList("L2", "Food")], 1);
      var cm := CampManager("c", current, Some(base), 1, [a, b], true);
      var r := SyncResponse(cm, 1, SyncResult(AllGood, None, None)).value;
      && Consistent(cm)
      && r.operations == [b]
      && !Consistent(r)
  {
    var a := CreateCampList("op1", "t1", "L1", "Gear");
    var b := CreateCampList("op2", "t2", "L2", "Food");
    var base := Camp("c", "Camp", [], 1);
    var current := Camp("c", "Camp", [NewList("L1", "Gear"), NewList("L2", "Food")], 1);
    assert ApplyOperationsToCamp(base, [a, b]) == Ok(current) by {
      var afterA := Camp("c", "Camp", [NewList("L1", "Gear")], 1);
      assert base.lists + [NewList("L1", "Gear")] == afterA.lists;
      assert ApplyOperationToCamp(base, a) == Ok(afterA);
      assert afterA.lists + [NewList("L2", "Food")] == current.lists;
      assert [a, b][1..] == [b];
      ApplyOneOperation(afterA, b);
    }
    ApplyOneOperation(current, b);
    assert |ApplyOperationToCamp(current, b).value.lists| == 3;
  }
}

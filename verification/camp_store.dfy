/** The older class form of the client's per-camp state.  It pushes the
    operation before projecting it, so a projection that throws leaves the
    operation queued and `current` as it was. */
module CampStores {
  import opened Results
  import opened CampOperations
  import opened Camps
  import CampManagers

  datatype CampStore = CampStore(
    current: Camp,
    server: Option<Camp>,
    lastServerOperation: int,
    operations: seq<CampOperation>,
    operationsStartIndex: int,
    synchronizing: bool)

  /** `new CampStore(camp)`: the field initialisers plus `current := camp`. */
  function NewCampStore(camp: Camp): (st: CampStore)
    ensures st.current == camp && st.server.None?
    ensures st.lastServerOperation == 0 && st.operations == [] && st.operationsStartIndex == 0
    ensures !st.synchronizing
  {
    CampStore(camp, None, 0, [], 0, false)
  }

  /** The state after the call, and the error it throws if the projection fails. */
  function ApplyUserOperation(st: CampStore, op: CampOperation): (r: (CampStore, Option<Failure>))
    ensures r.0.operations == st.operations + [op]
    ensures r.1.None? <==> Projectable(op)
    ensures r.1.Some? ==> r.1.value == UnknownOperation && r.0.current == st.current
    ensures r.1.None? ==> r.0.current == ApplyOperationToCamp(st.current, op).value
    ensures r.0.(current := st.current, operations := st.operations) == st
  {
    var pushed := st.(operations := st.operations + [op]);
    match ApplyOperationToCamp(st.current, op)
    case Err(f) => (pushed, Some(f))
    case Ok(c) => (pushed.(current := c), None)
  }

  /** The state part of `synchronize`: while a round is in flight nothing
      changes (the call is only rescheduled); otherwise the flag is set. */
  function Synchronize(st: CampStore): (r: CampStore)
    ensures st.synchronizing ==> r == st
    ensures r.synchronizing && r.(synchronizing := st.synchronizing) == st
  {
    if st.synchronizing then st else st.(synchronizing := true)
  }

  lemma SynchronizeIdempotent(st: CampStore)
    ensures Synchronize(Synchronize(st)) == Synchronize(st)
  {
  }

  /** The class agrees with the record form on a projectable operation; on
      one that is not, the class still queues it while the record form fails. */
  lemma ApplyAgreesWithManager(st: CampStore, cm: CampManagers.CampManager, op: CampOperation)
    requires st.current == cm.current && st.operations == cm.operations
    ensures Projectable(op) ==>
      var r := ApplyUserOperation(st, op).0;
      var m := CampManagers.ApplyUserOperation(cm, op).value;
      r.current == m.current && r.operations == m.operations
    ensures !Projectable(op) ==>
      CampManagers.ApplyUserOperation(cm, op).Err? &&
      ApplyUserOperation(st, op).0.operations == cm.operations + [op]
  {
  }
}

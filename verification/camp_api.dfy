/** The server's synchronize handler: creates a camp, reports operations the
    client has not seen, or appends the client's operations with one
    conditional write. */
module CampApi {
  import opened Results
  import opened CampOperations
  import opened Camps
  import opened Store
  import opened Protocol

  /** The batch starts with CREATE_CAMP. */
  predicate IsCreateBatch(newOps: Option<seq<CampOperation>>) {
    newOps.Some? && |newOps.value| > 0 && newOps.value[0].CreateCamp?
  }

  /** The client's operations; an absent list counts as empty. */
  function ClientOps(newOps: Option<seq<CampOperation>>): seq<CampOperation> {
    if newOps.Some? then newOps.value else []
  }

  predicate AllProjectable(ops: seq<CampOperation>) {
    forall k :: 0 <= k < |ops| ==> Projectable(ops[k])
  }

  /** A newly generated id: no camp record and no chunk records under it. */
  predicate Unused(s: StoreState, id: string) {
    id !in s.camps && ChunksOf(s, id) == map[]
  }

  /** Creates a camp from a batch whose first operation is CREATE_CAMP: the
      camp starts empty at revision 1, the rest of the batch is applied to it,
      and it is written at revision 0 under a newly generated id. */
  method CreateCamp(s: StoreState, userId: Option<string>, ops: seq<CampOperation>, freshId: string)
    returns (r: Result<SynchronizeResponse>, s': StoreState)
    requires |ops| > 0
    ensures !Truthy(userId) ==> r == Err(AuthenticationFailure) && s' == s
    ensures Truthy(userId) && !(ops[0].CreateCamp? && ops[0].name != "") ==> r == Err(NoName) && s' == s
    ensures r.Err? ==> s' == s
    ensures r.Ok? ==> ops[0].CreateCamp? && AllProjectable(ops[1..])
    ensures r.Ok? ==> r.value == SynchronizeResponse(AllGood, None, Some(freshId))
    ensures r.Ok? && Unused(s, freshId) ==> ChunkedLog(s', freshId, ops) && s'.camps[freshId].name == ops[0].name
    ensures (Truthy(userId) && ops[0].CreateCamp? && ops[0].name != "" && AllProjectable(ops[1..]) &&
             Unused(s, freshId)) ==> r.Ok?
    ensures (Truthy(userId) && ops[0].CreateCamp? && ops[0].name != "" && !AllProjectable(ops[1..])) ==>
              r == Err(UnknownOperation) && s' == s
    // The record written is the rest of the batch applied to an empty camp; the
    // record keeps no revision, and a read reports its operation count instead.
    ensures r.Ok? ==>
              && ApplyOperationsToCamp(Camp("", ops[0].name, [], 1), ops[1..]).Ok?
              && freshId in s'.camps
              && s'.camps[freshId] ==
                   DbCamp(ops[0].name, ApplyOperationsToCamp(Camp("", ops[0].name, [], 1), ops[1..]).value.lists, |ops|)
              && GetCampWithOps(s', freshId, |ops|) ==
                   (Some(Camp(freshId, ops[0].name, ApplyOperationsToCamp(Camp("", ops[0].name, [], 1), ops[1..]).value.lists, |ops|)), [])
  {
    if !Truthy(userId) {
      return Err(AuthenticationFailure), s;
    }
    var createOp := ops[0];
    if !createOp.CreateCamp? || createOp.name == "" {
      return Err(NoName), s;
    }
    var camp := Camp("", createOp.name, [], 1);
    ApplyAllSucceeds(camp, ops[1..]);
    if |ops| > 1 {
      var applied := ApplyOperationsToCamp(camp, ops[1..]);
      if applied.Err? {
        return Err(applied.failure), s;
      }
      camp := applied.value;
    } else {
      assert AllProjectable(ops[1..]);
    }
    if Unused(s, freshId) {
      CreateStartsLog(s, camp, ops, freshId);
    }
    var w := WriteCamp(s, camp, ops, 0, freshId);
    if !w.succeeded {
      return Err(CreateFailed), s;
    }
    return Ok(SynchronizeResponse(AllGood, None, Some(w.campId))), w.state;
  }

  /** The store when a failed write re-reads: the `concurrent` updates ran
      before the write, the `later` ones between the write and the re-read. */
  function AfterLater(s: StoreState, concurrent: seq<WriteRequest>, later: seq<WriteRequest>): StoreState {
    RunWrites(RunWrites(s, concurrent).0, later).0
  }

  /** The operations the `later` updates commit. */
  function LaterCommits(s: StoreState, concurrent: seq<WriteRequest>, later: seq<WriteRequest>): seq<CampOperation> {
    var sNow := RunWrites(s, concurrent).0;
    Committed(later, RunWrites(sNow, later).1)
  }

  /** What the conditional write of `clientOps` at `opIndex` leads to, when the
      camp's log was `log` at the handler's read, the `concurrent` updates
      were attempted before the write, and the `later` ones after it.  The
      write lands exactly when `opIndex` is the log's length by then, and
      stores `oldCamp` with the batch applied.  Otherwise the handler reads
      again, after the `later` updates: the operations from `opIndex` on come
      back, or, when there are none, the changes are reported lost. */
  ghost predicate WriteOutcome(
    s: StoreState, campId: string, opIndex: nat, oldCamp: Camp, clientOps: seq<CampOperation>,
    concurrent: seq<WriteRequest>, later: seq<WriteRequest>, log: seq<CampOperation>,
    r: Result<SynchronizeResponse>, s': StoreState)
  {
    var full := log + Committed(concurrent, RunWrites(s, concurrent).1);
    RaceOutcome(campId, opIndex, oldCamp, clientOps, full, full + LaterCommits(s, concurrent, later),
                AfterLater(s, concurrent, later), r, s')
  }

  /** `WriteOutcome` over the logs themselves: `full` is the log the write
      meets, `latest` the log the re-read meets, in store `sAfter`. */
  ghost predicate RaceOutcome(
    campId: string, opIndex: nat, oldCamp: Camp, clientOps: seq<CampOperation>,
    full: seq<CampOperation>, latest: seq<CampOperation>, sAfter: StoreState,
    r: Result<SynchronizeResponse>, s': StoreState)
  {
    if opIndex == |full| then
      && r == Ok(SynchronizeResponse(AllGood, None, None))
      && ChunkedLog(s', campId, full + clientOps)
      && ApplyOperationsToCamp(oldCamp, clientOps).Ok?
      && s'.camps[campId] == DbCamp(ApplyOperationsToCamp(oldCamp, clientOps).value.name,
                                    ApplyOperationsToCamp(oldCamp, clientOps).value.lists,
                                    opIndex + |clientOps|)
    else if opIndex < |latest| then
      r == Ok(SynchronizeResponse(NeedUpdate, Some(latest[opIndex..]), None)) && s' == sAfter
    else
      r == Err(LostChanges) && s' == sAfter
  }

  /** The write behind `WriteClientOps`, for a camp whose log was `log` at the
      handler's read: it lands exactly at the length the log has after the
      `concurrent` updates, and appends the batch there. */
  lemma WriteAfterConcurrent(
    s: StoreState, campId: string, opIndex: nat, newCamp: Camp, clientOps: seq<CampOperation>, freshId: string,
    concurrent: seq<WriteRequest>, log: seq<CampOperation>)
    requires ChunkedLog(s, campId, log) && UpdatesOf(concurrent, campId)
    requires newCamp.id == campId && |clientOps| > 0 && !clientOps[0].CreateCamp?
    ensures var sNow := RunWrites(s, concurrent).0;
      var full := log + Committed(concurrent, RunWrites(s, concurrent).1);
      var w := WriteCamp(sNow, newCamp, clientOps, opIndex, freshId);
      && ChunkedLog(sNow, campId, full)
      && (w.succeeded <==> opIndex == |full|)
      && (w.succeeded ==> ChunkedLog(w.state, campId, full + clientOps))
      && (w.succeeded ==> w.state.camps[campId] == DbCamp(newCamp.name, newCamp.lists, opIndex + |clientOps|))
      && (!w.succeeded ==> w.state == sNow)
  {
    var sNow := RunWrites(s, concurrent).0;
    var full := log + Committed(concurrent, RunWrites(s, concurrent).1);
    WritesAccumulate(s, campId, log, concurrent);
    WriteOnLog(sNow, newCamp, clientOps, opIndex, freshId, full);
  }

  /** The re-read after a failed write: once the `later` updates have run, it
      returns the log as it then stands from `opIndex` on. */
  lemma ReadAfterLater(
    s: StoreState, campId: string, opIndex: nat, concurrent: seq<WriteRequest>, later: seq<WriteRequest>,
    full: seq<CampOperation>)
    requires ChunkedLog(RunWrites(s, concurrent).0, campId, full) && UpdatesOf(later, campId)
    ensures var latest := full + LaterCommits(s, concurrent, later);
      var reread := GetCampWithOps(AfterLater(s, concurrent, later), campId, opIndex);
      && reread.0.Some?
      && reread.1 == (if opIndex >= |latest| then [] else latest[opIndex..])
  {
    var sNow := RunWrites(s, concurrent).0;
    var latest := full + LaterCommits(s, concurrent, later);
    WritesAccumulate(sNow, campId, full, later);
    ReadOnLog(AfterLater(s, concurrent, later), campId, latest, opIndex);
  }

  /** A write that was up to date at the handler's read but lost the race
      hands back exactly the foreign operations: those that beat it, then
      those committed before the re-read. */
  lemma BeatenOutcome(
    campId: string, opIndex: nat, oldCamp: Camp, clientOps: seq<CampOperation>,
    log: seq<CampOperation>, committed: seq<CampOperation>, laterOps: seq<CampOperation>, sAfter: StoreState,
    r: Result<SynchronizeResponse>, s': StoreState)
    requires RaceOutcome(campId, opIndex, oldCamp, clientOps, log + committed, log + committed + laterOps, sAfter, r, s')
    requires opIndex == |log| && committed != []
    ensures r == Ok(SynchronizeResponse(NeedUpdate, Some(committed + laterOps), None))
    ensures s' == sAfter
  {
    assert (log + committed + laterOps)[opIndex..] == committed + laterOps;
  }

  /** The write half of `syncCamp`, reached when the client is up to date by its
      own read and has operations to send.  `concurrent` are updates other
      requests attempt between that read and this write; `later` are those
      they attempt between a failed write and the re-read that follows it. */
  method WriteClientOps(
    s: StoreState, campId: string, opIndex: nat, oldCamp: Camp,
    clientOps: seq<CampOperation>, freshId: string, concurrent: seq<WriteRequest>, later: seq<WriteRequest>)
    returns (r: Result<SynchronizeResponse>, s': StoreState)
    requires |clientOps| > 0 && !clientOps[0].CreateCamp?
    ensures !AllProjectable(clientOps) ==> r == Err(UnknownOperation) && s' == RunWrites(s, concurrent).0
    ensures forall log :: (ChunkedLog(s, campId, log) && AllProjectable(clientOps) && opIndex == |log| &&
              oldCamp.id == campId && UpdatesOf(concurrent, campId) &&
              Committed(concurrent, RunWrites(s, concurrent).1) == []) ==>
              && r == Ok(SynchronizeResponse(AllGood, None, None))
              && ChunkedLog(s', campId, log + clientOps)
              && s'.camps[campId].opCount == opIndex + |clientOps|
    ensures forall log :: (ChunkedLog(s, campId, log) && AllProjectable(clientOps) && opIndex == |log| &&
              oldCamp.id == campId && UpdatesOf(concurrent, campId) && UpdatesOf(later, campId) &&
              Committed(concurrent, RunWrites(s, concurrent).1) != []) ==>
              && r == Ok(SynchronizeResponse(NeedUpdate,
                           Some(Committed(concurrent, RunWrites(s, concurrent).1) + LaterCommits(s, concurrent, later)), None))
              && s' == AfterLater(s, concurrent, later)
    ensures forall log :: (ChunkedLog(s, campId, log) && AllProjectable(clientOps) &&
              oldCamp.id == campId && UpdatesOf(concurrent, campId) && UpdatesOf(later, campId)) ==>
              WriteOutcome(s, campId, opIndex, oldCamp, clientOps, concurrent, later, log, r, s')
  {
    var (sNow, _) := RunWrites(s, concurrent);
    var newCamp := ApplyOperationsToCamp(oldCamp, clientOps);
    ApplyAllSucceeds(oldCamp, clientOps);
    if newCamp.Err? {
      return Err(newCamp.failure), sNow;
    }
    var w := WriteCamp(sNow, newCamp.value, clientOps, opIndex, freshId);
    if w.succeeded {
      r, s' := Ok(SynchronizeResponse(AllGood, None, None)), w.state;
    } else {
      // Someone else wrote first: read again, after whatever commits meanwhile,
      // and hand the operations back.
      var sAfter := RunWrites(w.state, later).0;
      var (latestCamp, latestServerOps) := GetCampWithOps(sAfter, campId, opIndex);
      if latestCamp.None? || |latestServerOps| == 0 {
        r, s' := Err(LostChanges), sAfter;
      } else {
        r, s' := Ok(SynchronizeResponse(NeedUpdate, Some(latestServerOps), None)), sAfter;
      }
    }
    forall log | ChunkedLog(s, campId, log) && UpdatesOf(concurrent, campId) && oldCamp.id == campId && opIndex == |log|
      ensures var committed := Committed(concurrent, RunWrites(s, concurrent).1);
        committed == [] ==>
          && r == Ok(SynchronizeResponse(AllGood, None, None))
          && ChunkedLog(s', campId, log + clientOps)
          && s'.camps[campId].opCount == opIndex + |clientOps|
    {
      WriteAfterConcurrent(s, campId, opIndex, newCamp.value, clientOps, freshId, concurrent, log);
      var committed := Committed(concurrent, RunWrites(s, concurrent).1);
      if committed == [] {
        assert log + committed == log;
      }
    }
    forall log | ChunkedLog(s, campId, log) && UpdatesOf(concurrent, campId) && UpdatesOf(later, campId) && oldCamp.id == campId
      ensures WriteOutcome(s, campId, opIndex, oldCamp, clientOps, concurrent, later, log, r, s')
    {
      WriteAfterConcurrent(s, campId, opIndex, newCamp.value, clientOps, freshId, concurrent, log);
      ReadAfterLater(s, campId, opIndex, concurrent, later, log + Committed(concurrent, RunWrites(s, concurrent).1));
    }
    forall log | (&& ChunkedLog(s, campId, log) && AllProjectable(clientOps) && opIndex == |log|
                  && oldCamp.id == campId && UpdatesOf(concurrent, campId) && UpdatesOf(later, campId)
                  && Committed(concurrent, RunWrites(s, concurrent).1) != [])
      ensures && r == Ok(SynchronizeResponse(NeedUpdate,
                           Some(Committed(concurrent, RunWrites(s, concurrent).1) + LaterCommits(s, concurrent, later)), None))
              && s' == AfterLater(s, concurrent, later)
    {
      assert WriteOutcome(s, campId, opIndex, oldCamp, clientOps, concurrent, later, log, r, s');
      BeatenOutcome(campId, opIndex, oldCamp, clientOps, log, Committed(concurrent, RunWrites(s, concurrent).1),
                    LaterCommits(s, concurrent, later), AfterLater(s, concurrent, later), r, s');
    }
  }

  /** `syncCamp`: the decision tree of the server's synchronize handler. */
  method SyncCamp(
    s: StoreState, userId: Option<string>, campId: string, opIndex: int,
    newOps: Option<seq<CampOperation>>, freshId: string,
    concurrent: seq<WriteRequest>, later: seq<WriteRequest>)
    returns (r: Result<SynchronizeResponse>, s': StoreState)
    // Authentication comes first and touches nothing.
    ensures !Truthy(userId) ==> r == Err(AuthenticationFailure) && s' == s
    // A create batch is only accepted at opIndex 0, and then creates the camp.
    ensures (Truthy(userId) && IsCreateBatch(newOps) && opIndex != 0) ==>
              r == Err(CreateCampNotFirst) && s' == s
    ensures (Truthy(userId) && IsCreateBatch(newOps) && opIndex == 0 && r.Ok? && Unused(s, freshId)) ==>
              r.value == SynchronizeResponse(AllGood, None, Some(freshId)) && ChunkedLog(s', freshId, newOps.value)
    ensures (Truthy(userId) && IsCreateBatch(newOps) && opIndex == 0 && newOps.value[0].name == "") ==>
              r == Err(NoName) && s' == s
    ensures (Truthy(userId) && IsCreateBatch(newOps) && opIndex == 0 && newOps.value[0].name != "" &&
             !AllProjectable(newOps.value[1..])) ==>
              r == Err(UnknownOperation) && s' == s
    ensures (Truthy(userId) && IsCreateBatch(newOps) && opIndex == 0 && newOps.value[0].name != "" &&
             AllProjectable(newOps.value[1..]) && Unused(s, freshId)) ==>
              && r == Ok(SynchronizeResponse(AllGood, None, Some(freshId)))
              && ChunkedLog(s', freshId, newOps.value)
              && ApplyOperationsToCamp(Camp("", newOps.value[0].name, [], 1), newOps.value[1..]).Ok?
              && s'.camps[freshId] ==
                   DbCamp(newOps.value[0].name,
                          ApplyOperationsToCamp(Camp("", newOps.value[0].name, [], 1), newOps.value[1..]).value.lists,
                          |newOps.value|)
    ensures (Truthy(userId) && !IsCreateBatch(newOps) && (opIndex < 1 || campId == "")) ==>
              r == Err(InvalidArguments) && s' == s
    ensures (Truthy(userId) && !IsCreateBatch(newOps) && opIndex >= 1 && campId != "" && campId !in s.camps) ==>
              r == Err(CampNotFound) && s' == s
    // The server already holds operations the client has not seen: report them, write nothing.
    ensures forall log :: (ChunkedLog(s, campId, log) && Truthy(userId) && !IsCreateBatch(newOps) &&
              1 <= opIndex < |log| && campId != "") ==>
              r == Ok(SynchronizeResponse(NeedUpdate, Some(log[opIndex..]), None)) && s' == s
    // Nothing to send and nothing new: all good, nothing written.
    ensures forall log :: (ChunkedLog(s, campId, log) && Truthy(userId) && |ClientOps(newOps)| == 0 &&
              1 <= opIndex && opIndex >= |log| && campId != "") ==>
              r == Ok(SynchronizeResponse(AllGood, None, None)) && s' == s
    // Up to date and unopposed: the batch is appended and the revision advances by its length.
    ensures forall log :: (ChunkedLog(s, campId, log) && Truthy(userId) && !IsCreateBatch(newOps) &&
              |ClientOps(newOps)| > 0 && AllProjectable(ClientOps(newOps)) && campId != "" &&
              opIndex == |log| >= 1 && UpdatesOf(concurrent, campId) &&
              Committed(concurrent, RunWrites(s, concurrent).1) == []) ==>
              && r == Ok(SynchronizeResponse(AllGood, None, None))
              && ChunkedLog(s', campId, log + ClientOps(newOps))
              && s'.camps[campId].opCount == opIndex + |ClientOps(newOps)|
    // Up to date but beaten by a concurrent writer: nothing of ours is written and
    // the foreign operations come back: those that beat the write, then those
    // committed before the re-read.
    ensures forall log :: (ChunkedLog(s, campId, log) && Truthy(userId) && !IsCreateBatch(newOps) &&
              |ClientOps(newOps)| > 0 && AllProjectable(ClientOps(newOps)) && campId != "" &&
              opIndex == |log| >= 1 && UpdatesOf(concurrent, campId) && UpdatesOf(later, campId) &&
              Committed(concurrent, RunWrites(s, concurrent).1) != []) ==>
              && r == Ok(SynchronizeResponse(NeedUpdate,
                           Some(Committed(concurrent, RunWrites(s, concurrent).1) + LaterCommits(s, concurrent, later)), None))
              && s' == AfterLater(s, concurrent, later)
    // Nothing unseen to report and something to send: the batch goes to the
    // conditional write, applied to the camp as read.
    ensures forall log :: (ChunkedLog(s, campId, log) && Truthy(userId) && !IsCreateBatch(newOps) &&
              |ClientOps(newOps)| > 0 && campId != "" && opIndex >= |log| && opIndex >= 1 &&
              UpdatesOf(concurrent, campId) && UpdatesOf(later, campId)) ==>
              && (!AllProjectable(ClientOps(newOps)) ==>
                    r == Err(UnknownOperation) && s' == RunWrites(s, concurrent).0)
              && (AllProjectable(ClientOps(newOps)) ==>
                    WriteOutcome(s, campId, opIndex, Camp(campId, s.camps[campId].name, s.camps[campId].lists, |log|),
                                 ClientOps(newOps), concurrent, later, log, r, s'))
  {
    var clientOps := ClientOps(newOps);
    if !Truthy(userId) {
      return Err(AuthenticationFailure), s;
    }
    if IsCreateBatch(newOps) {
      if opIndex != 0 {
        return Err(CreateCampNotFirst), s;
      }
      r, s' := CreateCamp(s, userId, clientOps, freshId);
      return;
    }
    if opIndex < 1 || campId == "" {
      return Err(InvalidArguments), s;
    }
    var (oldCamp, serverOps) := GetCampWithOps(s, campId, opIndex);
    if oldCamp.None? {
      return Err(CampNotFound), s;
    }
    forall log | ChunkedLog(s, campId, log)
      ensures serverOps == if opIndex >= |log| then [] else log[opIndex..]
    {
      ReadOnLog(s, campId, log, opIndex);
    }
    if |clientOps| == 0 || |serverOps| > 0 {
      if |serverOps| > 0 {
        return Ok(SynchronizeResponse(NeedUpdate, Some(serverOps), None)), s;
      }
      return Ok(SynchronizeResponse(AllGood, None, None)), s;
    }
    r, s' := WriteClientOps(s, campId, opIndex, oldCamp.value, clientOps, freshId, concurrent, later);
  }
}

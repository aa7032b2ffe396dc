/** The camp slice of the redux state: the open managers and the selection. */
module CampReducer {
  import opened Results
  import opened Camps
  import opened CampManagers
  import opened Actions

  datatype CampState = CampState(
    selectedCampId: Option<string>,
    selectedListId: Option<string>,
    campManagers: seq<CampManager>)

  const InitialState: CampState := CampState(None, None, [])

  /** Index of the first manager for `campId` (what `find` returns). */
  function FindManager(managers: seq<CampManager>, campId: string): (r: Option<nat>)
    ensures r.Some? ==> r.value < |managers| && managers[r.value].campId == campId
    ensures r.Some? ==> forall j :: 0 <= j < r.value ==> managers[j].campId != campId
    ensures r.None? <==> forall j :: 0 <= j < |managers| ==> managers[j].campId != campId
  {
    if |managers| == 0 then None
    else if managers[0].campId == campId then Some(0)
    else
      match FindManager(managers[1..], campId)
      case None => None
      case Some(k) => Some(k + 1)
  }

  /** `managers.map(cm => cm.campId === campId ? with : cm)`. */
  function ReplaceManagers(managers: seq<CampManager>, campId: string, with: CampManager): (r: seq<CampManager>)
    ensures |r| == |managers|
    ensures forall k :: 0 <= k < |managers| ==>
              r[k] == if managers[k].campId == campId then with else managers[k]
  {
    seq(|managers|, k requires 0 <= k < |managers| =>
      if managers[k].campId == campId then with else managers[k])
  }

  function MarkSynchronizing(managers: seq<CampManager>, campId: string): (r: seq<CampManager>)
    ensures |r| == |managers|
    ensures forall k :: 0 <= k < |managers| ==>
              r[k] == if managers[k].campId == campId then managers[k].(synchronizing := true) else managers[k]
  {
    seq(|managers|, k requires 0 <= k < |managers| =>
      if managers[k].campId == campId then managers[k].(synchronizing := true) else managers[k])
  }

  function ConnectAll(camps: seq<Camp>): (r: seq<CampManager>)
    ensures |r| == |camps|
    ensures forall k :: 0 <= k < |camps| ==> r[k] == ConnectCamp(camps[k])
  {
    seq(|camps|, k requires 0 <= k < |camps| => ConnectCamp(camps[k]))
  }

  function Reduce(state: CampState, action: Action): (r: CampState)
    // Every action but LOGIN and LOGOUT keeps the managers' number or adds one.
    ensures !action.Login? && !action.Logout? && !action.CreateCamp? ==>
              |r.campManagers| == |state.campManagers|
    ensures action.CreateCamp? ==>
              r.campManagers == state.campManagers + [action.cm] &&
              r.selectedCampId == Some(action.cm.campId) && r.selectedListId == state.selectedListId
    ensures action.Login? ==>
              r.selectedCampId.None? && r.selectedListId.None? && |r.campManagers| == |action.camps| &&
              forall k :: 0 <= k < |action.camps| ==> r.campManagers[k] == ConnectCamp(action.camps[k])
    ensures action.Logout? ==> r == InitialState
    // Opening and closing touch only the selection.
    ensures action.OpenCamp? ==> r == state.(selectedCampId := Some(action.payload))
    ensures action.CloseCamp? ==> r == state.(selectedCampId := None)
    ensures action.OpenCampList? ==> r == state.(selectedListId := Some(action.listId))
    ensures action.CloseCampList? ==> r == state.(selectedListId := None)
    ensures action.Unhandled? ==> r == state
    // A response for a camp nobody holds is dropped.
    ensures action.SynchronizeResponse? && FindManager(state.campManagers, action.campId).None? ==> r == state
    // SYNCHRONIZE_START touches only the flag of the matching managers.
    ensures action.SynchronizeStart? ==>
              r.selectedCampId == state.selectedCampId && r.selectedListId == state.selectedListId &&
              forall k :: 0 <= k < |state.campManagers| ==>
                r.campManagers[k].(synchronizing := state.campManagers[k].synchronizing) == state.campManagers[k] &&
                r.campManagers[k].synchronizing == (state.campManagers[k].synchronizing || state.campManagers[k].campId == action.campId)
  {
    match action
    case SynchronizeStart(campId) =>
      state.(campManagers := MarkSynchronizing(state.campManagers, campId))
    case SynchronizeResponse(campId, newCM) =>
      (match FindManager(state.campManagers, campId)
       case None => state
       case Some(i) =>
         var oldId := state.campManagers[i].campId;
         state.(
           selectedCampId := if state.selectedCampId == Some(oldId) then Some(newCM.campId) else state.selectedCampId,
           campManagers := ReplaceManagers(state.campManagers, oldId, newCM)))
    case OpenCamp(payload) => state.(selectedCampId := Some(payload))
    case CloseCamp => state.(selectedCampId := None)
    case OpenCampList(_, listId) => state.(selectedListId := Some(listId))
    case CloseCampList => state.(selectedListId := None)
    case CreateCamp(cm) =>
      state.(selectedCampId := Some(cm.campId), campManagers := state.campManagers + [cm])
    case UpdateCamp(cm) =>
      state.(campManagers := ReplaceManagers(state.campManagers, cm.campId, cm))
    case Login(_, _, camps) => CampState(None, None, ConnectAll(camps))
    case Logout => InitialState
    case Unhandled(_) => state
  }

  // ---------------------------------------------------------------------------
  // Properties of the transitions

  /** SYNCHRONIZE_START marks a manager exactly as `synchronizeCamp` does. */
  lemma SynchronizeStartMatchesManager(state: CampState, campId: string, k: nat)
    requires k < |state.campManagers| && state.campManagers[k].campId == campId
    ensures Reduce(state, SynchronizeStart(campId)).campManagers[k] == SynchronizeCamp(state.campManagers[k]).0
  {
  }

  lemma SynchronizeStartIdempotent(state: CampState, campId: string)
    ensures var once := Reduce(state, SynchronizeStart(campId));
      Reduce(once, SynchronizeStart(campId)) == once
  {
    var once := Reduce(state, SynchronizeStart(campId));
    var twice := Reduce(once, SynchronizeStart(campId));
    assert twice.campManagers == once.campManagers;
  }

  /** A response for a held camp installs the new manager in every slot held
      by that camp, keeps the others, and moves the selection with it. */
  lemma SynchronizeResponseReplaces(state: CampState, campId: string, cm: CampManager)
    requires FindManager(state.campManagers, campId).Some?
    ensures var r := Reduce(state, SynchronizeResponse(campId, cm));
      && |r.campManagers| == |state.campManagers|
      && (forall k :: 0 <= k < |state.campManagers| ==>
            r.campManagers[k] == if state.campManagers[k].campId == campId then cm else state.campManagers[k])
      && r.selectedCampId == (if state.selectedCampId == Some(campId) then Some(cm.campId) else state.selectedCampId)
      && r.selectedListId == state.selectedListId
  {
  }

  /** UPDATE_CAMP keeps the number and order of managers and the selection. */
  lemma UpdateCampReplaces(state: CampState, cm: CampManager)
    ensures var r := Reduce(state, UpdateCamp(cm));
      && |r.campManagers| == |state.campManagers|
      && (forall k :: 0 <= k < |state.campManagers| ==>
            r.campManagers[k] == if state.campManagers[k].campId == cm.campId then cm else state.campManagers[k])
      && r.selectedCampId == state.selectedCampId && r.selectedListId == state.selectedListId
  {
  }

  /** After LOGIN every manager is consistent and idle, with nothing pending. */
  lemma LoginConnectsAll(state: CampState, token: string, user: User, camps: seq<Camp>)
    ensures var r := Reduce(state, Login(token, user, camps));
      forall k :: 0 <= k < |r.campManagers| ==>
        Consistent(r.campManagers[k]) && r.campManagers[k].operations == [] &&
        !r.campManagers[k].synchronizing && r.campManagers[k].campId == camps[k].id
  {
    var r := Reduce(state, Login(token, user, camps));
    forall k | 0 <= k < |r.campManagers|
      ensures Consistent(r.campManagers[k])
    {
      ConnectCampConsistent(camps[k]);
    }
  }
}

/** Derived views of the camp slice: the open camp and the open list. */
module Selectors {
  import opened Results
  import opened Camps
  import opened CampManagers
  import opened CampReducer

  /** The speculative snapshot of the first manager for the selected camp. */
  function SelectedCamp(managers: seq<CampManager>, selectedCampId: Option<string>): (r: Option<Camp>)
    ensures r.None? <==> selectedCampId.None? || forall j :: 0 <= j < |managers| ==> managers[j].campId != selectedCampId.value
    ensures r.Some? ==> exists k :: 0 <= k < |managers| && managers[k].campId == selectedCampId.value &&
                          r.value == managers[k].current &&
                          forall j :: 0 <= j < k ==> managers[j].campId != selectedCampId.value
  {
    if selectedCampId.None? then None
    else
      match FindManager(managers, selectedCampId.value)
      case None => None
      case Some(k) => Some(managers[k].current)
  }

  /** The first list of the selected camp with the selected list id. */
  function SelectedList(camp: Option<Camp>, selectedListId: Option<string>): (r: Option<List>)
    ensures camp.None? || selectedListId.None? ==> r.None?
    ensures r.None? && camp.Some? && selectedListId.Some? ==>
              forall j :: 0 <= j < |camp.value.lists| ==> camp.value.lists[j].id != selectedListId.value
    ensures r.Some? ==> exists k :: 0 <= k < |camp.value.lists| && camp.value.lists[k] == r.value &&
                          r.value.id == selectedListId.value &&
                          forall j :: 0 <= j < k ==> camp.value.lists[j].id != selectedListId.value
  {
    if camp.None? || selectedListId.None? then None
    else
      match FindList(camp.value.lists, selectedListId.value)
      case None => None
      case Some(k) => Some(camp.value.lists[k])
  }

  /** CREATE_CAMP opens the new camp: unless an earlier manager already holds
      its id, the selected camp is the new manager's snapshot. */
  lemma CreateCampSelectsIt(state: CampState, cm: CampManager)
    requires FindManager(state.campManagers, cm.campId).None?
    ensures var r := Reduce(state, Actions.CreateCamp(cm));
      SelectedCamp(r.campManagers, r.selectedCampId) == Some(cm.current)
  {
    var r := Reduce(state, Actions.CreateCamp(cm));
    var n := |state.campManagers|;
    assert r.campManagers[n] == cm;
    assert FindManager(r.campManagers, cm.campId) == Some(n);
  }

  /** Closing the camp leaves neither a camp nor a list selected. */
  lemma CloseCampSelectsNothing(state: CampState)
    ensures var r := Reduce(state, Actions.CloseCamp);
      SelectedList(SelectedCamp(r.campManagers, r.selectedCampId), r.selectedListId).None?
  {
  }

  /** After LOGIN nothing is selected. */
  lemma LoginSelectsNothing(state: CampState, token: string, user: Actions.User, camps: seq<Camp>)
    ensures var r := Reduce(state, Actions.Login(token, user, camps));
      SelectedCamp(r.campManagers, r.selectedCampId).None?
  {
  }
}

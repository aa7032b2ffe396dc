/** The redux actions the camp and user reducers respond to. */
module Actions {
  import opened Camps
  import opened CampManagers

  /** The user record a login delivers. */
  datatype User = User(id: string, username: string, name: string, camps: seq<string>)

  datatype Action =
    | SynchronizeStart(campId: string)
    | SynchronizeResponse(campId: string, cm: CampManager)
    | OpenCamp(payload: string)
    | CloseCamp
    | OpenCampList(listCampId: string, listId: string)
    | CloseCampList
    | CreateCamp(cm: CampManager)
    | UpdateCamp(cm: CampManager)
    | Login(token: string, user: User, camps: seq<Camp>)
    | Logout
    | Unhandled(kind: string)
}

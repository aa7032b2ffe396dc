/** The user slice of the redux state: the session token and who is logged in. */
module UserReducer {
  import opened Results
  import opened Actions

  /** What the reducer keeps of the user: id, username and name. */
  datatype UserInfo = UserInfo(id: string, username: string, name: string)

  datatype UserState = UserState(token: Option<string>, info: Option<UserInfo>, isLoggingIn: Option<bool>)

  const InitialState: UserState := UserState(None, None, None)

  function Reduce(state: UserState, action: Action): (r: UserState)
    ensures action.Login? ==>
              r.token == Some(action.token) && r.isLoggingIn.None? &&
              r.info == Some(UserInfo(action.user.id, action.user.name, action.user.name))
    ensures action.Logout? ==> r.token.None? && r.info.None? && r.isLoggingIn.None?
    ensures !action.Login? && !action.Logout? ==> r == state
  {
    match action
    case Login(token, user, _) => UserState(Some(token), Some(UserInfo(user.id, user.name, user.name)), None)
    case Logout => UserState(None, None, None)
    case _ => state
  }

  /** The stored username is the user's display name; it differs from the
      account's username whenever the two differ. */
  lemma LoginUsesDisplayName(state: UserState, token: string, user: User, camps: seq<Camps.Camp>)
    ensures Reduce(state, Login(token, user, camps)).info.value.username == user.name
    ensures user.username != user.name ==>
              Reduce(state, Login(token, user, camps)).info.value.username != user.username
  {
  }

  /** Logging out after logging in leaves no session behind, whatever came before. */
  lemma LogoutForgetsLogin(state: UserState, token: string, user: User, camps: seq<Camps.Camp>)
    ensures Reduce(Reduce(state, Login(token, user, camps)), Logout) == InitialState
  {
  }
}

/** The login form: one request with the entered name and password; an
    accepted uid is stored and handed to the parent page. */
module Login {
  import opened Wrappers
  import opened Js

  /** The name and password entered in the form. */
  datatype Credential = Credential(username: string, password: string)

  const WrongCredentialsMessage := "用户名或密码错误"

  /** What a press of the login button produces: the accepted uid, the
      string stored under "uid", and the credentials handed to the parent
      page's callback; or an error message. */
  datatype LoginResult =
    | LoggedIn(uid: JsValue, stored: string, credentials: Option<Credential>)
    | LoginFailed(message: string)

  /** `handleLogin` with the callback's second argument left as a choice:
      `forward` says whether the credentials are passed along. */
  function Respond(username: string, password: string, reply: ServerReply, forward: bool): (r: LoginResult)
    ensures r.LoggedIn? <==> reply.Replied? && AcceptedUid(reply.uid)
    ensures r.LoggedIn? ==> r.uid == reply.uid && r.stored == ToStr(reply.uid) && r.stored != ""
    ensures r.LoggedIn? ==> (r.credentials.Some? <==> forward)
    ensures r.LoggedIn? && forward ==> r.credentials == Some(Credential(username, password))
    ensures reply.NetworkFailure? ==> r == LoginFailed(NetworkErrorMessage)
    ensures reply.Replied? && !AcceptedUid(reply.uid) ==> r == LoginFailed(WrongCredentialsMessage)
  {
    match reply
    case NetworkFailure => LoginFailed(NetworkErrorMessage)
    case Replied(uid) =>
      if AcceptedUid(uid) then
        LoggedIn(uid, ToStr(uid), if forward then Some(Credential(username, password)) else None)
      else LoginFailed(WrongCredentialsMessage)
  }

  /** `handleLogin` as written: `onLoginSuccess(data.uid)`, so the parent
      never receives the credentials. */
  function HandleLogin(username: string, password: string, reply: ServerReply): (r: LoginResult)
    ensures r.LoggedIn? ==> r.credentials.None?
    ensures r.LoggedIn? <==> reply.Replied? && AcceptedUid(reply.uid)
  {
    Respond(username, password, reply, false)
  }

  /** `handleLogin` passing `{ username, password }` as the callback's
      second argument, which the parent page expects. */
  function HandleLoginCorrected(username: string, password: string, reply: ServerReply): (r: LoginResult)
    ensures r.LoggedIn? ==> r.credentials == Some(Credential(username, password))
    ensures r.LoggedIn? <==> reply.Replied? && AcceptedUid(reply.uid)
  {
    Respond(username, password, reply, true)
  }
}

/** The login-protected score page: on load it re-checks the stored uid by
    logging in again with the stored credentials, shows a waiting notice
    while it checks, then the score page for a truthy uid and the login
    form otherwise. */
module Session {
  import opened Wrappers
  import opened Js
  import opened Login

  /** The two `localStorage` entries the page uses: "uid" and
      "dogkingCredential". */
  datatype Storage = Storage(uid: Option<string>, credential: Option<string>)

  /** `btoa(JSON.stringify(c))` and `JSON.parse(atob(s))`, which are
      browser built-ins; `None` is a thrown exception (`btoa` throws on
      characters beyond Latin-1, `atob`/`JSON.parse` on malformed input). */
  datatype Codec = Codec(encode: Credential -> Option<string>, decode: string -> Option<Credential>)

  /** Whatever is encoded decodes back (the JSON text of an object is never
      empty, so neither is its encoding). */
  ghost predicate RoundTrips(codec: Codec)
  {
    forall c :: codec.encode(c).Some? ==> codec.decode(codec.encode(c).value) == Some(c)
  }

  /** The page: the storage, the `uid` state and `checkingSession`. */
  datatype State = State(storage: Storage, uid: JsValue, checking: bool)

  /** A stored entry that is present and non-empty (truthy). */
  predicate Present(entry: Option<string>)
  {
    entry.Some? && entry.value != ""
  }

  /** The state at mount: `uid` read from storage, check pending. */
  function Init(storage: Storage): (s: State)
    ensures s.storage == storage && s.checking
    ensures Truthy(s.uid) <==> Present(storage.uid)
  {
    State(storage, if storage.uid.Some? then JStr(storage.uid.value) else JNull, true)
  }

  /** `clearSession`: both entries removed and the uid reset. */
  function ClearSession(s: State): (r: State)
    ensures r.storage == Storage(None, None) && !Truthy(r.uid)
    ensures r.checking == s.checking
  {
    s.(storage := Storage(None, None), uid := JNull)
  }

  /** The stored credentials, when both entries are present, the credential
      decodes and both of its fields are non-empty: the only case in which
      the check asks the server. */
  function StoredCredential(storage: Storage, codec: Codec): (r: Option<Credential>)
    ensures r.Some? ==> Present(storage.uid) && Present(storage.credential)
    ensures r.Some? ==> r.value.username != "" && r.value.password != ""
    ensures r.Some? ==> codec.decode(storage.credential.value) == r
  {
    if !Present(storage.uid) || !Present(storage.credential) then None
    else
      match codec.decode(storage.credential.value)
      case None => None
      case Some(c) => if c.username == "" || c.password == "" then None else Some(c)
  }

  /** `verifySession`, given the server's answer to the re-login: the check
      always ends, the session survives only an accepted re-login, and in
      every other case it is cleared. */
  function VerifySession(s: State, codec: Codec, reply: ServerReply): (r: State)
    ensures !r.checking
    ensures Truthy(r.uid) <==> StoredCredential(s.storage, codec).Some? && reply.Replied? && AcceptedUid(reply.uid)
    ensures Truthy(r.uid) ==> r.uid == reply.uid && r.storage == Storage(Some(ToStr(reply.uid)), s.storage.credential)
    ensures !Truthy(r.uid) ==> r.storage == Storage(None, None) && r.uid == JNull
  {
    match StoredCredential(s.storage, codec)
    case None => ClearSession(s).(checking := false)
    case Some(_) =>
      if reply.Replied? && AcceptedUid(reply.uid) then
        s.(storage := s.storage.(uid := Some(ToStr(reply.uid))), uid := reply.uid, checking := false)
      else ClearSession(s).(checking := false)
  }

  /** `handleLoginSuccess(newUid, credentials)`: the uid is stored and set;
      the credentials are stored only when given and encodable. */
  function HandleLoginSuccess(s: State, codec: Codec, newUid: JsValue, credentials: Option<Credential>): (r: State)
    ensures r.uid == newUid && !r.checking
    ensures r.storage.uid == Some(ToStr(newUid))
    ensures credentials.Some? && codec.encode(credentials.value).Some? ==>
      r.storage.credential == codec.encode(credentials.value)
    ensures credentials.None? || codec.encode(credentials.value).None? ==>
      r.storage.credential == s.storage.credential
  {
    var credential :=
      if credentials.Some? && codec.encode(credentials.value).Some? then codec.encode(credentials.value)
      else s.storage.credential;
    State(Storage(Some(ToStr(newUid)), credential), newUid, false)
  }

  /** The login form's result reaching the page. */
  function OnLogin(s: State, codec: Codec, result: LoginResult): (r: State)
    ensures result.LoginFailed? ==> r == s
    ensures result.LoggedIn? ==> r == HandleLoginSuccess(s, codec, result.uid, result.credentials)
  {
    match result
    case LoginFailed(_) => s
    case LoggedIn(uid, _, credentials) => HandleLoginSuccess(s, codec, uid, credentials)
  }

  datatype Screen = Checking | UpdatePage(uid: JsValue) | LoginPage

  /** The waiting notice while checking, then the score page for a truthy
      uid and the login form otherwise. */
  function Render(s: State): (v: Screen)
    ensures v == Checking <==> s.checking
    ensures v.UpdatePage? <==> !s.checking && Truthy(s.uid)
    ensures v.UpdatePage? ==> v.uid == s.uid
  {
    if s.checking then Checking
    else if Truthy(s.uid) then UpdatePage(s.uid)
    else LoginPage
  }

  /** Once the check has run the page never stays on the waiting notice. */
  lemma CheckEnds(storage: Storage, codec: Codec, reply: ServerReply)
    ensures Render(VerifySession(Init(storage), codec, reply)) != Checking
  {
  }

  /** As written, a user who logs in on a browser with no stored
      credential is sent back to the login form by the next page load,
      whatever the server answers. */
  lemma ReloadForgetsLogin(storage: Storage, codec: Codec, username: string, password: string,
                           first: ServerReply, login: ServerReply, reload: ServerReply)
    requires storage.credential.None?
    requires login.Replied? && AcceptedUid(login.uid)
    ensures var s := OnLogin(VerifySession(Init(storage), codec, first), codec, HandleLogin(username, password, login));
      Render(s).UpdatePage? && Render(VerifySession(Init(s.storage), codec, reload)) == LoginPage
  {
  }

  /** When the login form passes the credentials on, the next page load
      restores the session: it shows the score page with the uid the
      server confirms. */
  lemma ReloadKeepsLogin(storage: Storage, codec: Codec, username: string, password: string,
                         first: ServerReply, login: ServerReply, reload: ServerReply)
    requires RoundTrips(codec)
    requires codec.encode(Credential(username, password)).Some?
    requires codec.encode(Credential(username, password)).value != ""
    requires username != "" && password != ""
    requires login.Replied? && AcceptedUid(login.uid)
    requires reload.Replied? && AcceptedUid(reload.uid)
    ensures var s := OnLogin(VerifySession(Init(storage), codec, first), codec, HandleLoginCorrected(username, password, login));
      Render(s).UpdatePage? && Render(VerifySession(Init(s.storage), codec, reload)) == UpdatePage(reload.uid)
  {
    var s := OnLogin(VerifySession(Init(storage), codec, first), codec, HandleLoginCorrected(username, password, login));
    var c := Credential(username, password);
    assert s.storage.credential == codec.encode(c);
    assert codec.decode(codec.encode(c).value) == Some(c);
  }
}

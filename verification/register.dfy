/** The registration form: local checks on the entered fields, in a fixed
    order, then one request whose reply decides between a redirect to the
    score page and an error message. */
module Register {
  import opened Wrappers
  import opened Js
  import Text

  const MaxUsernameLength := 10
  const MaxPasswordLength := 4

  datatype RegisterError =
    | UsernameTooLong
    | PasswordTooLong
    | PasswordMismatch
    | UsernameTaken
    | Rejected
    | NetworkError

  /** The message shown for each error. */
  function Message(e: RegisterError): string
  {
    match e
    case UsernameTooLong => "用户名不能超过10个字符"
    case PasswordTooLong => "密码不能超过4个字符"
    case PasswordMismatch => "两次输入的密码不一致"
    case UsernameTaken => "用户名已存在，请选择其他用户名"
    case Rejected => "注册失败，请重试"
    case NetworkError => NetworkErrorMessage
  }

  /** `data.flat()` of the username list: the rows concatenated. */
  function Flatten(rows: seq<seq<string>>): (r: seq<string>)
    ensures forall u :: u in r <==> exists i :: 0 <= i < |rows| && u in rows[i]
  {
    if |rows| == 0 then []
    else
      var p := rows[..|rows| - 1];
      assert forall i :: 0 <= i < |p| ==> p[i] == rows[i];
      Flatten(p) + rows[|rows| - 1]
  }

  /** The local checks, first failure wins: username length (in UTF-16
      units) over 10, password length over 4, confirmation mismatch, name
      already registered. */
  function Validate(username: string, password: string, confirm: string, taken: seq<string>): (r: Option<RegisterError>)
    ensures r == Some(UsernameTooLong) <==> Text.Utf16Length(username) > MaxUsernameLength
    ensures r == Some(PasswordTooLong) <==>
      Text.Utf16Length(username) <= MaxUsernameLength && Text.Utf16Length(password) > MaxPasswordLength
    ensures r == Some(PasswordMismatch) <==>
      Text.Utf16Length(username) <= MaxUsernameLength && Text.Utf16Length(password) <= MaxPasswordLength &&
      password != confirm
    ensures r == Some(UsernameTaken) <==>
      Text.Utf16Length(username) <= MaxUsernameLength && Text.Utf16Length(password) <= MaxPasswordLength &&
      password == confirm && username in taken
    ensures r == None <==>
      Text.Utf16Length(username) <= MaxUsernameLength && Text.Utf16Length(password) <= MaxPasswordLength &&
      password == confirm && username !in taken
  {
    if Text.Utf16Length(username) > MaxUsernameLength then Some(UsernameTooLong)
    else if Text.Utf16Length(password) > MaxPasswordLength then Some(PasswordTooLong)
    else if password != confirm then Some(PasswordMismatch)
    else if username in taken then Some(UsernameTaken)
    else None
  }

  /** `data.uid && data.uid !== 0`, as written: only the NUMBER 0 is
      refused, so the string "0" that the login pages treat as failure
      passes. */
  predicate RegisterAcceptsAsWritten(uid: JsValue)
  {
    Truthy(uid) && uid != JNum(0)
  }

  /** The string "0" is accepted as a registration success. */
  lemma StringZeroAcceptedAsWritten()
    ensures RegisterAcceptsAsWritten(JStr("0"))
  {
  }

  /** The login pages' test, used as the corrected registration test,
      rejects both spellings of zero, accepts every other truthy uid, and
      accepts nothing the code as written refuses. */
  lemma AcceptedUidRejectsZero(uid: JsValue)
    ensures !AcceptedUid(JStr("0")) && !AcceptedUid(JNum(0))
    ensures AcceptedUid(uid) <==> Truthy(uid) && uid != JStr("0") && uid != JNum(0)
    ensures AcceptedUid(uid) ==> RegisterAcceptsAsWritten(uid)
  {
  }

  /** What a press of the register button leaves behind. */
  datatype Outcome = Outcome(error: string, requestSent: bool, redirect: Option<string>)

  const UpdatePath := "/update"

  /** `handleRegister`, with the uid test as a parameter so the code as
      written (`RegisterAcceptsAsWritten`) and the corrected test
      (`AcceptedUid`) share one definition. The error is cleared before the
      request and stays cleared on success. */
  function HandleRegister(username: string, password: string, confirm: string, taken: seq<string>,
                          reply: ServerReply, accepts: JsValue -> bool): (r: Outcome)
    ensures r.requestSent <==> Validate(username, password, confirm, taken).None?
    ensures !r.requestSent ==> r.redirect.None? && r.error == Message(Validate(username, password, confirm, taken).value)
    ensures r.redirect == Some(UpdatePath) <==> r.requestSent && reply.Replied? && accepts(reply.uid)
    ensures r.redirect.None? ==> r.error != ""
    ensures r.redirect.Some? ==> r.error == ""
    ensures r.requestSent && reply.NetworkFailure? ==> r.error == Message(NetworkError)
    ensures r.requestSent && reply.Replied? && !accepts(reply.uid) ==> r.error == Message(Rejected)
  {
    match Validate(username, password, confirm, taken)
    case Some(e) => Outcome(Message(e), false, None)
    case None =>
      match reply
      case NetworkFailure => Outcome(Message(NetworkError), true, None)
      case Replied(uid) =>
        if accepts(uid) then Outcome("", true, Some(UpdatePath)) else Outcome(Message(Rejected), true, None)
  }

  /** As written, a well-formed form answered with uid "0" redirects. */
  lemma StringZeroRedirectsAsWritten()
    ensures HandleRegister("dog", "1234", "1234", [], Replied(JStr("0")), RegisterAcceptsAsWritten).redirect == Some(UpdatePath)
  {
    assert Text.Utf16Length("dog") == 3;
    assert Text.Utf16Length("1234") == 4;
  }

  /** With the corrected test the same reply shows the failure message. */
  lemma StringZeroRejected()
    ensures HandleRegister("dog", "1234", "1234", [], Replied(JStr("0")), AcceptedUid).error == Message(Rejected)
  {
    assert Text.Utf16Length("dog") == 3;
    assert Text.Utf16Length("1234") == 4;
  }
}

/** The few JavaScript value semantics the account pages depend on: the
    `uid` field of a server reply may be missing, a number or a string, and
    the pages test it with truthiness and strict (in)equality. */
module Js {
  import Text

  /** A JSON value as the pages see it; `undefined` and `null` are both
      `JNull`, and numbers are integers. */
  datatype JsValue = JNull | JNum(n: int) | JStr(s: string)

  /** JavaScript truthiness: `null`, `0` and `""` are false. */
  predicate Truthy(v: JsValue)
  {
    match v
    case JNull => false
    case JNum(n) => n != 0
    case JStr(s) => s != ""
  }

  /** `String(v)`, which is what `localStorage.setItem` stores. */
  function ToStr(v: JsValue): (s: string)
    ensures Truthy(v) ==> s != ""
    ensures v.JStr? ==> s == v.s
  {
    match v
    case JNull => "null"
    case JNum(n) => Text.IntToDecimal(n)
    case JStr(s) => s
  }

  /** `data.uid && data.uid !== "0"`: the uid test of the login pages. */
  predicate AcceptedUid(uid: JsValue)
  {
    Truthy(uid) && uid != JStr("0")
  }

  /** The answer to a login or register request: the reply's `uid` field,
      or a failure of the request or of its JSON decoding. */
  datatype ServerReply = Replied(uid: JsValue) | NetworkFailure

  const NetworkErrorMessage := "网络错误,稍等重试或者联络管理员"
}

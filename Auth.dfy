/** The register and login routes of server/controllers/authController.js. The backend's
    reply is an input: either the JSON it answered (passed to the client as it is) or an
    error thrown while calling it. */
module Auth {

  /** What the backend call produced. */
  datatype BackendCall = Answered(data: string) | Threw

  /** The JSON body sent to the client: one of the route's own verdicts, or the backend's
      reply unchanged. */
  datatype Body = Verdict(result: bool, msg: string) | Forwarded(data: string)

  datatype Response = Response(status: nat, body: Body)

  const MinUsername: nat := 4
  const MaxUsername: nat := 15
  const MinPassword: nat := 8
  const MaxPassword: nat := 15

  const UsernameMsg: string := "Username less than 5 characters or more than 15 characters"
  const PasswordMsg: string := "Password less than 8 characters or more than 15 characters"
  const ServerError: string := "Internal server error"

  /** JavaScript's `.length`: UTF-16 code units, so a character outside the Basic
      Multilingual Plane counts twice. */
  function JsLength(s: string): (n: nat)
    ensures |s| <= n <= 2 * |s|
    ensures (forall i :: 0 <= i < |s| ==> (s[i] as int) < 0x1_0000) ==> n == |s|
  {
    if s == [] then 0 else (if (s[0] as int) < 0x1_0000 then 1 else 2) + JsLength(s[1..])
  }

  predicate UsernameOk(username: string) {
    MinUsername <= JsLength(username) <= MaxUsername
  }

  predicate PasswordOk(password: string) {
    MinPassword <= JsLength(password) <= MaxPassword
  }

  /** Three emoji make a username of length 6, which passes, although it has three characters. */
  lemma AstralCharactersCountTwice()
    ensures JsLength("\U{1F600}\U{1F600}\U{1F600}") == 6
    ensures UsernameOk("\U{1F600}\U{1F600}\U{1F600}")
  {
    var e := "\U{1F600}\U{1F600}\U{1F600}";
    assert e[1..][1..][1..] == [];
  }

  /** A backend call's response: its reply as it is, or status 500. */
  function Relay(backend: BackendCall): (r: Response)
    ensures backend.Answered? ==> r == Response(200, Forwarded(backend.data))
    ensures backend.Threw? ==> r == Response(500, Verdict(false, ServerError))
  {
    match backend
    case Answered(data) => Response(200, Forwarded(data))
    case Threw => Response(500, Verdict(false, ServerError))
  }

  /** `POST /player/register`: the username's length is checked first, then the
      password's; only a request that passes both reaches the backend. */
  function Register(username: string, password: string, backend: BackendCall): (r: Response)
    ensures !UsernameOk(username) ==> r == Response(200, Verdict(false, UsernameMsg))
    ensures UsernameOk(username) && !PasswordOk(password) ==> r == Response(200, Verdict(false, PasswordMsg))
    ensures UsernameOk(username) && PasswordOk(password) ==> r == Relay(backend)
  {
    if JsLength(username) < MinUsername || JsLength(username) > MaxUsername then Response(200, Verdict(false, UsernameMsg))
    else if JsLength(password) < MinPassword || JsLength(password) > MaxPassword then Response(200, Verdict(false, PasswordMsg))
    else Relay(backend)
  }

  /** `POST /player/login`: no validation at all; the credentials go straight to the
      backend. */
  function Login(username: string, password: string, backend: BackendCall): (r: Response)
    ensures r == Relay(backend)
  {
    Relay(backend)
  }

  /** A registration's response depends on the backend exactly when both lengths are in
      range: a rejected request gives the same response whatever the backend would say,
      and an accepted one is the backend's reply. */
  lemma RegisterReachesBackendIffValid(username: string, password: string)
    ensures (forall b1: BackendCall, b2: BackendCall :: Register(username, password, b1) == Register(username, password, b2))
        <==> !(UsernameOk(username) && PasswordOk(password))
  {
    if UsernameOk(username) && PasswordOk(password) {
      assert Register(username, password, Answered("")) != Register(username, password, Threw);
    }
  }

  /** The boundaries, in `.length` units: 4 and 15 pass the username check, 3 and 16 do
      not; 8 and 15 pass the password check, 7 and 16 do not. */
  lemma LengthBoundaries(username: string, password: string)
    ensures JsLength(username) == 4 || JsLength(username) == 15 ==> UsernameOk(username)
    ensures JsLength(username) == 3 || JsLength(username) == 16 ==> !UsernameOk(username)
    ensures JsLength(password) == 8 || JsLength(password) == 15 ==> PasswordOk(password)
    ensures JsLength(password) == 7 || JsLength(password) == 16 ==> !PasswordOk(password)
  {
  }

  /** Input wrong on both counts gets the username message. */
  lemma UsernameCheckedFirst(username: string, password: string, backend: BackendCall)
    requires !UsernameOk(username) && !PasswordOk(password)
    ensures Register(username, password, backend).body == Verdict(false, UsernameMsg)
  {
  }

  /** Credentials the register route refuses still reach the backend on login. */
  lemma LoginSkipsValidation(username: string, password: string, data: string)
    requires !(UsernameOk(username) && PasswordOk(password))
    ensures Register(username, password, Answered(data)).body.Verdict?
    ensures Login(username, password, Answered(data)) == Response(200, Forwarded(data))
  {
  }
}

/**
 * The replies the account routes and the authentication middleware send: a status code and
 * the JSON body (or none, for `res.sendStatus`).
 */
module Http {
  import opened Wrappers
  import opened AccountServices

  datatype Body =
    | NoBody
    | Message(message: string)
    | Exists(found: bool)
    | Session(account: Clean, token: Option<string>, expires: int)
    | Refreshed(publicAccount: Public, token: Option<string>, expires: int)
    | NewPassword(email: string, password: string)

  datatype Response = Response(code: int, body: Body)

  /** `res.status(code).json({ message })` */
  function Fail(code: int, message: string): (r: Response)
    ensures r.code == code && r.body.Message? && r.body.message == message
  {
    Response(code, Message(message))
  }

  /** `res.sendStatus(code)` */
  function Status(code: int): (r: Response)
    ensures r.code == code && r.body.NoBody?
  {
    Response(code, NoBody)
  }
}

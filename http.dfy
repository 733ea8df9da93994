/** The JSON replies the two refresh endpoints send. */
module Http {
  import opened Wrappers
  import opened Tokens

  /** `{ success: true, message }` or `{ error }`. */
  datatype ReplyBody = Done(message: string) | Problem(error: string)

  datatype Reply = Reply(status: int, body: ReplyBody)

  /** The reply after a refresh was attempted: 200 on completion, 500 with the error's message otherwise. */
  function RefreshReply(id: string, res: Outcome<Error>): (r: Reply)
    ensures r.status == 200 <==> res.Pass?
    ensures res.Pass? ==> r.body == Done("Token " + id + " refreshed")
    ensures res.Fail? ==> r == Reply(500, Problem(Message(res.error)))
  {
    match res
    case Pass => Reply(200, Done("Token " + id + " refreshed"))
    case Fail(e) => Reply(500, Problem(Message(e)))
  }
}

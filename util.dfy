/** The failure reply every mutation handler sends. */
module HandlerUtil {
  import opened Messages

  /** `send_change_error`: exactly one publish, to `subject`, of a response that
      reports failure with `message` and carries no account. */
  function SendChangeError(subject: string, message: string): (e: Effect)
    ensures e.Reply? && e.subject == subject && e.payload.Change?
    ensures !e.payload.response.success
    ensures e.payload.response.errorMessage == Some(message)
    ensures e.payload.response.account.None?
    ensures Replies([e]) == 1 && Broadcasts([e]) == 0
  {
    Reply(subject, Change(ChangeResponse(false, Some(message), None)))
  }
}

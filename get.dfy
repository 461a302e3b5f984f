/** The `accounts.minecraft.get` handler: a read by uuid. */
module GetHandler {
  import opened Messages
  import opened AccountStore

  /** `get`: one reply whose account is the stored one for the uuid, if any.
      It takes the table's rows, so it cannot change them. */
  function Get(rows: seq<Row>, msg: Message<GetRequest>): (h: Handled)
    ensures msg.request.None? ==> h == Handled(Failed, [])
    ensures msg.request.Some? && msg.reply.None? ==> h == Handled(Done, [])
    ensures msg.request.Some? && msg.reply.Some? ==>
      && h.outcome == Done
      && |h.effects| == 1
      && h.effects[0].Reply? && h.effects[0].subject == msg.reply.value
      && h.effects[0].payload.Got?
      && var response := h.effects[0].payload.getResponse;
      && var uuid := msg.request.value.minecraftUuid;
      && (response.accountFound <==> exists r :: r in rows && r.minecraftUuid == uuid)
      && (response.accountFound ==> response.account == GetByMinecraft(rows, uuid))
      && (!response.accountFound ==> response.account.None?)
    ensures Broadcasts(h.effects) == 0
  {
    if msg.request.None? then Handled(Failed, [])
    else if msg.reply.None? then Handled(Done, [])
    else
      var account := GetByMinecraft(rows, msg.request.value.minecraftUuid);
      var response :=
        if account.Some? then GetResponse(true, Some(account.value))
        else GetResponse(false, None);
      Handled(Done, [Reply(msg.reply.value, Got(response))])
  }
}

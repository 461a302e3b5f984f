/** The `accounts.minecraft.list` handler: every account keyed by the caller. */
module ListHandler {
  import opened Messages
  import opened AccountStore

  /** `list`: one reply echoing the caller's id with what `get` collects when
      the caller's id is passed as both the user and the discord key. */
  function List(rows: seq<Row>, msg: Message<ListRequest>): (h: Handled)
    ensures msg.request.None? ==> h == Handled(Failed, [])
    ensures msg.request.Some? && msg.reply.None? ==> h == Handled(Done, [])
    ensures msg.request.Some? && msg.reply.Some? ==>
      && h.outcome == Done
      && |h.effects| == 1
      && h.effects[0].Reply? && h.effects[0].subject == msg.reply.value
      && h.effects[0].payload.Listed?
      && var response := h.effects[0].payload.listResponse;
      && var id := msg.request.value.userId;
      && response.userId == id
      && response.accounts == Combined(rows, Some(id), Some(id))
      && |response.accounts| == |Select(rows, UserIs(id))| + |Select(rows, DiscordIs(id))|
    ensures Broadcasts(h.effects) == 0
  {
    if msg.request.None? then Handled(Failed, [])
    else if msg.reply.None? then Handled(Done, [])
    else
      var id := msg.request.value.userId;
      var accounts := Combined(rows, Some(id), Some(id));
      Handled(Done, [Reply(msg.reply.value, Listed(ListResponse(id, accounts)))])
  }

  /** The listing holds exactly the accounts of the rows keyed by the caller's
      id as user or as discord id, and a row keyed by it both ways is listed
      twice: nothing is de-duplicated. */
  lemma ListedAccounts(rows: seq<Row>, id: string)
    ensures forall a :: a in Combined(rows, Some(id), Some(id)) <==>
      exists r :: r in rows && (r.userId == Some(id) || r.discordId == Some(id)) && ToAccount(r) == a
    ensures forall r :: r in rows && r.userId == Some(id) && r.discordId == Some(id) ==>
      multiset(Combined(rows, Some(id), Some(id)))[ToAccount(r)] >= 2
  {
    CombinedMembers(rows, Some(id), Some(id));
    forall r | r in rows && r.userId == Some(id) && r.discordId == Some(id)
      ensures multiset(Combined(rows, Some(id), Some(id)))[ToAccount(r)] >= 2
    {
      ListedTwice(rows, id, r);
    }
  }
}

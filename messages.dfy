/** The records exchanged on the message bus, and the effects a handler has on it.
    Protobuf messages are plain records here; a message whose payload did not
    parse carries no request. */
module Messages {

  datatype Option<+T> = None | Some(value: T)

  /** The result of a store write; `Err` is any backend error (its cause is not modelled). */
  datatype Result<+T> = Ok(value: T) | Err

  /** A Minecraft account as carried in messages: it holds no owner keys. */
  datatype Account = Account(
    minecraftUuid: string,
    minecraftUsername: string,
    isMain: bool,
    deprecatedFirstName: string)

  datatype AddRequest = AddRequest(
    userId: Option<string>,
    deprecatedDiscordId: Option<string>,
    minecraftUuid: Option<string>,
    minecraftUsername: string,
    firstName: string)

  datatype RemoveRequest = RemoveRequest(
    userId: string,
    minecraftUuid: Option<string>,
    deprecatedMinecraftUsername: Option<string>)

  datatype GetRequest = GetRequest(minecraftUuid: string)

  datatype ListRequest = ListRequest(userId: string)

  datatype ChangeType = Added | Removed

  datatype ChangeResponse = ChangeResponse(success: bool, errorMessage: Option<string>, account: Option<Account>)

  datatype AccountChanged = AccountChanged(
    userId: Option<string>,
    deprecatedDiscordId: Option<string>,
    change: ChangeType,
    account: Option<Account>)

  datatype GetResponse = GetResponse(accountFound: bool, account: Option<Account>)

  datatype ListResponse = ListResponse(userId: string, accounts: seq<Account>)

  /** What a publish carries, before encoding. */
  datatype Payload =
    | Change(response: ChangeResponse)
    | Changed(event: AccountChanged)
    | Got(getResponse: GetResponse)
    | Listed(listResponse: ListResponse)

  /** One effect on the bus, in the order a handler issues them:
      requests to the whitelist service (on `minecraft.whitelist.add` and
      `minecraft.whitelist.remove`), publishes to the request's reply address,
      and publishes to a fixed topic. */
  datatype Effect =
    | WhitelistAdd(uuid: string)
    | WhitelistRemove(uuid: string)
    | Reply(subject: string, payload: Payload)
    | Publish(topic: string, payload: Payload)

  /** An inbound message: the parsed request (None when the payload did not
      parse) and the optional reply address. */
  datatype Message<R> = Message(request: Option<R>, reply: Option<string>)

  /** What the handler returns: `Done` for `Ok(())`, `Failed` for an `Err`. */
  datatype Outcome = Done | Failed

  datatype Handled = Handled(outcome: Outcome, effects: seq<Effect>)

  /** The topic on which account changes are broadcast. */
  const ChangedTopic := "accounts.minecraft.changed"

  /** The number of publishes to a reply address in a trace. */
  function Replies(effects: seq<Effect>): nat
  {
    if effects == [] then 0
    else (if effects[0].Reply? then 1 else 0) + Replies(effects[1..])
  }

  /** The number of publishes to a topic (broadcasts) in a trace. */
  function Broadcasts(effects: seq<Effect>): nat
  {
    if effects == [] then 0
    else (if effects[0].Publish? then 1 else 0) + Broadcasts(effects[1..])
  }

  /** Counting replies and broadcasts adds up over a trace's parts. */
  lemma {:induction false} CountsAppend(a: seq<Effect>, b: seq<Effect>)
    ensures Replies(a + b) == Replies(a) + Replies(b)
    ensures Broadcasts(a + b) == Broadcasts(a) + Broadcasts(b)
  {
    if a == [] {
      assert a + b == b;
    } else {
      assert (a + b)[1..] == a[1..] + b;
      CountsAppend(a[1..], b);
    }
  }

  /** The counts of a two-effect trace, entry by entry. */
  lemma CountsOfPair(e0: Effect, e1: Effect)
    ensures Replies([e0, e1]) == (if e0.Reply? then 1 else 0) + (if e1.Reply? then 1 else 0)
    ensures Broadcasts([e0, e1]) == (if e0.Publish? then 1 else 0) + (if e1.Publish? then 1 else 0)
  {
    CountsAppend([e0], [e1]);
    assert [e0] + [e1] == [e0, e1];
  }

  /** The counts of a three-effect trace, entry by entry. */
  lemma CountsOfTriple(e0: Effect, e1: Effect, e2: Effect)
    ensures Replies([e0, e1, e2]) ==
      (if e0.Reply? then 1 else 0) + (if e1.Reply? then 1 else 0) + (if e2.Reply? then 1 else 0)
    ensures Broadcasts([e0, e1, e2]) ==
      (if e0.Publish? then 1 else 0) + (if e1.Publish? then 1 else 0) + (if e2.Publish? then 1 else 0)
  {
    CountsOfPair(e0, e1);
    CountsAppend([e0, e1], [e2]);
    assert [e0, e1] + [e2] == [e0, e1, e2];
  }
}

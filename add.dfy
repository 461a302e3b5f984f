/** The `accounts.minecraft.add` handler: resolve the uuid, refuse a registered
    one, whitelist it, store it, reply and broadcast. */
module AddHandler {
  import opened Messages
  import opened AccountStore
  import opened HandlerUtil

  /** The outcome of looking a username up with the external profile service. */
  datatype Lookup =
    | Found(id: string)   // status 200, with the profile's id
    | NotFound            // status 404
    | TooManyRequests     // status 429
    | OtherStatus         // any other status
    | LookupError         // the request itself or the decoding of its body failed

  const AccountNotFound := "Minecraft Account was not found"
  const LookupOverloaded := "Minecraft Account Lookup is overload, please try again in a minute"
  const LookupUnknownError := "Unknown error when looking up username"
  const AlreadyRegistered := "Minecraft Account is already registered."
  const CreateFailed := "Internal Error creating account."

  /** The uuid the handler goes on with: the request's own, else the one the
      lookup returned. */
  function ResolvedUuid(request: AddRequest, lookup: Lookup): (uuid: Option<string>)
    ensures request.minecraftUuid.Some? ==> uuid == request.minecraftUuid
    ensures request.minecraftUuid.None? ==> (uuid.Some? <==> lookup.Found?)
    ensures request.minecraftUuid.None? && lookup.Found? ==> uuid == Some(lookup.id)
  {
    if request.minecraftUuid.Some? then request.minecraftUuid
    else if lookup.Found? then Some(lookup.id)
    else None
  }

  /** The account the handler stores: main exactly when `get` finds nothing for
      the request's owner keys. */
  function NewAccount(rows: seq<Row>, request: AddRequest, uuid: string): Account
  {
    Account(uuid, request.minecraftUsername,
            Combined(rows, request.userId, request.deprecatedDiscordId) == [],
            request.firstName)
  }

  /** The new account is main exactly when no row is keyed by the request's
      user id or discord id: the owner's first account becomes main. */
  lemma MainIffFirstForOwner(rows: seq<Row>, request: AddRequest, uuid: string)
    ensures NewAccount(rows, request, uuid).isMain <==>
      forall r :: r in rows ==> !OwnedBy(r, request.userId, request.deprecatedDiscordId)
  {
    CombinedEmpty(rows, request.userId, request.deprecatedDiscordId);
  }

  /** A second account for an owner who already has one is not main. */
  lemma SecondAccountIsNotMain(rows: seq<Row>, request: AddRequest, uuid: string, first: Row)
    requires first in rows && OwnedBy(first, request.userId, request.deprecatedDiscordId)
    ensures !NewAccount(rows, request, uuid).isMain
  {
    MainIffFirstForOwner(rows, request, uuid);
  }

  /** A uuid whose first row carries neither owner key passes the existence
      check; when the insert then goes through (the success case of
      `Register`), the table holds a second row with that uuid. */
  lemma OwnerlessUuidIsAddedAgain(rows: seq<Row>, request: AddRequest, uuid: string, i: int)
    requires IsFirst(rows, UuidIs(uuid), i) && rows[i].userId.None? && rows[i].discordId.None?
    ensures !UuidExists(rows, uuid)
    ensures var table := rows + [NewRow(request.userId, request.deprecatedDiscordId, NewAccount(rows, request, uuid))];
      |Select(table, UuidIs(uuid))| == |Select(rows, UuidIs(uuid))| + 1 >= 2
  {
    OwnerlessFirstRowIsAbsent(rows, uuid, i);
    AppendedMatchIsSelected(rows, NewRow(request.userId, request.deprecatedDiscordId, NewAccount(rows, request, uuid)), UuidIs(uuid), rows[i]);
  }

  /** `add`: parse, then (with a reply address) resolve the uuid and register it. */
  method Add(db: Store, msg: Message<AddRequest>, lookup: Lookup, insertFails: bool) returns (h: Handled)
    modifies db
    ensures msg.request.None? ==> h == Handled(Failed, [])
    ensures msg.request.Some? && msg.reply.None? ==> h == Handled(Done, [])
    ensures msg.request.Some? && msg.reply.Some? && msg.request.value.minecraftUuid.None? && lookup == NotFound ==>
      h == Handled(Done, [SendChangeError(msg.reply.value, AccountNotFound)])
    ensures msg.request.Some? && msg.reply.Some? && msg.request.value.minecraftUuid.None? && lookup == TooManyRequests ==>
      h == Handled(Done, [SendChangeError(msg.reply.value, LookupOverloaded)])
    ensures msg.request.Some? && msg.reply.Some? && msg.request.value.minecraftUuid.None? && lookup == OtherStatus ==>
      h == Handled(Done, [SendChangeError(msg.reply.value, LookupUnknownError)])
    ensures msg.request.Some? && msg.reply.Some? && msg.request.value.minecraftUuid.None? && lookup == LookupError ==>
      h == Handled(Failed, [])
    ensures msg.request.Some? && msg.reply.Some? ==>
      var uuid := ResolvedUuid(msg.request.value, lookup);
      uuid.Some? && UuidExists(old(db.rows), uuid.value) ==>
        h == Handled(Done, [SendChangeError(msg.reply.value, AlreadyRegistered)])
    ensures msg.request.Some? && msg.reply.Some? ==>
      var uuid := ResolvedUuid(msg.request.value, lookup);
      uuid.Some? && !UuidExists(old(db.rows), uuid.value) && insertFails ==>
        h == Handled(Done, [WhitelistAdd(uuid.value), SendChangeError(msg.reply.value, CreateFailed)])
    ensures msg.request.Some? && msg.reply.Some? ==>
      var request, reply := msg.request.value, msg.reply.value;
      var uuid := ResolvedUuid(request, lookup);
      uuid.Some? && !UuidExists(old(db.rows), uuid.value) && !insertFails ==>
        var account := NewAccount(old(db.rows), request, uuid.value);
        && db.rows == old(db.rows) + [NewRow(request.userId, request.deprecatedDiscordId, account)]
        && h == Handled(Done, [
             WhitelistAdd(uuid.value),
             Reply(reply, Change(ChangeResponse(true, None, Some(account)))),
             Publish(ChangedTopic, Changed(AccountChanged(
               request.userId, request.deprecatedDiscordId, Added, Some(account))))])
    // the table changes exactly when a broadcast goes out, and then only by one appended row
    ensures db.rows == old(db.rows) <==> Broadcasts(h.effects) == 0
    ensures Broadcasts(h.effects) <= 1
    ensures |old(db.rows)| <= |db.rows| <= |old(db.rows)| + 1 && db.rows[..|old(db.rows)|] == old(db.rows)
    ensures msg.reply.Some? && h.outcome == Done ==> Replies(h.effects) == 1
    ensures msg.reply.None? ==> h.effects == []
  {
    if msg.request.None? {
      return Handled(Failed, []);
    }
    var request := msg.request.value;
    h := Handled(Done, []);
    if msg.reply.Some? {
      var reply := msg.reply.value;
      if request.minecraftUuid.None? {
        match lookup {
          case Found(id) =>
            request := request.(minecraftUuid := Some(id));
          case NotFound =>
            return Handled(Done, [SendChangeError(reply, AccountNotFound)]);
          case TooManyRequests =>
            return Handled(Done, [SendChangeError(reply, LookupOverloaded)]);
          case OtherStatus =>
            return Handled(Done, [SendChangeError(reply, LookupUnknownError)]);
          case LookupError =>
            return Handled(Failed, []);
        }
      }
      h := Register(db, request, reply, insertFails);
    }
  }

  /** The part of `add` that runs once the uuid is known: the existence check,
      the main-account decision, the whitelist request, the insert, the reply
      and the broadcast. */
  method Register(db: Store, request: AddRequest, reply: string, insertFails: bool) returns (h: Handled)
    requires request.minecraftUuid.Some?
    modifies db
    ensures UuidExists(old(db.rows), request.minecraftUuid.value) ==>
      h == Handled(Done, [SendChangeError(reply, AlreadyRegistered)])
    ensures !UuidExists(old(db.rows), request.minecraftUuid.value) && insertFails ==>
      h == Handled(Done, [WhitelistAdd(request.minecraftUuid.value), SendChangeError(reply, CreateFailed)])
    ensures !UuidExists(old(db.rows), request.minecraftUuid.value) && !insertFails ==>
      var account := NewAccount(old(db.rows), request, request.minecraftUuid.value);
      && db.rows == old(db.rows) + [NewRow(request.userId, request.deprecatedDiscordId, account)]
      && h == Handled(Done, [
           WhitelistAdd(request.minecraftUuid.value),
           Reply(reply, Change(ChangeResponse(true, None, Some(account)))),
           Publish(ChangedTopic, Changed(AccountChanged(
             request.userId, request.deprecatedDiscordId, Added, Some(account))))])
    ensures db.rows == old(db.rows) <==> Broadcasts(h.effects) == 0
    ensures Broadcasts(h.effects) <= 1
    ensures |old(db.rows)| <= |db.rows| <= |old(db.rows)| + 1 && db.rows[..|old(db.rows)|] == old(db.rows)
    ensures h.outcome == Done && Replies(h.effects) == 1
  {
    if UuidExists(db.rows, request.minecraftUuid.value) {
      return Handled(Done, [SendChangeError(reply, AlreadyRegistered)]);
    }

    var account := Account(request.minecraftUuid.value, request.minecraftUsername, false, request.firstName);
    var accounts := db.Get(request.userId, request.deprecatedDiscordId);
    account := account.(isMain := |accounts| <= 0);

    var stored := db.AddAccount(request.userId, request.deprecatedDiscordId, account, insertFails);
    // in both traces below the whitelist request precedes the insert's outcome
    if stored.Err? {
      CountsOfPair(WhitelistAdd(account.minecraftUuid), SendChangeError(reply, CreateFailed));
      return Handled(Done, [WhitelistAdd(account.minecraftUuid), SendChangeError(reply, CreateFailed)]);
    }

    var response := ChangeResponse(true, None, Some(stored.value));
    var broadcast := AccountChanged(request.userId, request.deprecatedDiscordId, Added, Some(stored.value));
    CountsOfTriple(WhitelistAdd(account.minecraftUuid), Reply(reply, Change(response)), Publish(ChangedTopic, Changed(broadcast)));
    return Handled(Done, [WhitelistAdd(account.minecraftUuid), Reply(reply, Change(response)), Publish(ChangedTopic, Changed(broadcast))]);
  }
}

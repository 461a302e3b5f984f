/** The `accounts.minecraft.remove` handler: resolve the target, check that the
    caller owns it, unwhitelist it, delete it, reply and broadcast. */
module RemoveHandler {
  import opened Messages
  import opened AccountStore
  import opened HandlerUtil

  const UnknownAccount := "Unknown minecraft account."
  const RemoveFailed := "Internal Error removing account."

  /** The uuid a remove request names: its own, else the uuid stored for its
      legacy username, else none. */
  function Target(rows: seq<Row>, request: RemoveRequest): (target: Option<string>)
    ensures request.minecraftUuid.Some? ==> target == request.minecraftUuid
    ensures request.minecraftUuid.None? && request.deprecatedMinecraftUsername.None? ==> target.None?
    ensures request.minecraftUuid.None? && request.deprecatedMinecraftUsername.Some? ==>
      (target.None? <==> forall r :: r in rows ==> r.minecraftUsername != request.deprecatedMinecraftUsername.value)
    ensures request.minecraftUuid.None? && target.Some? ==>
      exists r :: r in rows && r.minecraftUsername == request.deprecatedMinecraftUsername.value && r.minecraftUuid == target.value
  {
    if request.minecraftUuid.Some? then request.minecraftUuid
    else if request.deprecatedMinecraftUsername.Some? then
      MinecraftNameToUuid(rows, request.deprecatedMinecraftUsername.value)
    else None
  }

  /** The caller's id equals one of the two owner keys `uuid_owner` reports. */
  predicate Owns(rows: seq<Row>, uuid: string, caller: string)
  {
    var (user, discord) := UuidOwner(rows, uuid);
    user == Some(caller) || discord == Some(caller)
  }

  /** Ownership is decided by the first row with that uuid: its user_id or its
      discord_id is the caller's id. An unknown uuid is owned by nobody, so it
      draws the same reply as a foreign one. */
  lemma OwnsIffOwnerKey(rows: seq<Row>, uuid: string, caller: string)
    ensures Owns(rows, uuid, caller) <==>
      exists i :: IsFirst(rows, UuidIs(uuid), i) && (rows[i].userId == Some(caller) || rows[i].discordId == Some(caller))
    ensures (forall r :: r in rows ==> r.minecraftUuid != uuid) ==> !Owns(rows, uuid, caller)
  {
    var k := First(rows, UuidIs(uuid));
    if k.Some? {
      assert IsFirst(rows, UuidIs(uuid), k.value);
      assert rows[k.value] in rows;
    }
  }

  /** Once ownership holds, the account exists (so reading it back cannot fail)
      and deleting its uuid removes at least one row. */
  lemma OwnedAccountExists(rows: seq<Row>, uuid: string, caller: string)
    requires Owns(rows, uuid, caller)
    ensures GetByMinecraft(rows, uuid).Some?
    ensures |Select(rows, Not(UuidIs(uuid)))| < |rows|
  {
    var k := First(rows, UuidIs(uuid));
    assert k.Some?;
    assert rows[k.value] in Select(rows, UuidIs(uuid));
    SelectPartition(rows, UuidIs(uuid));
  }

  /** `remove`: parse, then (with a reply address) resolve the target and
      remove it if the caller owns it. */
  method Remove(db: Store, msg: Message<RemoveRequest>, deleteFails: bool) returns (h: Handled)
    modifies db
    ensures msg.request.None? ==> h == Handled(Failed, [])
    ensures msg.request.Some? && msg.reply.None? ==> h == Handled(Done, [])
    ensures msg.request.Some? && msg.reply.Some? ==>
      var target := Target(old(db.rows), msg.request.value);
      target.None? || !Owns(old(db.rows), target.value, msg.request.value.userId) ==>
        h == Handled(Done, [SendChangeError(msg.reply.value, UnknownAccount)])
    ensures msg.request.Some? && msg.reply.Some? ==>
      var target := Target(old(db.rows), msg.request.value);
      target.Some? && Owns(old(db.rows), target.value, msg.request.value.userId) && deleteFails ==>
        h == Handled(Done, [WhitelistRemove(target.value), SendChangeError(msg.reply.value, RemoveFailed)])
    ensures msg.request.Some? && msg.reply.Some? ==>
      var target := Target(old(db.rows), msg.request.value);
      target.Some? && Owns(old(db.rows), target.value, msg.request.value.userId) && !deleteFails ==>
        var response := ChangeResponse(true, None, None);
        && db.rows == Select(old(db.rows), Not(UuidIs(target.value)))
        && h == Handled(Done, [
             WhitelistRemove(target.value),
             Reply(msg.reply.value, Change(response)),
             Publish(ChangedTopic, Change(response))])
    // the table changes exactly when a broadcast goes out
    ensures db.rows == old(db.rows) <==> Broadcasts(h.effects) == 0
    ensures Broadcasts(h.effects) <= 1
    ensures msg.reply.Some? && h.outcome == Done ==> Replies(h.effects) == 1
    ensures msg.reply.None? ==> h.effects == []
  {
    if msg.request.None? {
      return Handled(Failed, []);
    }
    var request := msg.request.value;
    h := Handled(Done, []);
    if msg.reply.Some? {
      var reply := msg.reply.value;
      var uuid: string;
      if request.minecraftUuid.Some? {
        uuid := request.minecraftUuid.value;
      } else if request.deprecatedMinecraftUsername.Some? {
        var account := MinecraftNameToUuid(db.rows, request.deprecatedMinecraftUsername.value);
        if account.Some? {
          uuid := account.value;
        } else {
          return Handled(Done, [SendChangeError(reply, UnknownAccount)]);
        }
      } else {
        return Handled(Done, [SendChangeError(reply, UnknownAccount)]);
      }
      h := Unregister(db, request.userId, uuid, reply, deleteFails);
    }
  }

  /** The part of `remove` that runs once the target uuid is known: the
      ownership check, the read-back, the whitelist request, the delete, the
      reply and the broadcast. */
  method Unregister(db: Store, caller: string, uuid: string, reply: string, deleteFails: bool) returns (h: Handled)
    modifies db
    ensures !Owns(old(db.rows), uuid, caller) ==>
      h == Handled(Done, [SendChangeError(reply, UnknownAccount)])
    ensures Owns(old(db.rows), uuid, caller) && deleteFails ==>
      h == Handled(Done, [WhitelistRemove(uuid), SendChangeError(reply, RemoveFailed)])
    ensures Owns(old(db.rows), uuid, caller) && !deleteFails ==>
      var response := ChangeResponse(true, None, None);
      && db.rows == Select(old(db.rows), Not(UuidIs(uuid)))
      && h == Handled(Done, [WhitelistRemove(uuid), Reply(reply, Change(response)), Publish(ChangedTopic, Change(response))])
    ensures db.rows == old(db.rows) <==> Broadcasts(h.effects) == 0
    ensures Broadcasts(h.effects) <= 1
    ensures h.outcome == Done && Replies(h.effects) == 1
  {
    // `uuid_owner` yields (user_id, discord_id); the handler binds them the other way round.
    var (discord, user) := UuidOwner(db.rows, uuid);
    var owns := false;
    if discord.Some? {
      owns := owns || discord.value == caller;
    }
    if user.Some? {
      owns := owns || user.value == caller;
    }
    assert owns == Owns(db.rows, uuid, caller);
    if !owns {
      return Handled(Done, [SendChangeError(reply, UnknownAccount)]);
    }
    var userId, discordId := user, discord;

    OwnedAccountExists(db.rows, uuid, caller);
    var account := GetByMinecraft(db.rows, uuid).value;

    var deleted := db.DeleteAccount(uuid, deleteFails);
    // in both traces below the whitelist request precedes the delete's outcome
    if deleted.Err? {
      CountsOfPair(WhitelistRemove(uuid), SendChangeError(reply, RemoveFailed));
      return Handled(Done, [WhitelistRemove(uuid), SendChangeError(reply, RemoveFailed)]);
    }

    var response := ChangeResponse(true, None, None);
    // The broadcast record is built (with the owner keys swapped) but it is
    // the response that is encoded and published.
    var broadcast := AccountChanged(userId, discordId, Removed, Some(account));
    CountsOfTriple(WhitelistRemove(uuid), Reply(reply, Change(response)), Publish(ChangedTopic, Change(response)));
    return Handled(Done, [WhitelistRemove(uuid), Reply(reply, Change(response)), Publish(ChangedTopic, Change(response))]);
  }
}

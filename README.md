# Minecraft account bindings — a Dafny model

The service keeps one table, `accounts`, that binds Minecraft accounts to their
owners. Each row has an optional `user_id`, an optional legacy `discord_id`, a
`minecraft_uuid`, a `minecraft_username`, an `is_main` flag and an optional
legacy `first_name`. The service answers four NATS subjects:

- **add** resolves the uuid, through the request or the Mojang profile lookup.
  It refuses a uuid that is already registered. Otherwise it decides whether the
  account is the owner's main one, asks the whitelist service to add it, inserts
  it, replies, and broadcasts an ADDED change.
- **remove** resolves the target and checks that the caller owns it. It then
  asks the whitelist service to drop it, deletes it, replies and broadcasts.
- **get** reads one account by uuid.
- **list** returns every account keyed by the caller's id.

The model has these parts:

- `messages.dfy` (module `Messages`) holds the bus records and the effect trace:
  whitelist requests, replies and topic publishes, in the order a handler
  issues them.
- `store.dfy` (module `AccountStore`) holds the table as a `seq<Row>` in table
  order.
  - Each WHERE clause is a selection (`Select`, `First`) over it. The reads
    are functions built on those selections.
  - The three writes (INSERT, UPDATE, DELETE) are methods of the class
    `Store`, which owns the rows.
  - `get` is a method whose two push loops are proved against the function
    `Combined`.
- `util.dfy` (module `HandlerUtil`) holds the failure reply.
- `add.dfy` and `remove.dfy` hold the two mutating handlers as module-level
  methods that take a `Store` and may change its rows. Each returns its
  outcome (`Done` for `Ok(())`, `Failed` for an `Err`) and its effect trace.
- `get.dfy` and `list.dfy` hold the two read handlers as functions of the rows.

Four quirks of the handlers are kept as written:

- remove binds the `(user_id, discord_id)` pair that `uuid_owner` returns the
  other way round. Ownership still accepts either key, so the outcome is the
  same.
- The remove broadcast publishes the success response, not the
  `MinecraftAccountChanged` record it builds.
- list passes the caller's id as both keys. A row keyed by it both ways is
  therefore listed twice.
- `uuid_exists` reports a uuid whose first row carries neither owner key as
  absent, so add goes on to register such a uuid again. When the insert goes
  through, the table then holds two rows with that uuid. The schema may impose
  a unique constraint on `minecraft_uuid`; the insert then fails, and add sends
  the whitelist add followed by "Internal Error creating account." (the
  `insertFails` case of the model).

## Model

| member | source | states |
|---|---|---|
| AccountStore.Select | src/store.rs:177-195 | a WHERE clause keeps exactly the matching rows, each as often as in the table, and never more rows than the table has |
| AccountStore.First | src/store.rs:158-166 | `fetch_optional` yields the first matching row in table order, and yields nothing exactly when no row matches |
| AccountStore.FirstIsUnique | src/store.rs:158-166 | the first matching position is unique, so any position with that property is the one `fetch_optional` yields |
| AccountStore.Accounts | src/store.rs:199-207 | the conversion maps each row, position by position, to its account |
| AccountStore.FirstNameDefault | src/store.rs:200 | a null first name reads as "Deprecated"; any other is copied |
| AccountStore.MinecraftNameToUuid | src/store.rs:127-151 | none exactly when no row has that username; otherwise the uuid of a row with that username |
| AccountStore.UuidOwner | src/store.rs:153-175 | returns (user_id, discord_id) of the first row with that uuid, in that order, and (None, None) when no row has it |
| AccountStore.UuidExists | src/store.rs:287-290 | true exactly when the first row with that uuid carries a user_id or a discord_id |
| AccountStore.OwnerlessAccountIsAbsent | src/store.rs:287-290 | a row stored with both owner keys null is reported as not existing |
| AccountStore.OwnerlessFirstRowIsAbsent | src/store.rs:287-290 | a uuid whose first row has neither owner key is reported as not existing, even though a row has it |
| AccountStore.AppendedMatchIsSelected | src/store.rs:32-69 | on any table, inserting a row the clause matches appends it to that selection, adding exactly one; when a matching row already exists the selection then has at least two |
| AccountStore.GetByUser | src/store.rs:177-210 | one account per row with that user_id, in table order, each the conversion of its own row; an account is listed exactly when some such row converts to it |
| AccountStore.GetByDiscord | src/store.rs:212-245 | one account per row with that discord_id, in table order, each the conversion of its own row; an account is listed exactly when some such row converts to it |
| AccountStore.AccountsMembers | src/store.rs:197-209 | an account is in the converted list exactly when some row converts to it |
| AccountStore.GetByMinecraft | src/store.rs:247-285 | none exactly when no row has that uuid; otherwise the account of the first such row |
| AccountStore.CombinedMembers | src/store.rs:292-305 | `get` lists exactly the accounts of the rows keyed by either key given |
| AccountStore.CombinedLength | src/store.rs:292-305 | no de-duplication: the length is the sum of the two selections, and `get(None, None)` is empty |
| AccountStore.CombinedEmpty | src/store.rs:292-305 | `get` is empty exactly when no row is keyed by either key |
| AccountStore.ListedTwice | src/store.rs:292-305 | a row keyed by the same id as user and discord appears at least twice when that id is passed for both |
| AccountStore.SelectConcat | src/store.rs:177-195 | selection keeps table order: selecting from a concatenation concatenates the selections |
| AccountStore.SelectPartition | src/store.rs:110-125 | the rows a delete removes and the rows it keeps add up to the table |
| AccountStore.FirstBySameUuids | src/store.rs:72-96 | an update that keeps every uuid in place keeps the first row per uuid in place |
| AccountStore.AccountRoundTrip | src/store.rs:32-69 | the inserted row reads back as the given account and carries the given owner keys |
| AccountStore.AddedAccountIsFound | src/store.rs:32-69 | after inserting an owned account with a fresh uuid, that uuid exists and reads back as the account |
| AccountStore.DeletedIsGone | src/store.rs:110-125 | after a delete no row has that uuid, every other row is kept as many times as before with its flags, and neither read by uuid finds it |
| AccountStore.PushAll | src/store.rs:295-297 | the push loop appends the fetched accounts, in order, to what was collected |
| AccountStore.Store.constructor | src/store.rs:28-30 | the handle starts on the given table |
| AccountStore.Store.AddAccount | src/store.rs:32-69 | on success one row with the given owner keys, uuid, username, is_main and first name is appended and the given account is returned; on a store error the table is unchanged |
| AccountStore.Store.UpdateAccount | src/store.rs:72-107 | only the username and is_main of the rows with that uuid change; owners, uuid and first name stay; it fails, changing nothing, when no row has the uuid; it returns the first updated row |
| AccountStore.Store.DeleteAccount | src/store.rs:110-125 | the table becomes the rows with a different uuid, and the result is true exactly when one row was removed |
| AccountStore.Store.Get | src/store.rs:292-305 | the user-keyed accounts in table order, followed by the discord-keyed ones |
| HandlerUtil.SendChangeError | src/handlers/util.rs:6-13 | one reply to the subject, with success false, the message as error and no account |
| GetHandler.Get | src/handlers/get.rs:7-33 | a parse failure is an error with no effects; no reply address means no effects; otherwise one reply whose found flag holds exactly when a row has the uuid, carrying that row's account, or no account when not found; never a broadcast |
| ListHandler.List | src/handlers/list.rs:7-24 | one reply echoing the caller's id with `get(id, id)`, whose length is the sum of both selections; no effects without a reply address; never a broadcast |
| ListHandler.ListedAccounts | src/handlers/list.rs:12 | the listing holds exactly the accounts of rows keyed by the id either way, and a row keyed both ways is listed twice |
| AddHandler.ResolvedUuid | src/handlers/add.rs:17-40 | the request's own uuid when it has one; otherwise a uuid exactly when the lookup found the profile, and then the profile's id |
| AddHandler.MainIffFirstForOwner | src/handlers/add.rs:55-59 | the new account is main exactly when no row is keyed by the request's user id or discord id |
| AddHandler.SecondAccountIsNotMain | src/handlers/add.rs:55-59 | an owner who already has an account gets a non-main one |
| AddHandler.OwnerlessUuidIsAddedAgain | src/handlers/add.rs:43-73 | a uuid whose first row has no owner key passes the existence check, and when the insert goes through the new row gives the table a second row with that uuid |
| AddHandler.Add | src/handlers/add.rs:12-99 | each lookup outcome's reply, or an error for a failed lookup; the already-registered reply; the whitelist-then-failure trace; on success the appended row, the reply with the stored account and the ADDED broadcast with the request's owner keys; the table changes exactly when a broadcast goes out, and then by one appended row; one reply on every path that does not fail; nothing without a reply address |
| AddHandler.Register | src/handlers/add.rs:43-96 | the same outcomes once the uuid is known: refused when it exists; whitelist add before the insert; the reply then the broadcast on success |
| RemoveHandler.Target | src/handlers/remove.rs:16-31 | the request's own uuid when it has one; otherwise, with a legacy username, none exactly when no row has that username and else the uuid of a row with it; with neither, none |
| RemoveHandler.OwnsIffOwnerKey | src/handlers/remove.rs:33-45 | ownership holds exactly when the caller's id is the user_id or discord_id of the first row with the uuid; an unknown uuid is owned by nobody |
| RemoveHandler.OwnedAccountExists | src/handlers/remove.rs:50-51 | once ownership holds, the read by uuid finds the account, so the unwrap cannot fail, and the delete removes at least one row |
| RemoveHandler.Remove | src/handlers/remove.rs:10-91 | an unresolvable target or one the caller does not own draws "Unknown minecraft account." and changes nothing; a failed delete yields the whitelist removal then the failure reply; on success the uuid's rows are deleted and the trace is whitelist removal, success reply, broadcast of that same response; nothing without a reply address |
| RemoveHandler.Unregister | src/handlers/remove.rs:33-84 | the same outcomes once the target uuid is known; the table changes exactly when a broadcast goes out, and one reply is sent on every path |

## Left out

- Protobuf encoding and decoding: messages are records, and a payload that does not parse is an `Err` outcome with no effects.
- The Mojang profile lookup (`src/handlers/add.rs:19-28`) is the `Lookup` parameter of `AddHandler.Add`. A failed request or body decoding is `LookupError`.
- Store write failures (a backend error, or a constraint the schema may impose) are the `fails`, `insertFails` and `deleteFails` parameters.
- AddHandler.Add: the `?` exits are not modelled; in the model store reads, the whitelist request and both publishes always succeed. In the source a failed read (`src/handlers/add.rs:44`, `:57`) or whitelist request (`:66`) returns `Err` with no reply and the table unchanged. A failed reply publish (`:87`) returns `Err` after the row is inserted, and a failed broadcast (`:96`) returns `Err` after the row is inserted and the reply is sent. So in the source the table can change with no broadcast; the contract "the table changes exactly when a broadcast goes out" rests on publishes never failing.
- RemoveHandler.Remove: the `?` exits are not modelled either. A failed read (`src/handlers/remove.rs:21`, `:33`, `:51`) or whitelist request (`:58`) returns `Err` with no reply and the table unchanged. A failed reply publish (`:75`) returns `Err` after the rows are deleted, and a failed broadcast (`:84`) returns `Err` after the rows are deleted and the reply is sent. The same contract about the table and the broadcast rests on publishes never failing.
- GetHandler.Get and ListHandler.List: a failed store read or publish is not modelled either.
- SQL leaves the order of returned rows unspecified. The model uses table order, so `fetch_optional` and `fetch_one` take the first matching row in insertion order.
- The serial `id` column is not modelled: no statement filters on it and no handler reads it.
- NATS transport, request/reply waiting, timeouts and delivery: a whitelist request and a publish are trace entries only.
- Concurrency between handlers (two adds of the same uuid, a remove racing an add): the model is sequential.
- `tracing` instrumentation and log messages.
- `src/main.rs` (connection setup and subscription wiring) is not part of this model.

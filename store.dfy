/** The `accounts` table and the statements the store runs against it.
    Each SQL statement is a selection, insertion, update or deletion over a
    sequence of rows kept in table order; `fetch_optional` and `fetch_one`
    take the first row a statement yields. */
module AccountStore {
  import opened Messages

  /** One row of the `accounts` table (the serial `id` column is not modelled). */
  datatype Row = Row(
    discordId: Option<string>,
    userId: Option<string>,
    minecraftUuid: string,
    minecraftUsername: string,
    isMain: bool,
    firstName: Option<string>)

  /** The name every read reports for a row whose `first_name` is null. */
  const DeprecatedFirstName := "Deprecated"

  /** The WHERE clauses the store's statements use. */
  datatype Where =
    | UserIs(id: string)
    | DiscordIs(id: string)
    | UuidIs(uuid: string)
    | UsernameIs(name: string)
    | Not(negated: Where)

  predicate Matches(w: Where, r: Row)
  {
    match w
    case UserIs(id) => r.userId == Some(id)
    case DiscordIs(id) => r.discordId == Some(id)
    case UuidIs(uuid) => r.minecraftUuid == uuid
    case UsernameIs(name) => r.minecraftUsername == name
    case Not(w') => !Matches(w', r)
  }

  /** The row-to-account conversion every read uses. */
  function ToAccount(r: Row): Account
  {
    Account(r.minecraftUuid, r.minecraftUsername, r.isMain,
            match r.firstName
            case Some(name) => name
            case None => DeprecatedFirstName)
  }

  /** The row `add_account` inserts: both owner keys as given, the account's
      fields, and its first name (never null). */
  function NewRow(userId: Option<string>, discordId: Option<string>, account: Account): Row
  {
    Row(discordId, userId, account.minecraftUuid, account.minecraftUsername,
        account.isMain, Some(account.deprecatedFirstName))
  }

  function Accounts(rows: seq<Row>): (accounts: seq<Account>)
    ensures |accounts| == |rows|
    ensures forall i :: 0 <= i < |rows| ==> accounts[i] == ToAccount(rows[i])
  {
    seq(|rows|, i requires 0 <= i < |rows| => ToAccount(rows[i]))
  }

  /** The rows a WHERE clause selects, in table order. */
  function Select(rows: seq<Row>, w: Where): (selected: seq<Row>)
    ensures forall r :: multiset(selected)[r] == if Matches(w, r) then multiset(rows)[r] else 0
    ensures forall r :: r in selected <==> r in rows && Matches(w, r)
    ensures |selected| <= |rows|
  {
    if rows == [] then []
    else
      var rest := Select(rows[1..], w);
      assert rows == [rows[0]] + rows[1..];
      if Matches(w, rows[0]) then [rows[0]] + rest else rest
  }

  /** `i` is the position of the first row that `w` selects. */
  ghost predicate IsFirst(rows: seq<Row>, w: Where, i: int)
  {
    0 <= i < |rows| && Matches(w, rows[i]) && forall j :: 0 <= j < i ==> !Matches(w, rows[j])
  }

  /** The position of the row `fetch_optional` or `fetch_one` returns. */
  function First(rows: seq<Row>, w: Where): (i: Option<nat>)
    ensures i.Some? ==> IsFirst(rows, w, i.value)
    ensures i.None? <==> forall r :: r in rows ==> !Matches(w, r)
  {
    if rows == [] then None
    else if Matches(w, rows[0]) then assert rows[0] in rows; Some(0)
    else
      match First(rows[1..], w)
      case None => assert rows == [rows[0]] + rows[1..]; None
      case Some(k) => assert rows[k + 1] in rows; Some(k + 1)
  }

  lemma FirstIsUnique(rows: seq<Row>, w: Where, i: int)
    requires IsFirst(rows, w, i)
    ensures First(rows, w) == Some(i)
  {
    assert rows[i] in rows;
  }

  /** `minecraft_name_to_uuid`: the uuid of the first row with that username. */
  function MinecraftNameToUuid(rows: seq<Row>, name: string): (uuid: Option<string>)
    ensures uuid.None? <==> forall r :: r in rows ==> r.minecraftUsername != name
    ensures uuid.Some? ==> exists r :: r in rows && r.minecraftUsername == name && r.minecraftUuid == uuid.value
  {
    match First(rows, UsernameIs(name))
    case None => None
    case Some(i) => assert rows[i] in rows; Some(rows[i].minecraftUuid)
  }

  /** `uuid_owner`: the pair (user_id, discord_id) of the first row with that uuid. */
  function UuidOwner(rows: seq<Row>, uuid: string): (owner: (Option<string>, Option<string>))
    ensures (forall r :: r in rows ==> r.minecraftUuid != uuid) ==> owner == (None, None)
    ensures forall i :: IsFirst(rows, UuidIs(uuid), i) ==> owner == (rows[i].userId, rows[i].discordId)
  {
    match First(rows, UuidIs(uuid))
    case None => (None, None)
    case Some(k) =>
      assert forall i :: IsFirst(rows, UuidIs(uuid), i) ==> i == k by {
        forall i | IsFirst(rows, UuidIs(uuid), i) ensures i == k { FirstIsUnique(rows, UuidIs(uuid), i); }
      }
      (rows[k].userId, rows[k].discordId)
  }

  /** `uuid_exists`: the first row with that uuid carries an owner key. */
  function UuidExists(rows: seq<Row>, uuid: string): (found: bool)
    ensures found <==> exists i :: IsFirst(rows, UuidIs(uuid), i) && (rows[i].userId.Some? || rows[i].discordId.Some?)
    ensures found ==> exists r :: r in rows && r.minecraftUuid == uuid
  {
    var (user, discord) := UuidOwner(rows, uuid);
    var k := First(rows, UuidIs(uuid));
    assert k.Some? ==> rows[k.value] in rows;
    discord.Some? || user.Some?
  }

  /** `get_by_user`: the accounts whose user_id is `id`, in table order. */
  function GetByUser(rows: seq<Row>, id: string): (accounts: seq<Account>)
    ensures |accounts| == |Select(rows, UserIs(id))|
    ensures forall i :: 0 <= i < |accounts| ==> accounts[i] == ToAccount(Select(rows, UserIs(id))[i])
    ensures forall a :: a in accounts <==> exists r :: r in rows && r.userId == Some(id) && ToAccount(r) == a
  {
    var selected := Select(rows, UserIs(id));
    AccountsMembers(selected);
    Accounts(selected)
  }

  /** `get_by_discord`: the accounts whose discord_id is `id`, in table order. */
  function GetByDiscord(rows: seq<Row>, id: string): (accounts: seq<Account>)
    ensures |accounts| == |Select(rows, DiscordIs(id))|
    ensures forall i :: 0 <= i < |accounts| ==> accounts[i] == ToAccount(Select(rows, DiscordIs(id))[i])
    ensures forall a :: a in accounts <==> exists r :: r in rows && r.discordId == Some(id) && ToAccount(r) == a
  {
    var selected := Select(rows, DiscordIs(id));
    AccountsMembers(selected);
    Accounts(selected)
  }

  lemma AccountsMembers(rows: seq<Row>)
    ensures forall a :: a in Accounts(rows) <==> exists r :: r in rows && ToAccount(r) == a
  {
    var accounts := Accounts(rows);
    forall a | a in accounts ensures exists r :: r in rows && ToAccount(r) == a {
      var i :| 0 <= i < |accounts| && accounts[i] == a;
      assert rows[i] in rows;
    }
    forall a | exists r :: r in rows && ToAccount(r) == a ensures a in accounts {
      var r :| r in rows && ToAccount(r) == a;
      var i :| 0 <= i < |rows| && rows[i] == r;
      assert accounts[i] == a;
    }
  }

  /** `get_by_minecraft`: the account of the first row with that uuid. */
  function GetByMinecraft(rows: seq<Row>, uuid: string): (account: Option<Account>)
    ensures account.None? <==> forall r :: r in rows ==> r.minecraftUuid != uuid
    ensures forall i :: IsFirst(rows, UuidIs(uuid), i) ==> account == Some(ToAccount(rows[i]))
  {
    match First(rows, UuidIs(uuid))
    case None => None
    case Some(k) =>
      assert rows[k] in rows;
      assert forall i :: IsFirst(rows, UuidIs(uuid), i) ==> i == k by {
        forall i | IsFirst(rows, UuidIs(uuid), i) ensures i == k { FirstIsUnique(rows, UuidIs(uuid), i); }
      }
      Some(ToAccount(rows[k]))
  }

  /** What `get` collects: the user-keyed accounts, then the discord-keyed ones. */
  function Combined(rows: seq<Row>, user: Option<string>, discord: Option<string>): seq<Account>
  {
    (if user.Some? then GetByUser(rows, user.value) else []) +
    (if discord.Some? then GetByDiscord(rows, discord.value) else [])
  }

  /** Row `r` is keyed by the user or the discord id given. */
  predicate OwnedBy(r: Row, user: Option<string>, discord: Option<string>)
  {
    (user.Some? && r.userId == user) || (discord.Some? && r.discordId == discord)
  }

  /** The rows `update_account` leaves: every row with the account's uuid gets
      its username and is_main; nothing else changes. */
  function Updated(rows: seq<Row>, account: Account): (updated: seq<Row>)
    ensures |updated| == |rows|
  {
    seq(|rows|, i requires 0 <= i < |rows| =>
      if rows[i].minecraftUuid == account.minecraftUuid
      then rows[i].(minecraftUsername := account.minecraftUsername, isMain := account.isMain)
      else rows[i])
  }

  /** Exactly the accounts of the rows keyed by `user` or `discord` are listed. */
  lemma CombinedMembers(rows: seq<Row>, user: Option<string>, discord: Option<string>)
    ensures forall a :: a in Combined(rows, user, discord) <==>
      exists r :: r in rows && OwnedBy(r, user, discord) && ToAccount(r) == a
  {
  }

  /** There is no de-duplication: the length is the sum of both selections. */
  lemma CombinedLength(rows: seq<Row>, user: Option<string>, discord: Option<string>)
    ensures |Combined(rows, user, discord)| ==
      (if user.Some? then |Select(rows, UserIs(user.value))| else 0) +
      (if discord.Some? then |Select(rows, DiscordIs(discord.value))| else 0)
    ensures user.None? && discord.None? ==> Combined(rows, user, discord) == []
  {
  }

  /** `get` finds nothing exactly when no row is keyed by either owner key. */
  lemma CombinedEmpty(rows: seq<Row>, user: Option<string>, discord: Option<string>)
    ensures Combined(rows, user, discord) == [] <==> forall r :: r in rows ==> !OwnedBy(r, user, discord)
  {
    CombinedMembers(rows, user, discord);
    if Combined(rows, user, discord) != [] {
      assert Combined(rows, user, discord)[0] in Combined(rows, user, discord);
    }
  }

  /** A row keyed by `id` as both user and discord id is listed twice when the
      same key is passed for both. */
  lemma ListedTwice(rows: seq<Row>, id: string, r: Row)
    requires r in rows && r.userId == Some(id) && r.discordId == Some(id)
    ensures multiset(Combined(rows, Some(id), Some(id)))[ToAccount(r)] >= 2
  {
    var byUser, byDiscord := GetByUser(rows, id), GetByDiscord(rows, id);
    assert ToAccount(r) in byUser && ToAccount(r) in byDiscord;
    assert multiset(byUser + byDiscord) == multiset(byUser) + multiset(byDiscord);
  }

  /** Selection distributes over concatenation: it keeps table order. */
  lemma {:induction false} SelectConcat(a: seq<Row>, b: seq<Row>, w: Where)
    ensures Select(a + b, w) == Select(a, w) + Select(b, w)
  {
    if a == [] {
      assert a + b == b;
    } else {
      assert (a + b)[1..] == a[1..] + b;
      SelectConcat(a[1..], b, w);
    }
  }

  /** A clause and its negation split the table. This is two-valued logic: it
      matches SQL only on a non-null column, and the store negates only the
      test on `minecraft_uuid`, which is never null. */
  lemma {:induction false} SelectPartition(rows: seq<Row>, w: Where)
    ensures |Select(rows, w)| + |Select(rows, Not(w))| == |rows|
  {
    if rows != [] {
      SelectPartition(rows[1..], w);
    }
  }

  /** Positions where two tables agree on uuids have the same first row per uuid. */
  lemma {:induction false} FirstBySameUuids(a: seq<Row>, b: seq<Row>, uuid: string)
    requires |a| == |b|
    requires forall i :: 0 <= i < |a| ==> a[i].minecraftUuid == b[i].minecraftUuid
    ensures First(a, UuidIs(uuid)) == First(b, UuidIs(uuid))
  {
    if a != [] {
      FirstBySameUuids(a[1..], b[1..], uuid);
    }
  }

  /** `add_account` reads back what it stored: the inserted row converts to the
      very account that was given. */
  lemma AccountRoundTrip(userId: Option<string>, discordId: Option<string>, account: Account)
    ensures ToAccount(NewRow(userId, discordId, account)) == account
    ensures NewRow(userId, discordId, account).userId == userId
    ensures NewRow(userId, discordId, account).discordId == discordId
  {
  }

  /** A legacy row with a null first name reads as "Deprecated"; a row with a
      first name reads as that name. */
  lemma FirstNameDefault(r: Row)
    ensures r.firstName.None? ==> ToAccount(r).deprecatedFirstName == DeprecatedFirstName
    ensures r.firstName.Some? ==> ToAccount(r).deprecatedFirstName == r.firstName.value
  {
  }

  /** Inserting an owned account whose uuid is new makes it exist, and a read by
      uuid returns it unchanged. */
  lemma AddedAccountIsFound(rows: seq<Row>, userId: Option<string>, discordId: Option<string>, account: Account)
    requires forall r :: r in rows ==> r.minecraftUuid != account.minecraftUuid
    requires userId.Some? || discordId.Some?
    ensures UuidExists(rows + [NewRow(userId, discordId, account)], account.minecraftUuid)
    ensures GetByMinecraft(rows + [NewRow(userId, discordId, account)], account.minecraftUuid) == Some(account)
  {
    var table := rows + [NewRow(userId, discordId, account)];
    forall j | 0 <= j < |rows| ensures !Matches(UuidIs(account.minecraftUuid), table[j]) {
      assert table[j] == rows[j] && rows[j] in rows;
    }
    assert IsFirst(table, UuidIs(account.minecraftUuid), |rows|);
  }

  /** An account inserted with neither owner key is invisible to `uuid_exists`. */
  lemma OwnerlessAccountIsAbsent(rows: seq<Row>, account: Account)
    requires forall r :: r in rows ==> r.minecraftUuid != account.minecraftUuid
    ensures NewRow(None, None, account) in rows + [NewRow(None, None, account)]
    ensures !UuidExists(rows + [NewRow(None, None, account)], account.minecraftUuid)
  {
    var table := rows + [NewRow(None, None, account)];
    forall j | 0 <= j < |rows| ensures !Matches(UuidIs(account.minecraftUuid), table[j]) {
      assert table[j] == rows[j] && rows[j] in rows;
    }
    assert IsFirst(table, UuidIs(account.minecraftUuid), |rows|);
    FirstIsUnique(table, UuidIs(account.minecraftUuid), |rows|);
  }

  /** `uuid_exists` is false when the first row with the uuid has no owner key. */
  lemma OwnerlessFirstRowIsAbsent(rows: seq<Row>, uuid: string, i: int)
    requires IsFirst(rows, UuidIs(uuid), i) && rows[i].userId.None? && rows[i].discordId.None?
    ensures !UuidExists(rows, uuid)
  {
    assert UuidOwner(rows, uuid) == (None, None);
  }

  /** Appending a row the clause matches adds exactly one to its selection, at
      the end; when the table already holds a matching row `r`, the selection
      then has at least two rows. */
  lemma AppendedMatchIsSelected(rows: seq<Row>, row: Row, w: Where, r: Row)
    requires Matches(w, row)
    ensures Select(rows + [row], w) == Select(rows, w) + [row]
    ensures |Select(rows + [row], w)| == |Select(rows, w)| + 1
    ensures r in rows && Matches(w, r) ==> |Select(rows + [row], w)| >= 2
  {
    SelectConcat(rows, [row], w);
    assert Select([row], w) == [row];
    if r in rows && Matches(w, r) {
      assert r in Select(rows, w);
    }
  }

  /** After `delete_account(uuid)` no row with that uuid is left, and every other
      row is kept as many times as before (flags such as is_main included). */
  lemma DeletedIsGone(rows: seq<Row>, uuid: string)
    ensures forall r :: r in Select(rows, Not(UuidIs(uuid))) ==> r.minecraftUuid != uuid
    ensures forall r: Row :: r.minecraftUuid != uuid ==> multiset(Select(rows, Not(UuidIs(uuid))))[r] == multiset(rows)[r]
    ensures GetByMinecraft(Select(rows, Not(UuidIs(uuid))), uuid).None?
    ensures !UuidExists(Select(rows, Not(UuidIs(uuid))), uuid)
  {
    var kept := Select(rows, Not(UuidIs(uuid)));
    forall r | r in kept ensures r.minecraftUuid != uuid {
      assert Matches(Not(UuidIs(uuid)), r);
      assert !Matches(UuidIs(uuid), r);
    }
    forall r: Row | r.minecraftUuid != uuid ensures multiset(kept)[r] == multiset(rows)[r] {
      assert !Matches(UuidIs(uuid), r);
      assert Matches(Not(UuidIs(uuid)), r);
    }
  }

  /** One `for account in ... { re.push(account) }` loop of `get`. */
  method PushAll(re: seq<Account>, accounts: seq<Account>) returns (pushed: seq<Account>)
    ensures pushed == re + accounts
  {
    pushed := re;
    for i := 0 to |accounts|
      invariant pushed == re + accounts[..i]
    {
      assert accounts[..i + 1] == accounts[..i] + [accounts[i]];
      pushed := pushed + [accounts[i]];
    }
    assert accounts[..|accounts|] == accounts;
  }

  /** The persistent table behind a `Store` handle. */
  class Store {
    var rows: seq<Row>

    constructor (rows: seq<Row>)
      ensures this.rows == rows
    {
      this.rows := rows;
    }

    /** `add_account`: inserts one row and returns it as an account. */
    method AddAccount(userId: Option<string>, discordId: Option<string>, account: Account, fails: bool)
      returns (r: Result<Account>)
      modifies this
      ensures fails ==> r == Err && rows == old(rows)
      ensures !fails ==> rows == old(rows) + [NewRow(userId, discordId, account)]
      ensures !fails ==> r == Ok(account)
    {
      if fails {
        return Err;
      }
      var row := NewRow(userId, discordId, account);
      rows := rows + [row];
      r := Ok(ToAccount(row));
    }

    /** `update_account`: renames every row with the account's uuid and sets its
        is_main; fails when no row has that uuid. */
    method UpdateAccount(account: Account, fails: bool) returns (r: Result<Account>)
      modifies this
      ensures fails || First(old(rows), UuidIs(account.minecraftUuid)).None? ==> r == Err && rows == old(rows)
      ensures !fails ==> |rows| == |old(rows)|
      ensures !fails ==> forall i :: 0 <= i < |rows| ==>
        && rows[i].userId == old(rows)[i].userId
        && rows[i].discordId == old(rows)[i].discordId
        && rows[i].firstName == old(rows)[i].firstName
        && rows[i].minecraftUuid == old(rows)[i].minecraftUuid
        && (rows[i].minecraftUuid == account.minecraftUuid ==>
              rows[i].minecraftUsername == account.minecraftUsername && rows[i].isMain == account.isMain)
        && (rows[i].minecraftUuid != account.minecraftUuid ==> rows[i] == old(rows)[i])
      ensures !fails && First(old(rows), UuidIs(account.minecraftUuid)).Some? ==>
        r == Ok(account.(deprecatedFirstName :=
          ToAccount(old(rows)[First(old(rows), UuidIs(account.minecraftUuid)).value]).deprecatedFirstName))
    {
      if fails {
        return Err;
      }
      var before := rows;
      rows := Updated(rows, account);
      FirstBySameUuids(before, rows, account.minecraftUuid);
      match First(rows, UuidIs(account.minecraftUuid)) {
        case None =>
          forall i | 0 <= i < |before| ensures rows[i] == before[i] {
            assert before[i] in before;
          }
          assert rows == before;
          r := Err;
        case Some(i) =>
          r := Ok(ToAccount(rows[i]));
      }
    }

    /** `delete_account`: removes every row with that uuid; reports whether
        exactly one row was affected. */
    method DeleteAccount(uuid: string, fails: bool) returns (r: Result<bool>)
      modifies this
      ensures fails ==> r == Err && rows == old(rows)
      ensures !fails ==> rows == Select(old(rows), Not(UuidIs(uuid)))
      ensures !fails ==> r == Ok(|Select(old(rows), UuidIs(uuid))| == 1)
    {
      if fails {
        return Err;
      }
      var kept := Select(rows, Not(UuidIs(uuid)));
      var rowsAffected := |rows| - |kept|;
      SelectPartition(rows, UuidIs(uuid));
      rows := kept;
      r := Ok(rowsAffected == 1);
    }

    /** `get`: pushes the user-keyed accounts, then the discord-keyed ones. */
    method Get(user: Option<string>, discord: Option<string>) returns (re: seq<Account>)
      ensures re == Combined(rows, user, discord)
    {
      re := [];
      if user.Some? {
        re := PushAll(re, GetByUser(rows, user.value));
      }
      if discord.Some? {
        re := PushAll(re, GetByDiscord(rows, discord.value));
      }
    }
  }
}

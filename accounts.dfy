/** The `user` table shared by the web app, the bot and the admin script:
    one record per login of the web app, holding the ASVZ credentials the
    bot enrols with and the state of the link to a Telegram chat. */
module Accounts {
  import opened Wrappers

  /** A row of the `user` table. `verified` is an integer column: -1 when
      the ASVZ login has not been verified, 1 when it has been, and 0 (the
      `False` the admin script writes) for a fresh account. */
  datatype User = User(
    username: string,
    password: string,
    asvzUsername: string,
    asvzPassword: string,
    asvzOrganisation: string,
    authenticated: bool,
    linked: bool,
    verified: int,
    chatId: int,
    accessToken: string,
    telegramUsername: string)

  /** A `where` condition of the queries the core runs. */
  datatype Column = UsernameIs(name: string) | TokenIs(token: string) | ChatIs(chat: int)

  predicate Matches(u: User, c: Column) {
    match c
    case UsernameIs(name) => u.username == name
    case TokenIs(token) => u.accessToken == token
    case ChatIs(chat) => u.chatId == chat
  }

  /** `db.session.execute(db.select(User).where(...)).scalar()` (and
      `query(User).filter(...).first()`): the first matching row in table
      order, or `None`. */
  function First(rows: seq<User>, c: Column): (r: Option<nat>)
    ensures r.Some? ==> r.value < |rows| && Matches(rows[r.value], c)
    ensures r.Some? ==> forall k :: 0 <= k < r.value ==> !Matches(rows[k], c)
    ensures r.None? <==> forall k :: 0 <= k < |rows| ==> !Matches(rows[k], c)
    decreases |rows|
  {
    if rows == [] then None
    else if Matches(rows[0], c) then Some(0)
    else
      var r := First(rows[1..], c);
      assert forall k :: 1 <= k < |rows| ==> rows[k] == rows[1..][k - 1];
      if r.None? then None else Some(r.value + 1)
  }

  /** `username` is the table's primary key. */
  predicate UniqueNames(rows: seq<User>) {
    forall i, j :: 0 <= i < j < |rows| ==> rows[i].username != rows[j].username
  }

  /** The linking state every transition of the core keeps: a linked
      record is verified, an unlinked one is attached to no chat, and
      `verified` is one of its three values. */
  predicate Consistent(u: User) {
    && (u.linked ==> u.verified == 1)
    && (!u.linked ==> u.chatId == 0 && u.telegramUsername == "")
    && -1 <= u.verified <= 1
  }

  predicate AllConsistent(rows: seq<User>) {
    forall i :: 0 <= i < |rows| ==> Consistent(rows[i])
  }

  /** The usernames of the rows, in table order. */
  function Usernames(rows: seq<User>): (names: seq<string>)
    ensures |names| == |rows|
    ensures forall i :: 0 <= i < |rows| ==> names[i] == rows[i].username
  {
    if rows == [] then [] else [rows[0].username] + Usernames(rows[1..])
  }

  /** The rows without the one at `i`. */
  function Without(rows: seq<User>, i: nat): (r: seq<User>)
    requires i < |rows|
    ensures |r| == |rows| - 1
    ensures forall k :: 0 <= k < i ==> r[k] == rows[k]
    ensures forall k :: i <= k < |r| ==> r[k] == rows[k + 1]
  {
    rows[..i] + rows[i + 1..]
  }

  /** With unique usernames, the first row with a name is its only row:
      removing it leaves no row with that name. */
  lemma WithoutName(rows: seq<User>, name: string)
    requires UniqueNames(rows)
    requires First(rows, UsernameIs(name)).Some?
    ensures First(Without(rows, First(rows, UsernameIs(name)).value), UsernameIs(name)).None?
    ensures UniqueNames(Without(rows, First(rows, UsernameIs(name)).value))
  {
  }

  /** When every record is consistent, a row
      found by a real (non-zero) chat id is linked and verified. */
  lemma ChatOwnerIsVerified(rows: seq<User>, chat: int)
    requires AllConsistent(rows) && chat != 0
    requires First(rows, ChatIs(chat)).Some?
    ensures rows[First(rows, ChatIs(chat)).value].linked
    ensures rows[First(rows, ChatIs(chat)).value].verified == 1
  {
  }

  /** The table, updated in place by the web app, the bot and the admin
      script. */
  class UserTable {
    var rows: seq<User>

    ghost predicate Valid()
      reads this
    {
      UniqueNames(rows) && AllConsistent(rows)
    }

    constructor (initial: seq<User>)
      requires UniqueNames(initial) && AllConsistent(initial)
      ensures Valid() && rows == initial
    {
      rows := initial;
    }

    /** Commit a changed row. The row keeps its primary key. */
    method Update(i: nat, u: User)
      requires Valid() && i < |rows|
      requires u.username == rows[i].username && Consistent(u)
      modifies this
      ensures Valid()
      ensures rows == old(rows)[i := u]
    {
      rows := rows[i := u];
    }

    /** `db.session.delete(user)` and commit. */
    method Delete(i: nat)
      requires Valid() && i < |rows|
      modifies this
      ensures Valid()
      ensures rows == Without(old(rows), i)
    {
      rows := Without(rows, i);
    }

    /** `db.session.add(user)` and commit: a new row goes last. Its name
        must be new, since `username` is the primary key. */
    method Add(u: User)
      requires Valid() && Consistent(u)
      requires First(rows, UsernameIs(u.username)).None?
      modifies this
      ensures Valid()
      ensures rows == old(rows) + [u]
    {
      rows := rows + [u];
    }
  }
}

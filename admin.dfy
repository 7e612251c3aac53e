/** The account script `admin.py`: list the users, or create, reset or
    delete the account of one username, exiting early with status 1 on a
    wrong request. */
module Admin {
  import opened Wrappers
  import opened Accounts

  /** The parsed command line: `-u` (absent is `None`), `-r`, `-d`, `-l`. */
  datatype Args = Args(username: Option<string>, reset: bool, delete: bool, list: bool)

  /** `not args.username`: absent or empty. */
  predicate NoUsername(a: Args) {
    a.username.None? || a.username.value == ""
  }

  const NoUsernameText := "You need to specify a username!"
  const UsersHeading := "Users:"

  function AbsentText(name: string): string {
    "User '" + name + "' does not exist!"
  }

  function ExistsText(name: string): string {
    "User '" + name + "' already exists! Add -r/--reset to reset the user."
  }

  function CreatedText(name: string, password: string): string {
    "User '" + name + "' created with password: \n" + password
  }

  /** The record the script adds: ASVZ fields empty, not authenticated,
      not linked, `verified = False` (stored as 0), `chat_id = 0`, the
      column default `""` for the Telegram name, and the given password
      hash and access token. */
  function NewAccount(name: string, passwordHash: string, token: string): (u: User)
    ensures u.username == name && u.password == passwordHash && u.accessToken == token
    ensures u.asvzUsername == "" && u.asvzPassword == "" && u.asvzOrganisation == ""
    ensures !u.authenticated && !u.linked && u.verified == 0 && u.chatId == 0 && u.telegramUsername == ""
    ensures Consistent(u)
  {
    User(name, passwordHash, "", "", "", false, false, 0, 0, token, "")
  }

  /** Adding the new account after all rows with its name are gone keeps
      the table's invariant, and the new account is then the only row with
      that name. */
  lemma AddFresh(rows: seq<User>, u: User)
    requires UniqueNames(rows) && AllConsistent(rows) && Consistent(u)
    requires First(rows, UsernameIs(u.username)).None?
    ensures UniqueNames(rows + [u]) && AllConsistent(rows + [u])
    ensures First(rows + [u], UsernameIs(u.username)) == Some(|rows|)
  {
    var rows' := rows + [u];
    assert forall k :: 0 <= k < |rows| ==> rows'[k] == rows[k];
    assert Matches(rows'[|rows|], UsernameIs(u.username));
  }

  /** The script's run over the table. `hash` stands for `sha256_crypt.hash`,
      `password` and `token` for the two values `secrets.token_urlsafe(16)`
      gives; `out` holds what it prints, one entry per `print`. */
  method Run(table: UserTable, a: Args, hash: string -> string, password: string, token: string)
    returns (code: int, out: seq<string>)
    requires table.Valid()
    modifies table
    ensures table.Valid()
    // Without a username only a listing is possible.
    ensures NoUsername(a) && !a.list ==> code == 1 && out == [NoUsernameText] && table.rows == old(table.rows)
    // A listing wins over every other flag.
    ensures a.list ==> code == 0 && out == [UsersHeading] + Usernames(old(table.rows)) && table.rows == old(table.rows)
    ensures !NoUsername(a) && !a.list ==>
              var name := a.username.value;
              var k := First(old(table.rows), UsernameIs(name));
              && ((a.reset || a.delete) && k.None? ==>
                    code == 1 && table.rows == old(table.rows)
                    && out == [if a.delete then "Deleting user" else "Resetting user", AbsentText(name)])
              && (a.delete && k.Some? ==>
                    code == 0 && table.rows == Without(old(table.rows), k.value)
                    && out == ["Deleting user", "User deleted"])
              && (!a.reset && !a.delete && k.Some? ==>
                    code == 1 && table.rows == old(table.rows) && out == [ExistsText(name)])
              && (a.reset && !a.delete && k.Some? ==>
                    code == 0 && table.rows == Without(old(table.rows), k.value) + [NewAccount(name, hash(password), token)]
                    && out == ["Resetting user", CreatedText(name, password)])
              && (!a.reset && !a.delete && k.None? ==>
                    code == 0 && table.rows == old(table.rows) + [NewAccount(name, hash(password), token)]
                    && out == [CreatedText(name, password)])
  {
    out := [];
    if NoUsername(a) && !a.list {
      return 1, [NoUsernameText];
    }
    if a.list {
      return 0, [UsersHeading] + Usernames(table.rows);
    }
    var name := a.username.value;
    if a.reset || a.delete {
      out := out + [if a.delete then "Deleting user" else "Resetting user"];
      var k := First(table.rows, UsernameIs(name));
      if k.Some? {
        WithoutName(table.rows, name);
        table.Delete(k.value);
      } else {
        out := out + [AbsentText(name)];
        return 1, out;
      }
      if a.delete {
        out := out + ["User deleted"];
        return 0, out;
      }
    } else {
      var k := First(table.rows, UsernameIs(name));
      if k.Some? {
        out := out + [ExistsText(name)];
        return 1, out;
      }
    }
    var u := NewAccount(name, hash(password), token);
    AddFresh(table.rows, u);
    table.Add(u);
    out := out + [CreatedText(name, password)];
    return 0, out;
  }

  /** After a create or a reset the table holds exactly one record for the
      name, the new account, and every other user's record unchanged and
      in order. */
  lemma ResetLeavesOneRecord(rows: seq<User>, name: string, u: User)
    requires UniqueNames(rows) && AllConsistent(rows) && Consistent(u) && u.username == name
    requires First(rows, UsernameIs(name)).Some?
    ensures var k := First(rows, UsernameIs(name)).value;
            var rows' := Without(rows, k) + [u];
            && UniqueNames(rows')
            && First(rows', UsernameIs(name)) == Some(|rows'| - 1)
            && (forall v :: v in rows && v.username != name ==> v in rows')
            && (forall v :: v in rows' ==> v == u || (v in rows && v.username != name))
  {
    var k := First(rows, UsernameIs(name)).value;
    WithoutName(rows, name);
    var rest := Without(rows, k);
    assert AllConsistent(rest);
    AddFresh(rest, u);
    forall v | v in rows && v.username != name ensures v in rest {
      var i :| 0 <= i < |rows| && rows[i] == v;
      if i < k { assert rest[i] == v; } else { assert i != k; assert rest[i - 1] == v; }
    }
    forall v | v in rest ensures v in rows && v.username != name {
      var i :| 0 <= i < |rest| && rest[i] == v;
      if i < k { assert v == rows[i]; } else { assert v == rows[i + 1]; }
      assert !Matches(v, UsernameIs(name)) by {
        assert First(rest, UsernameIs(name)).None?;
      }
    }
  }
}

/** The two routes of the Flask web app in `src/app.py` that touch a
    user record: `credentials`, which stores new ASVZ credentials and
    resets the Telegram link, and `welcome`, which shows the record. */
module App {
  import opened Wrappers
  import opened Text
  import opened Accounts
  import opened Enroller

  /** The posted `ASVZCredentialsForm`; a field missing from the request
      is `None`. */
  datatype CredentialsForm = CredentialsForm(username: Option<string>, password: Option<string>, organisation: Option<string>)

  /** WTForms' `DataRequired`: present and not only whitespace. */
  predicate DataRequired(field: Option<string>) {
    field.Some? && Strip(field.value) != ""
  }

  /** `form.validate()`: both text fields filled in and the organisation
      one of the choices `ORGANISATIONS.keys()`. */
  predicate FormValid(f: CredentialsForm) {
    && DataRequired(f.username)
    && DataRequired(f.password)
    && DataRequired(f.organisation)
    && f.organisation.value in Organisations
  }

  /** A field satisfies `DataRequired` exactly when it holds a character
      that is not white space. */
  lemma DataRequiredMeans(field: Option<string>)
    ensures DataRequired(field) <==> field.Some? && exists i :: 0 <= i < |field.value| && !IsSpace(field.value[i])
  {
    if field.Some? {
      var s := field.value;
      if exists i :: 0 <= i < |s| && !IsSpace(s[i]) {
        var i :| 0 <= i < |s| && !IsSpace(s[i]);
        assert StripStart(s) <= i;
        assert i < StripEnd(s);
      } else {
        assert StripStart(s) == |s|;
      }
    }
  }

  /** `login_required` with the `user_loader`: the signed-in user, found
      by the name stored in the session. */
  function CurrentUser(rows: seq<User>, session: Option<string>): (r: Option<nat>)
    ensures r.Some? ==> session.Some? && r.value < |rows| && rows[r.value].username == session.value
    ensures session.Some? && (exists k :: 0 <= k < |rows| && rows[k].username == session.value) ==> r.Some?
  {
    if session.None? then None else First(rows, UsernameIs(session.value))
  }

  /** The record after a valid submission: the form's ASVZ login with the
      encrypted password, a new access token, and no Telegram link. */
  function WithCredentials(u: User, f: CredentialsForm, encrypted: string, token: string): (v: User)
    requires FormValid(f)
    ensures v.asvzUsername == f.username.value && v.asvzOrganisation == f.organisation.value
    ensures v.asvzPassword == encrypted && v.accessToken == token
    ensures v.telegramUsername == "" && !v.linked && v.chatId == 0 && v.verified == -1
    ensures v.username == u.username && v.password == u.password && v.authenticated == u.authenticated
    ensures Consistent(v)
  {
    u.(asvzUsername := f.username.value, asvzPassword := encrypted, asvzOrganisation := f.organisation.value,
       accessToken := token, telegramUsername := "", linked := false, chatId := 0, verified := -1)
  }

  datatype CredentialsReply =
    | LoginRequired    // `login_required` turns the request away
    | FormRejected     // the welcome page is shown again with the form's errors
    | Saved            // redirect to `/welcome`

  /** `credentials`. `encrypt` stands for Fernet encryption with the app
      secret and `token` for the value `secrets.token_urlsafe(16)` gives. */
  method Credentials(table: UserTable, session: Option<string>, f: CredentialsForm,
                     encrypt: string -> string, token: string)
    returns (reply: CredentialsReply)
    requires table.Valid()
    modifies table
    ensures table.Valid()
    ensures reply == LoginRequired <==> CurrentUser(old(table.rows), session).None?
    ensures reply == FormRejected <==> CurrentUser(old(table.rows), session).Some? && !FormValid(f)
    ensures reply != Saved ==> table.rows == old(table.rows)
    ensures reply == Saved ==>
              var k := CurrentUser(old(table.rows), session).value;
              && FormValid(f)
              && table.rows == old(table.rows)[k := WithCredentials(old(table.rows)[k], f, encrypt(f.password.value), token)]
  {
    var k := CurrentUser(table.rows, session);
    if k.None? {
      return LoginRequired;
    }
    if !FormValid(f) {
      return FormRejected;
    }
    var v := WithCredentials(table.rows[k.value], f, encrypt(f.password.value), token);
    table.Update(k.value, v);
    return Saved;
  }

  /** What `welcome` fills the two forms with: the stored ASVZ login (the
      password only as a placeholder), the access token and the linked
      Telegram account. */
  datatype WelcomeView = WelcomeView(asvzUsername: string, organisation: string, password: Option<string>,
                                     accessToken: string, telegramAccount: string)

  const Placeholder := "placeholder"
  const NotLinkedText := "Not yet linked!"

  function ViewOf(u: User): (v: WelcomeView)
    ensures v.password.Some? <==> u.asvzPassword != ""
    ensures v.password.Some? ==> v.password.value == Placeholder
    ensures v.telegramAccount == (if u.telegramUsername == "" then NotLinkedText else u.telegramUsername)
    ensures v.asvzUsername == u.asvzUsername && v.organisation == u.asvzOrganisation && v.accessToken == u.accessToken
  {
    WelcomeView(u.asvzUsername, u.asvzOrganisation, if u.asvzPassword != "" then Some(Placeholder) else None,
                u.accessToken, if u.telegramUsername == "" then NotLinkedText else u.telegramUsername)
  }

  /** `welcome`: the view of the signed-in user, read again from the
      table; `None` where `login_required` turns the request away. */
  function Welcome(rows: seq<User>, session: Option<string>): (r: Option<WelcomeView>)
    ensures r.Some? <==> CurrentUser(rows, session).Some?
    ensures r.Some? ==> r.value == ViewOf(rows[CurrentUser(rows, session).value])
  {
    match CurrentUser(rows, session)
    case None => None
    case Some(k) => Some(ViewOf(rows[k]))
  }

  /** After a valid submission the welcome page shows the new token, the
      placeholder exactly when the encrypted password is not empty, and
      that no Telegram account is linked. */
  lemma WelcomeAfterCredentials(rows: seq<User>, session: Option<string>, f: CredentialsForm, encrypted: string, token: string)
    requires CurrentUser(rows, session).Some? && FormValid(f)
    ensures var k := CurrentUser(rows, session).value;
            var rows' := rows[k := WithCredentials(rows[k], f, encrypted, token)];
            var view := Welcome(rows', session);
            && view.Some?
            && view.value.accessToken == token
            && view.value.telegramAccount == NotLinkedText
            && (view.value.password.Some? <==> encrypted != "")
            && view.value.asvzUsername == f.username.value
  {
    var k := CurrentUser(rows, session).value;
    var rows' := rows[k := WithCredentials(rows[k], f, encrypted, token)];
    assert rows'[k].username == rows[k].username;
    assert forall i :: 0 <= i < k ==> rows'[i] == rows[i];
    assert First(rows', UsernameIs(session.value)) == Some(k) by {
      assert Matches(rows'[k], UsernameIs(session.value));
      assert forall i :: 0 <= i < k ==> !Matches(rows'[i], UsernameIs(session.value));
    }
  }

  /** Changing the credentials unlinks the account: afterwards the new
      token (when no other row holds it) finds a record that is not
      linked, which is what the bot needs to start verifying it. */
  lemma CredentialsReopenLinking(rows: seq<User>, k: nat, f: CredentialsForm, encrypted: string, token: string)
    requires k < |rows| && FormValid(f)
    requires forall i :: 0 <= i < |rows| && i != k ==> rows[i].accessToken != token
    ensures var rows' := rows[k := WithCredentials(rows[k], f, encrypted, token)];
            && First(rows', TokenIs(token)) == Some(k)
            && !rows'[k].linked
  {
    var rows' := rows[k := WithCredentials(rows[k], f, encrypted, token)];
    assert Matches(rows'[k], TokenIs(token));
    assert forall i :: 0 <= i < k ==> !Matches(rows'[i], TokenIs(token));
  }
}

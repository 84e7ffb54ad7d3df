/**
 * The API-key part of the settings page (settings.py): the signed-in user's
 * stored key is read, with `""` standing for "none", and when the save
 * button is pressed the entered key is written into the user's record and
 * the store is saved.
 */
module Settings {
  import opened Wrappers
  import opened UserStore

  const ApiKeyField: string := "api_key"

  /** The `KeyError` raised when the loaded dictionary has no `"usernames"` key. */
  datatype Error = NoUsernames

  /** The stored key of a user; `""` when the user is unknown or has no key. */
  function StoredApiKey(accounts: Accounts, username: string): (key: string)
    ensures username in accounts && ApiKeyField in accounts[username] ==> key == accounts[username][ApiKeyField]
    ensures username !in accounts || ApiKeyField !in accounts[username] ==> key == ""
  {
    var record := if username in accounts then accounts[username] else map[];
    if ApiKeyField in record then record[ApiKeyField] else ""
  }

  /**
   * The mapping after saving `key` for `username`: an unknown user gets a
   * record holding only the key; a known user's record gets the key and
   * keeps every other field; every other user keeps its record.  Reading the
   * key back gives exactly what was saved.
   */
  function WithApiKey(accounts: Accounts, username: string, key: string): (r: Accounts)
    ensures r.Keys == accounts.Keys + {username}
    ensures StoredApiKey(r, username) == key
    ensures username !in accounts ==> r[username].Keys == {ApiKeyField}
    ensures username in accounts ==> r[username].Keys == accounts[username].Keys + {ApiKeyField}
    ensures username in accounts ==>
      forall f :: f in accounts[username] && f != ApiKeyField ==> r[username][f] == accounts[username][f]
    ensures forall u :: u in accounts && u != username ==> r[u] == accounts[u]
  {
    var record := if username in accounts then accounts[username] else map[];
    accounts[username := record[ApiKeyField := key]]
  }

  /** Saving twice for the same user is the same as saving the second key once. */
  lemma LastSaveWins(accounts: Accounts, username: string, first: string, second: string)
    ensures WithApiKey(WithApiKey(accounts, username, first), username, second) == WithApiKey(accounts, username, second)
  {
    var once := WithApiKey(accounts, username, second);
    var twice := WithApiKey(WithApiKey(accounts, username, first), username, second);
    assert twice[username] == once[username];
    assert forall u :: u in twice ==> twice[u] == once[u];
  }

  /** Saving the key a user already has changes nothing. */
  lemma SaveSameKey(accounts: Accounts, username: string)
    requires username in accounts && ApiKeyField in accounts[username]
    ensures WithApiKey(accounts, username, StoredApiKey(accounts, username)) == accounts
  {
    var r := WithApiKey(accounts, username, StoredApiKey(accounts, username));
    assert r[username] == accounts[username];
    assert forall u :: u in r ==> r[u] == accounts[u];
  }

  /**
   * `api_key_settings` for `username`: the key shown in the input is the
   * stored one; `entered` is what the input holds when the page runs and
   * `savePressed` whether the save button was pressed.  Only a save changes
   * and writes the store, exactly once.
   */
  method ApiKeySettings(file: UsersFile, username: string, entered: string, savePressed: bool)
    returns (shown: Result<string, Error>)
    modifies file
    ensures old(file.Load()).usernames.None? ==> shown == Err(NoUsernames)
    ensures old(file.Load()).usernames.Some? ==> shown == Ok(StoredApiKey(old(file.Load()).usernames.value, username))
    ensures (old(file.Load()).usernames.None? || !savePressed) ==>
      file.stored == old(file.stored) && file.saves == old(file.saves)
    ensures old(file.Load()).usernames.Some? && savePressed ==>
      var after := Users(Some(WithApiKey(old(file.Load()).usernames.value, username, entered)));
      file.stored == Some(after) && file.saves == old(file.saves) + [after]
  {
    var users := file.Load();
    if users.usernames.None? {
      return Err(NoUsernames);
    }
    shown := Ok(StoredApiKey(users.usernames.value, username));
    if savePressed {
      var accounts := users.usernames.value;
      if username !in accounts {
        accounts := accounts[username := map[]];
      }
      accounts := accounts[username := accounts[username][ApiKeyField := entered]];
      assert accounts == WithApiKey(users.usernames.value, username, entered);
      users := users.(usernames := Some(accounts));
      file.Save(users);
    }
  }
}

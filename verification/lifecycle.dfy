/**
 * How registration (create_users.py) and the API-key settings (settings.py)
 * act together on one store.
 */
module StoreLifecycle {
  import opened Wrappers
  import opened UserStore
  import opened CreateUsers
  import opened Settings

  /** A user who has just registered has no API key yet: reading it gives `""`. */
  lemma NewUserHasNoKey(accounts: Accounts, username: string, name: string, hashed: string)
    requires Register(accounts, username, name, hashed).Ok?
    ensures StoredApiKey(Register(accounts, username, name, hashed).value, username) == ""
  {
  }

  /** Saving a key for a registered user keeps their name and password hash. */
  lemma SaveKeepsCredentials(accounts: Accounts, username: string, name: string, hashed: string, key: string)
    requires Register(accounts, username, name, hashed).Ok?
    ensures var saved := WithApiKey(Register(accounts, username, name, hashed).value, username, key);
      saved[username].Keys == {"name", "password", ApiKeyField} &&
      saved[username]["name"] == name && saved[username]["password"] == hashed &&
      StoredApiKey(saved, username) == key
  {
  }

  /**
   * Saving a key for a username nobody registered creates a record for it,
   * so that username can no longer be registered.
   */
  lemma SavedKeyBlocksRegistration(accounts: Accounts, username: string, key: string, name: string, hashed: string)
    ensures Register(WithApiKey(accounts, username, key), username, name, hashed) == Err(UserExists(username))
  {
  }

  /**
   * Registering "alice" on a fresh installation succeeds, registering her
   * again is refused, and the store still holds exactly one user whose
   * password field is the hasher's output.
   */
  method RegisterTwice(hash: string -> string)
    returns (first: Outcome<CreateUsers.Error>, second: Outcome<CreateUsers.Error>, stored: Accounts)
    ensures first == Pass && second == Fail(UserExists("alice"))
    ensures stored.Keys == {"alice"} && stored["alice"] == NewRecord("Alice", hash("pw1234"))
  {
    var file := new UsersFile(None);
    assert UsernamesOf(file.Load()) == map[];
    first := AddUser(file, hash, "alice", "Alice", "pw1234");
    var registered := Register(map[], "alice", "Alice", hash("pw1234"));
    assert registered.Ok? && registered.value.Keys == {"alice"};
    assert UsernamesOf(file.Load()) == registered.value;
    second := AddUser(file, hash, "alice", "Alice", "pw1234");
    stored := UsernamesOf(file.Load());
    assert stored == registered.value;
  }

  /**
   * A registered user opens the settings page and saves a key (the page
   * shows `""` beforehand), then opens it again: the saved key is shown, and
   * the record still holds the name and password hash.
   */
  method SaveThenRead(hash: string -> string)
    returns (before: Result<string, Settings.Error>, after: Result<string, Settings.Error>, record: Record)
    ensures before == Ok("") && after == Ok("sk-123")
    ensures record.Keys == {"name", "password", ApiKeyField}
    ensures record["name"] == "Alice" && record["password"] == hash("pw1234") && record[ApiKeyField] == "sk-123"
  {
    var file := new UsersFile(None);
    var registered := AddUser(file, hash, "alice", "Alice", "pw1234");
    before := ApiKeySettings(file, "alice", "sk-123", true);
    after := ApiKeySettings(file, "alice", "", false);
    record := UsernamesOf(file.Load())["alice"];
  }
}

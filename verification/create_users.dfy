/**
 * Registering a user (create_users.py): the new user's name and hashed
 * password are inserted under a username that must not be taken yet, and
 * the store is saved.
 */
module CreateUsers {
  import opened Wrappers
  import opened UserStore

  /** The `ValueError` raised for a username that is already registered. */
  datatype Error = UserExists(username: string)

  /** The record of a newly registered user: exactly a name and a password hash. */
  function NewRecord(name: string, hashed: string): (r: Record)
    ensures r.Keys == {"name", "password"}
    ensures r["name"] == name && r["password"] == hashed
  {
    map["name" := name, "password" := hashed]
  }

  /** The `"usernames"` mapping once a missing one has been created empty. */
  function UsernamesOf(users: Users): (accounts: Accounts)
    ensures users.usernames.Some? ==> accounts == users.usernames.value
    ensures users.usernames.None? ==> accounts == map[]
  {
    match users.usernames
    case Some(accounts) => accounts
    case None => map[]
  }

  /**
   * The registration rule on the `"usernames"` mapping: a taken username is
   * refused and nothing changes; otherwise exactly one user is added, with a
   * record holding only the name and the password hash, and every other
   * user keeps its record.
   */
  function Register(accounts: Accounts, username: string, name: string, hashed: string): (r: Result<Accounts, Error>)
    ensures r.Err? <==> username in accounts
    ensures r.Err? ==> r.error == UserExists(username)
    ensures r.Ok? ==> r.value.Keys == accounts.Keys + {username} && |r.value| == |accounts| + 1
    ensures r.Ok? ==> r.value[username].Keys == {"name", "password"}
    ensures r.Ok? ==> r.value[username]["name"] == name && r.value[username]["password"] == hashed
    ensures r.Ok? ==> forall u :: u in accounts ==> r.value[u] == accounts[u]
  {
    if username in accounts then Err(UserExists(username))
    else Ok(accounts[username := NewRecord(name, hashed)])
  }

  /**
   * `add_user`: load the store, create the `"usernames"` mapping if it is
   * missing, refuse a taken username before anything is written, otherwise
   * insert the new record with the hasher's output for the password and save
   * the store once.  The hasher is a parameter; it may be salted, so two
   * calls may be given different functions.
   */
  method AddUser(file: UsersFile, hash: string -> string, username: string, name: string, password: string)
    returns (outcome: Outcome<Error>)
    modifies file
    ensures var before := UsernamesOf(old(file.Load()));
      outcome.Fail? <==> username in before
    ensures outcome.Fail? ==> outcome.error == UserExists(username)
    ensures outcome.Fail? ==> file.stored == old(file.stored) && file.saves == old(file.saves)
    ensures outcome.Pass? ==>
      var after := Register(UsernamesOf(old(file.Load())), username, name, hash(password));
      after.Ok? && file.stored == Some(Users(Some(after.value))) &&
      file.saves == old(file.saves) + [Users(Some(after.value))]
  {
    var users := file.Load();
    if users.usernames.None? {
      users := users.(usernames := Some(map[]));
    }
    var accounts := users.usernames.value;
    if username in accounts {
      return Fail(UserExists(username));
    }
    var hashed := hash(password);
    users := users.(usernames := Some(accounts[username := NewRecord(name, hashed)]));
    file.Save(users);
    outcome := Pass;
  }
}

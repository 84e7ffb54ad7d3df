/**
 * The credential store shared by registration and the settings page: the
 * dictionary loaded from and saved to `users.yaml` (auth.py), reduced to its
 * `"usernames"` entry, which maps each username to a record of string fields.
 */
module UserStore {
  import opened Wrappers

  /** A user's record: field name (`"name"`, `"password"`, `"api_key"`, ...) to value. */
  type Record = map<string, string>

  /** The `"usernames"` mapping: username to record. */
  type Accounts = map<string, Record>

  /** The loaded dictionary; `usernames` is `None` when it has no `"usernames"` key. */
  datatype Users = Users(usernames: Option<Accounts>)

  /** What loading gives when there is no file: a dictionary with no users. */
  const NoUsers: Users := Users(Some(map[]))

  /** The `users.yaml` file. */
  class UsersFile {
    /** The document the file holds, or `None` while the file does not exist. */
    var stored: Option<Users>
    /** Every document written to the file, oldest first. */
    ghost var saves: seq<Users>

    constructor (initial: Option<Users>)
      ensures stored == initial && saves == []
    {
      stored := initial;
      saves := [];
    }

    /** `load_users`: the stored document, or the empty one when the file is missing. */
    function Load(): (users: Users)
      reads this
      ensures stored.None? ==> users == NoUsers
      ensures stored.Some? ==> users == stored.value
    {
      if stored.Some? then stored.value else NoUsers
    }

    /** `save_users`: the file is overwritten with the whole document. */
    method Save(users: Users)
      modifies this
      ensures stored == Some(users) && Load() == users
      ensures saves == old(saves) + [users]
    {
      stored := Some(users);
      saves := saves + [users];
    }
  }
}

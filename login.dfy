/**
 * Login.jsx: looking up a user in the "users" table, and `handleLogin`,
 * which logs an existing user in, rejects a wrong password, or registers a
 * new user, writing "users" and "currentUser" of local storage.
 */
module LoginPage {
  import opened Wrappers
  import opened Password
  import opened BrowserStorage

  const PasswordRuleError: string :=
    "Password must be at least 8 characters long, include at least 1 number, and 1 special character."
  const IncorrectPasswordError: string := "Incorrect password. Please try again."

  /** `users.find(user => user.username === username)`, as the position of the first match. */
  function FindUser(users: seq<User>, username: string): (r: Option<nat>)
    ensures r.Some? ==> r.value < |users| && users[r.value].username == username
    ensures r.Some? ==> forall j :: 0 <= j < r.value ==> users[j].username != username
    ensures r.None? ==> forall j :: 0 <= j < |users| ==> users[j].username != username
    decreases |users|
  {
    if users == [] then None
    else if users[0].username == username then Some(0)
    else match FindUser(users[1..], username)
      case None => None
      case Some(i) => Some(i + 1)
  }

  /** Registering a name the table does not hold keeps the names distinct. */
  lemma RegisterKeepsNamesDistinct(users: seq<User>, username: string, password: string)
    requires DistinctNames(users) && FindUser(users, username).None?
    ensures DistinctNames(users + [User(username, password)])
  {
  }

  /** In a table of distinct names, the user found is the only one with that name. */
  lemma FoundUserIsUnique(users: seq<User>, username: string, j: nat)
    requires DistinctNames(users) && FindUser(users, username).Some?
    requires j < |users| && users[j].username == username
    ensures j == FindUser(users, username).value
  {
  }

  class Login {
    /** The message shown under the form; "" shows none. */
    var error: string
    const store: Storage

    constructor (store: Storage)
      ensures this.store == store && error == ""
    {
      this.store := store;
      error := "";
    }

    /**
     * `handleLogin`. The login button is disabled while either field is
     * empty, so both are non-empty here.
     */
    method HandleLogin(username: string, password: string)
      requires username != "" && password != ""
      requires store.Valid()
      modifies this, store
      ensures store.Valid()
      ensures store.progress == old(store.progress)
      ensures !ValidatePassword(password) ==>
                && error == PasswordRuleError
                && store.users == old(store.users)
                && store.currentUser == old(store.currentUser)
      ensures ValidatePassword(password) && FindUser(old(store.users), username).Some? ==>
                var existing := old(store.users)[FindUser(old(store.users), username).value];
                && store.users == old(store.users)
                && (existing.password == password ==>
                      store.currentUser == Some(username) && error == old(error))
                && (existing.password != password ==>
                      store.currentUser == old(store.currentUser) && error == IncorrectPasswordError)
      ensures ValidatePassword(password) && FindUser(old(store.users), username).None? ==>
                && store.users == old(store.users) + [User(username, password)]
                && store.currentUser == Some(username)
                && error == old(error)
    {
      if !ValidatePassword(password) {
        error := PasswordRuleError;
        return;
      }
      var users := store.users;
      var existing := FindUser(users, username);
      if existing.Some? {
        if users[existing.value].password == password {
          store.currentUser := Some(username);
        } else {
          error := IncorrectPasswordError;
        }
      } else {
        RegisterKeepsNamesDistinct(users, username, password);
        users := users + [User(username, password)];
        store.users := users;
        store.currentUser := Some(username);
      }
    }
  }
}

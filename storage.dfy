/**
 * The browser's local storage as the three components use it: the "users"
 * table written by Login.jsx, the "currentUser" marker, and the
 * `quizProgress_<username>` entries written by Quiz.jsx. Values are kept
 * decoded (JSON encoding is the identity here).
 */
module BrowserStorage {
  import opened Wrappers
  import opened QuizSession

  datatype User = User(username: string, password: string)

  /** No two registered users share a username. */
  predicate DistinctNames(users: seq<User>) {
    forall i, j :: 0 <= i < j < |users| ==> users[i].username != users[j].username
  }

  class Storage {
    /** The "users" entry; an absent entry reads as the empty table. */
    var users: seq<User>
    /** The "currentUser" entry. */
    var currentUser: Option<string>
    /** The progress entries, keyed by their full key `quizProgress_<username>`. */
    var progress: map<string, Snapshot>

    ghost predicate Valid()
      reads this
    {
      DistinctNames(users) && ProgressValid(progress)
    }

    /** `localStorage.getItem("currentUser") || ""`. */
    function CurrentUsername(): (u: string)
      reads this
    {
      match currentUser
      case Some(name) => name
      case None => ""
    }

    /** An empty store, as on a browser that never ran the application. */
    constructor ()
      ensures Valid()
      ensures users == [] && currentUser == None && progress == map[]
    {
      users := [];
      currentUser := None;
      progress := map[];
    }
  }
}

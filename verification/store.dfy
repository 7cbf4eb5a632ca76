/** The two document collections the core works on, kept in memory: users
    and token records, each in insertion order, a record's index being its
    generated id. Nothing is ever deleted from either. */
module Store {
  import opened Users
  import opened Tokens

  class Database {
    var users: seq<User>
    var tokens: seq<Token>

    /** Usernames are unique and every token record belongs to a stored
        user. */
    ghost predicate Valid()
      reads this
    {
      && UniqueUsernames(users)
      && forall i :: 0 <= i < |tokens| ==> tokens[i].user < |users|
    }

    constructor ()
      ensures users == [] && tokens == []
      ensures Valid()
    {
      users := [];
      tokens := [];
    }
  }
}

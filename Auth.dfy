/**
 * The login/registration rule of `AuthHandler.post` in app/app.py. The
 * users table behind `db.find_user_by_id` and `db.create_user`
 * (app/db.py) is a map from user id to user name, and each request yields
 * an outcome and the session cookie it sets, if any.
 */
module Auth {
  import opened Wrappers

  /** What the handler answers. */
  datatype Outcome =
    | Ok              // the JSON body "ok"
    | MissingUserId   // the raised Exception; the framework answers it with a server error
    | Error(status: nat, reason: string) // send_error

  const UserNotFoundReason := "User is not found and user name is not given"

  /** A JSON field that Python treats as true: present and not the empty string. */
  predicate Truthy(field: Option<string>)
  {
    field.Some? && field.value != ""
  }

  /**
   * The users table of `application.db`, which outlives each request, with
   * the handler for POST /api/auth acting on it.
   */
  class UserStore {
    /** The users table: user id to user name. */
    var users: map<string, string>

    /** Every stored user has a non-empty id and a non-empty name. */
    ghost predicate Valid()
      reads this
    {
      forall id :: id in users ==> id != "" && users[id] != ""
    }

    /**
     * The database as the application opens it: `create_all` keeps the rows
     * already in the file, so the table starts as `initial`.
     */
    constructor (initial: map<string, string>)
      ensures users == initial
    {
      users := initial;
    }

    /**
     * `AuthHandler.post`: handles one POST to /api/auth with the JSON
     * fields `user_id` and `username` (None when absent). The returned cookie is the value of
     * the secure cookie "user" the response sets, if it sets one.
     */
    method AuthPost(userId: Option<string>, username: Option<string>) returns (outcome: Outcome, cookie: Option<string>)
      modifies this`users
      ensures !Truthy(userId) ==>
                outcome == MissingUserId && cookie == None && users == old(users)
      ensures Truthy(userId) && userId.value in old(users) ==>
                outcome == Ok && cookie == Some(userId.value) && users == old(users)
      ensures Truthy(userId) && userId.value !in old(users) && Truthy(username) ==>
                outcome == Ok && cookie == Some(userId.value) &&
                users == old(users)[userId.value := username.value] &&
                users.Keys == old(users).Keys + {userId.value}
      ensures Truthy(userId) && userId.value !in old(users) && !Truthy(username) ==>
                outcome == Error(400, UserNotFoundReason) && cookie == None && users == old(users)
      ensures cookie.Some? <==> outcome == Ok
      ensures old(Valid()) ==> Valid()
    {
      if !Truthy(userId) {
        return MissingUserId, None;
      }
      var id := userId.value;
      var user := if id in users then Some(users[id]) else None;
      if user.None? && Truthy(username) {
        users := users[id := username.value];
      } else if user.None? {
        return Error(400, UserNotFoundReason), None;
      }
      outcome, cookie := Ok, Some(id);
    }
  }
}

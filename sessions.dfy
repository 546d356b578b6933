/** The per-client session dictionary and the role gate every dashboard
    applies to it. */
module Sessions {
  import opened Base

  /** A value stored in the session: a string, an integer id, or Python's None. */
  datatype SessionValue = Str(s: string) | Num(n: int) | Null

  type Session = map<string, SessionValue>

  const STUDENT: string := "student"
  const TEACHER: string := "teacher"
  const ADMIN_NAME: string := "Admin"

  /** The id and display name `login_user` reads from the user object. */
  datatype Account = Account(id: nat, name: string)

  /** The session after `login_user(userType, user)`: the three keys are
      overwritten, every other key is kept. Students and teachers are stored
      with their id; any other user type gets `None` as id and, without a user
      object, the name 'Admin'. */
  function WithUser(session: Session, userType: string, user: Option<Account>): (r: Session)
    requires (userType == STUDENT || userType == TEACHER) ==> user.Some?
    ensures "user_type" in r && r["user_type"] == Str(userType)
    ensures "user_id" in r && (userType == STUDENT || userType == TEACHER <==> r["user_id"].Num?)
    ensures userType == STUDENT || userType == TEACHER ==> r["user_id"] == Num(user.value.id)
    ensures "user_name" in r && r["user_name"] == Str(if user.Some? then user.value.name else ADMIN_NAME)
    ensures forall k :: k in r <==> k in session || k == "user_type" || k == "user_id" || k == "user_name"
    ensures forall k :: k in session && k != "user_type" && k != "user_id" && k != "user_name" ==> r[k] == session[k]
  {
    session["user_type" := Str(userType)]
           ["user_id" := if userType == STUDENT || userType == TEACHER then Num(user.value.id) else Null]
           ["user_name" := if user.Some? then Str(user.value.name) else Str(ADMIN_NAME)]
  }

  /** `session.get('user_type') == role` */
  predicate HasRole(session: Session, role: string) {
    "user_type" in session && session["user_type"] == Str(role)
  }

  /** The dashboard gate: a caller without the role is sent to the login page;
      otherwise `session['user_id']` is read, which raises when it is absent. */
  function SessionUserId(session: Session, role: string): (r: Result<SessionValue>)
    ensures r.Ok? <==> HasRole(session, role) && "user_id" in session
    ensures r.Ok? ==> r.value == session["user_id"]
    ensures r == Err(NotLoggedIn) <==> !HasRole(session, role)
    ensures r == Err(MissingSessionKey) <==> HasRole(session, role) && "user_id" !in session
  {
    if "user_type" !in session || session["user_type"] != Str(role) then Err(NotLoggedIn)
    else if "user_id" !in session then Err(MissingSessionKey)
    else Ok(session["user_id"])
  }

  /** After `login_user` as a student or teacher, that role's gate passes and
      yields the user's id, and the other role's gate refuses. */
  lemma LoginOpensGate(session: Session, role: string, account: Account, other: string)
    requires role == STUDENT || role == TEACHER
    requires other != role
    ensures SessionUserId(WithUser(session, role, Some(account)), role) == Ok(Num(account.id))
    ensures SessionUserId(WithUser(session, role, Some(account)), other) == Err(NotLoggedIn)
  {
  }

  /** After `logout_user` every gate refuses. */
  lemma LogoutClosesGate(role: string)
    ensures SessionUserId(map[], role) == Err(NotLoggedIn)
  {
  }
}

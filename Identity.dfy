/** The identity and role resolver of app.py: two fixed allow-lists, the
    session record holding the acting name and role, and the role switch.
    Nothing is authenticated; the client chooses its role. */
module Identity {
  import opened Wrappers

  const REPORTERS: seq<string> := ["Alice", "Bob"]
  const ADMINS: seq<string> := ["Admin1", "Admin2"]
  const REPORTER_ROLE: string := "Reporter"
  const ADMIN_ROLE: string := "Admin"

  datatype User = User(name: string, role: string)

  /** An identity the role switch can store: a known role and a name on that
      role's allow-list. */
  predicate Allowed(u: User) {
    || (u.role == REPORTER_ROLE && u.name in REPORTERS)
    || (u.role == ADMIN_ROLE && u.name in ADMINS)
  }

  /** The allow-list of a known role. */
  function AllowList(role: string): seq<string> {
    if role == ADMIN_ROLE then ADMINS else REPORTERS
  }

  /** The decision of `set_role` for the submitted form fields: the identity
      it stores, or None when the role is not recognised (the request is
      refused with a flashed message and the session is left alone). A known
      role is always kept; the name is kept exactly when it is on that role's
      allow-list, and is otherwise replaced by the list's first entry. */
  function RoleAssignment(name: Option<string>, role: Option<string>): (r: Option<User>)
    ensures r.Some? <==> role == Some(REPORTER_ROLE) || role == Some(ADMIN_ROLE)
    ensures r.Some? ==> Allowed(r.value) && r.value.role == role.value
    ensures r.Some? && name.Some? && name.value in AllowList(role.value) ==>
              r.value.name == name.value
    ensures r.Some? && !(name.Some? && name.value in AllowList(role.value)) ==>
              r.value.name == AllowList(role.value)[0]
  {
    if role == Some(REPORTER_ROLE) && name.Some? && name.value in REPORTERS then
      Some(User(name.value, REPORTER_ROLE))
    else if role == Some(ADMIN_ROLE) && name.Some? && name.value in ADMINS then
      Some(User(name.value, ADMIN_ROLE))
    else if role == Some(ADMIN_ROLE) then
      Some(User("Admin1", ADMIN_ROLE))
    else if role == Some(REPORTER_ROLE) then
      Some(User("Alice", REPORTER_ROLE))
    else
      None
  }

  /** Asking for an identity that is already allowed stores exactly it. */
  lemma RoleAssignmentKeepsAllowed(u: User)
    requires Allowed(u)
    ensures RoleAssignment(Some(u.name), Some(u.role)) == Some(u)
  {
  }

  /** The per-client session: the two entries `user_name` and `user_role`. */
  class Session {
    var userName: Option<string>
    var userRole: Option<string>

    /** Both entries are written together, and only by `SetRole`. */
    ghost predicate Valid()
      reads this
    {
      && (userName.Some? <==> userRole.Some?)
      && (userName.Some? ==> Allowed(User(userName.value, userRole.value)))
    }

    /** A fresh session has no entries. */
    constructor ()
      ensures Valid()
      ensures userName == None && userRole == None
    {
      userName, userRole := None, None;
    }

    /** `current_user()`: the stored identity, Alice the reporter when there
        is none; under the session invariant always an allowed identity. */
    function CurrentUser(): (u: User)
      reads this
      ensures userName == None ==> u.name == "Alice"
      ensures userRole == None ==> u.role == REPORTER_ROLE
      ensures userName.Some? ==> u.name == userName.value
      ensures userRole.Some? ==> u.role == userRole.value
      ensures Valid() ==> Allowed(u)
    {
      User(userName.GetOr("Alice"), userRole.GetOr(REPORTER_ROLE))
    }

    /** `is_admin()`; under the session invariant the acting name is then an admin. */
    function IsAdmin(): (b: bool)
      reads this
      ensures Valid() ==> (b <==> CurrentUser().name in ADMINS)
    {
      CurrentUser().role == ADMIN_ROLE
    }

    /** `is_reporter()`: never true together with `is_admin()`, and under the
        session invariant the acting name is then a reporter. */
    function IsReporter(): (b: bool)
      reads this
      ensures b ==> !IsAdmin()
      ensures Valid() ==> (b <==> CurrentUser().name in REPORTERS)
    {
      CurrentUser().role == REPORTER_ROLE
    }

    /** `set_role` with the two form fields (None when a field is absent).
        Returns whether the "Invalid user or role" message is flashed. */
    method SetRole(name: Option<string>, role: Option<string>) returns (flashed: bool)
      modifies this
      ensures flashed <==> RoleAssignment(name, role) == None
      ensures flashed ==> userName == old(userName) && userRole == old(userRole)
      ensures !flashed ==> Valid() && CurrentUser() == RoleAssignment(name, role).value
      ensures !flashed ==> userName == Some(CurrentUser().name) && userRole == Some(CurrentUser().role)
    {
      flashed := false;
      if role == Some(REPORTER_ROLE) && name.Some? && name.value in REPORTERS {
        userName := name;
        userRole := Some(REPORTER_ROLE);
      } else if role == Some(ADMIN_ROLE) && name.Some? && name.value in ADMINS {
        userName := name;
        userRole := Some(ADMIN_ROLE);
      } else {
        if role == Some(ADMIN_ROLE) {
          userName := Some("Admin1");
          userRole := Some(ADMIN_ROLE);
        } else if role == Some(REPORTER_ROLE) {
          userName := Some("Alice");
          userRole := Some(REPORTER_ROLE);
        } else {
          flashed := true;
        }
      }
    }
  }

  /** A sequence of role switches from a fresh session. The session stays
      valid because the constructor establishes `Valid()` and every call of
      `SetRole` either stores an allowed identity or changes nothing, as
      its postconditions state. */
  method RoleSwitchScenario()
  {
    var s := new Session();
    assert s.IsReporter() && s.CurrentUser() == User("Alice", REPORTER_ROLE);
    var flashed := s.SetRole(Some("Alice"), Some(ADMIN_ROLE));
    assert !flashed && s.CurrentUser() == User("Admin1", ADMIN_ROLE);
    flashed := s.SetRole(Some("Bob"), Some(REPORTER_ROLE));
    assert !flashed && s.CurrentUser() == User("Bob", REPORTER_ROLE);
    flashed := s.SetRole(Some("Bob"), Some("Owner"));
    assert flashed && s.CurrentUser() == User("Bob", REPORTER_ROLE) && s.Valid();
  }
}

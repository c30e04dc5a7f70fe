/**
 * The auth provider: on every auth event it records the user, looks up the role (the
 * development admin account is seeded and forced to 'admin'), and ends loading.
 */
module AuthContext {
  import opened Wrappers
  import opened AuthService
  import opened UserRoleService

  /** The development administrator's e-mail address. */
  const AdminEmail := "admin@example.com"

  /** How the role calls of one event fare: the `getUserRole` query, and the query and the
      write of `initializeAdminUser`. */
  datatype RoleEffects = RoleEffects(lookupOk: bool, seedReadOk: bool, seedWriteOk: bool)

  /** The `userRole` an event leaves, given the role records before it. Both role helpers
      swallow their errors, so the handler's own `catch` is never reached. */
  function RoleAfterEvent(u: Option<User>, rs: seq<RoleRecord>, fx: RoleEffects): Option<string> {
    match u
    case None => None
    case Some(user) =>
      if user.email == AdminEmail then Some(AdminRole)
      else if fx.lookupOk then Some(RoleOf(rs, user.uid))
      else Some(UserRole)
  }

  /** The role records an event leaves: only the administrator's sign-in can seed one. */
  function RecordsAfterEvent(u: Option<User>, rs: seq<RoleRecord>, fx: RoleEffects, now: nat): seq<RoleRecord> {
    match u
    case Some(user) =>
      if user.email == AdminEmail && fx.seedReadOk && fx.seedWriteOk then Seeded(rs, user.uid, now) else rs
    case None => rs
  }

  /** Signing out clears the role; the administrator's account is always 'admin'; anyone
      else gets the first record's role ('user' without one or when the lookup fails). */
  lemma RoleAfterEventSpec(u: Option<User>, rs: seq<RoleRecord>, fx: RoleEffects)
    ensures u.None? <==> RoleAfterEvent(u, rs, fx).None?
    ensures u.Some? && u.value.email == AdminEmail ==> RoleAfterEvent(u, rs, fx) == Some(AdminRole)
    ensures u.Some? && u.value.email != AdminEmail ==>
              RoleAfterEvent(u, rs, fx) == Some(if fx.lookupOk then RoleOf(rs, u.value.uid) else UserRole)
    ensures u.Some? && u.value.email != AdminEmail && !HasUser(rs, u.value.uid) ==>
              RoleAfterEvent(u, rs, fx) == Some(UserRole)
  {
  }

  /** Only the administrator's sign-in changes the records, and then only by seeding an
      admin record for its uid; the role stored for that uid afterwards is the one the
      provider shows unless an earlier record says otherwise. */
  lemma RecordsAfterEventSpec(u: Option<User>, rs: seq<RoleRecord>, fx: RoleEffects, now: nat)
    ensures rs <= RecordsAfterEvent(u, rs, fx, now) && |RecordsAfterEvent(u, rs, fx, now)| <= |rs| + 1
    ensures (u.None? || u.value.email != AdminEmail) ==> RecordsAfterEvent(u, rs, fx, now) == rs
    ensures u.Some? && (HasUser(rs, u.value.uid) || !(fx.seedReadOk && fx.seedWriteOk)) ==>
              RecordsAfterEvent(u, rs, fx, now) == rs
    ensures u.Some? && u.value.email == AdminEmail && fx.seedReadOk && fx.seedWriteOk && !HasUser(rs, u.value.uid) ==>
              RoleOf(RecordsAfterEvent(u, rs, fx, now), u.value.uid) == AdminRole
  {
    if u.Some? {
      SeededSpec(rs, u.value.uid, now, now);
    }
  }

  class AuthProvider {
    var user: Option<User>
    var userRole: Option<string>
    var loading: bool

    constructor()
      ensures user.None? && userRole.None? && loading
    {
      user := None;
      userRole := None;
      loading := true;
    }

    predicate IsAuthenticated()
      reads this
    {
      user.Some?
    }

    predicate IsAdmin()
      reads this
    {
      userRole == Some(AdminRole)
    }

    /** `{!loading && children}`. */
    predicate RendersChildren()
      reads this
    {
      !loading
    }

    /** The `onAuthChange` callback for the event `u`; `now` dates a seeded record. */
    method OnAuthChange(u: Option<User>, roles: RoleStore, fx: RoleEffects, now: nat)
      modifies this, roles
      ensures user == u && !loading
      ensures userRole == RoleAfterEvent(u, old(roles.records), fx)
      ensures roles.records == RecordsAfterEvent(u, old(roles.records), fx, now)
      ensures IsAuthenticated() <==> u.Some?
      ensures u.None? ==> !IsAdmin()
    {
      user := u;
      if u.Some? {
        var role := roles.GetUserRole(u.value.uid, fx.lookupOk);
        userRole := Some(role);
        if u.value.email == AdminEmail {
          roles.InitializeAdminUser(u.value.uid, now, fx.seedReadOk, fx.seedWriteOk);
          userRole := Some(AdminRole);
        }
      } else {
        userRole := None;
      }
      loading := false;
    }
  }
}

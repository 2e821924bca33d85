/** The session holder shared by the pages: the signed-in user, the role
    derived from the user, and whether the first load is still running. */
module UserContext {
  import opened Common

  datatype BasicUser = BasicUser(id: string, email: string, username: string)

  datatype Role = Admin | Panchayat

  const DefaultAdminEmail: string := "mosesrodrigues10@gmail.com"

  /** The role of a user: none without a user; administrator when the e-mail
      is the configured administrator address (`NEXT_PUBLIC_ADMIN_EMAIL`, with
      a built-in address when that is unset or empty); panchayat otherwise. */
  function ComputeRole(u: Option<BasicUser>, adminEmail: Option<string>): (r: Option<Role>)
    ensures r.None? <==> u.None?
    ensures r == Some(Admin) <==> u.Some? && u.value.email == OrElse(adminEmail, DefaultAdminEmail)
    ensures r == Some(Panchayat) <==> u.Some? && u.value.email != OrElse(adminEmail, DefaultAdminEmail)
  {
    if u.None? then None
    else
      var configured := OrElse(adminEmail, DefaultAdminEmail);
      if configured != "" && u.value.email == configured then Some(Admin) else Some(Panchayat)
  }

  /** Only the one configured address is an administrator: two users with
      the administrator role share their e-mail address. */
  lemma AdminsShareEmail(a: BasicUser, b: BasicUser, adminEmail: Option<string>)
    requires ComputeRole(Some(a), adminEmail) == Some(Admin) && ComputeRole(Some(b), adminEmail) == Some(Admin)
    ensures a.email == b.email
  {
  }

  /** The outcome of asking the server for the current user. */
  datatype MeFetch = Threw | NotOk | Fetched(user: Option<BasicUser>)

  /** The state of the provider. */
  class Session {
    var user: Option<BasicUser>
    var role: Option<Role>
    var loading: bool
    const adminEmail: Option<string>

    /** The role always matches the user. */
    predicate Valid()
      reads this
    {
      role == ComputeRole(user, adminEmail)
    }

    /** No user, no role, loading. */
    constructor(adminEmail: Option<string>)
      ensures Valid()
      ensures this.adminEmail == adminEmail && user.None? && role.None? && loading
    {
      this.adminEmail := adminEmail;
      user := None;
      role := None;
      loading := true;
    }

    /** `refresh`: a failed request or a response that is not ok signs the
      user out; otherwise the user is the one returned, if any, and the role
      follows. The loading flag is not touched. */
    method Refresh(fetched: MeFetch)
      modifies this
      ensures Valid()
      ensures fetched.Fetched? ==> user == fetched.user
      ensures !fetched.Fetched? ==> user.None?
      ensures loading == old(loading)
    {
      match fetched
      case Fetched(u) =>
        user := u;
        role := ComputeRole(u, adminEmail);
      case _ =>
        user := None;
        role := None;
    }

    /** `signOut`: the logout request's outcome does not matter; the state is
      then refreshed. */
    method SignOut(fetched: MeFetch)
      modifies this
      ensures Valid()
      ensures fetched.Fetched? ==> user == fetched.user
      ensures !fetched.Fetched? ==> user.None?
      ensures loading == old(loading)
    {
      Refresh(fetched);
    }

    /** The first load when the provider mounts. A response that is not ok
      counts as no user. While the provider is still mounted the load sets
      the user and role and ends loading, whatever the outcome; once it has
      unmounted the state is left alone. */
    method MountLoad(fetched: MeFetch, mounted: bool)
      modifies this
      requires Valid()
      ensures Valid()
      ensures mounted ==> !loading
      ensures mounted ==> user == (if fetched.Fetched? then fetched.user else None)
      ensures !mounted ==> user == old(user) && role == old(role) && loading == old(loading)
    {
      if mounted {
        var u := if fetched.Fetched? then fetched.user else None;
        user := u;
        role := ComputeRole(u, adminEmail);
        loading := false;
      }
    }
  }

  /** `useUser`: the provider's value, or an error outside a provider. */
  function UseUser(ctx: Option<Session>): (r: Result<Session>)
    ensures r.Err? <==> ctx.None?
    ensures r.Err? ==> r.message == "useUser must be used inside <UserProvider>"
    ensures r.Ok? ==> r.value == ctx.value
  {
    if ctx.None? then Err("useUser must be used inside <UserProvider>") else Ok(ctx.value)
  }
}

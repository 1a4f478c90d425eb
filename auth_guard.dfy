/**
 * The admin route guard (src/components/admin/auth-guard.tsx): on mount it
 * checks for a session, then for an administrator profile, and either lets
 * the protected page render or redirects.
 */
module AuthGuard {
  import opened Wrappers

  /** What an awaited call does: it returns a value or throws. */
  datatype Outcome<T> = Returned(value: T) | Threw

  /** The part of a session the guard reads: the signed-in account's id. */
  datatype Session = Session(userId: string)

  /** A `profiles` row as selected by the guard: only its role, which may be null. */
  datatype Profile = Profile(role: Option<string>)

  /** The `{ data, error }` reply of the single-row profile query. */
  datatype ProfileReply = ProfileReply(data: Option<Profile>, error: bool)

  /** The end of one check. */
  datatype Decision = Authorized | Redirect(target: string)

  const LoginPath: string := "/admin/login"
  const HomePath: string := "/"

  /** The `profile?.role !== "admin"` test, false for a missing profile or role. */
  predicate IsAdmin(p: Option<Profile>) {
    p.Some? && p.value.role == Some("admin")
  }

  /** The decision `checkAuth` reaches, given what the session call returns and
      what the profile query answers for each account id. */
  function Decide(session: Outcome<Option<Session>>, profileOf: string -> Outcome<ProfileReply>): (d: Decision)
    ensures d == Authorized <==>
      (session.Returned? && session.value.Some?
       && profileOf(session.value.value.userId).Returned?
       && !profileOf(session.value.value.userId).value.error
       && IsAdmin(profileOf(session.value.value.userId).value.data))
    ensures d == Authorized || d == Redirect(LoginPath) || d == Redirect(HomePath)
  {
    match session
    case Threw => Redirect(LoginPath)
    case Returned(None) => Redirect(LoginPath)
    case Returned(Some(s)) =>
      match profileOf(s.userId)
      case Threw => Redirect(LoginPath)
      case Returned(reply) =>
        if reply.error || !IsAdmin(reply.data) then Redirect(HomePath) else Authorized
  }

  /** Without a session (or when the session call throws) the guard sends the
      visitor to the login page. */
  lemma NoSessionGoesToLogin(session: Outcome<Option<Session>>, profileOf: string -> Outcome<ProfileReply>)
    requires session.Threw? || session == Returned(None)
    ensures Decide(session, profileOf) == Redirect(LoginPath)
  {
  }

  /** A signed-in account whose profile query fails or whose role is not
      "admin" (a missing profile included) is sent home, not to the login page. */
  lemma NonAdminGoesHome(s: Session, profileOf: string -> Outcome<ProfileReply>)
    requires profileOf(s.userId).Returned?
    requires profileOf(s.userId).value.error || !IsAdmin(profileOf(s.userId).value.data)
    ensures Decide(Returned(Some(s)), profileOf) == Redirect(HomePath)
  {
  }

  /** An exception while querying the profile fails closed, to the login page. */
  lemma ProfileExceptionGoesToLogin(s: Session, profileOf: string -> Outcome<ProfileReply>)
    requires profileOf(s.userId).Threw?
    ensures Decide(Returned(Some(s)), profileOf) == Redirect(LoginPath)
  {
  }

  /** What the guard renders. */
  datatype Screen = Spinner | Nothing | Children

  /** The render rule: a spinner while loading, nothing when unauthorized,
      the protected page otherwise. */
  function RenderOf(isLoading: bool, isAuthorized: bool): (r: Screen)
    ensures r == Children <==> !isLoading && isAuthorized
    ensures r == Spinner <==> isLoading
  {
    if isLoading then Spinner else if !isAuthorized then Nothing else Children
  }

  /** The guard component's state; `redirect` records the last `navigate` target. */
  class Guard {
    var isLoading: bool
    var isAuthorized: bool
    var redirect: Option<string>

    constructor ()
      ensures isLoading && !isAuthorized && redirect == None
    {
      isLoading := true;
      isAuthorized := false;
      redirect := None;
    }

    function Render(): Screen
      reads this
    {
      RenderOf(isLoading, isAuthorized)
    }

    /** `checkAuth`: the steps of the source with their early returns; the
        `finally` block ends loading on every path. */
    method CheckAuth(session: Outcome<Option<Session>>, profileOf: string -> Outcome<ProfileReply>)
      modifies this
      ensures !isLoading
      ensures Decide(session, profileOf) == Authorized ==> isAuthorized && redirect == old(redirect)
      ensures Decide(session, profileOf).Redirect? ==>
        isAuthorized == old(isAuthorized) && redirect == Some(Decide(session, profileOf).target)
      ensures old(!isAuthorized) ==> (Render() == Children <==> Decide(session, profileOf) == Authorized)
    {
      if session.Threw? {
        redirect := Some(LoginPath);
      } else if session.value.None? {
        redirect := Some(LoginPath);
      } else {
        var reply := profileOf(session.value.value.userId);
        if reply.Threw? {
          redirect := Some(LoginPath);
        } else if reply.value.error || !IsAdmin(reply.value.data) {
          redirect := Some(HomePath);
        } else {
          isAuthorized := true;
        }
      }
      isLoading := false;
    }
  }
}

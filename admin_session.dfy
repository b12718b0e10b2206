/** The admin session of src/context/AdminContext.tsx: an authenticated
    flag, initialised from session storage and mirrored back into it by an
    effect that runs whenever the flag changes. */
module AdminSession {
  import opened Options

  const AdminPassword: string := "Cash789@@"
  const AuthKey: string := "admin_authenticated"
  const OutsideProviderMessage: string := "useAdmin must be used within an AdminProvider"

  /** Session storage, as text under keys. */
  type Session = map<string, string>

  /** `sessionStorage.getItem(AUTH_KEY) === 'true'`. */
  predicate StoredFlag(s: Session)
  {
    AuthKey in s && s[AuthKey] == "true"
  }

  /** What the effect leaves in session storage for a flag value. */
  function SyncFlag(s: Session, authenticated: bool): (r: Session)
    ensures (AuthKey in r && r[AuthKey] == "true") == authenticated
    ensures !authenticated ==> AuthKey !in r
    ensures forall k :: k != AuthKey ==> (k in r <==> k in s) && (k in r ==> r[k] == s[k])
  {
    if authenticated then s[AuthKey := "true"] else s - {AuthKey}
  }

  class AdminProvider {
    var isAuthenticated: bool
    var session: Session

    /** The flag and session storage agree: authenticated means the key
        holds 'true', and otherwise the key is absent. */
    predicate Synced()
      reads this
    {
      (isAuthenticated ==> StoredFlag(session)) && (!isAuthenticated ==> AuthKey !in session)
    }

    /** Mounting: the flag is read from storage, then the effect runs once. */
    constructor (initial: Session)
      ensures isAuthenticated == StoredFlag(initial)
      ensures session == SyncFlag(initial, StoredFlag(initial))
      ensures Synced()
    {
      isAuthenticated := StoredFlag(initial);
      session := SyncFlag(initial, StoredFlag(initial));
    }

    /** `setIsAuthenticated` followed by the effect, which runs only when the
        value changes. */
    method SetAuthenticated(value: bool)
      requires Synced()
      modifies this
      ensures isAuthenticated == value && Synced()
      ensures session == if value == old(isAuthenticated) then old(session) else SyncFlag(old(session), value)
    {
      if value != isAuthenticated {
        isAuthenticated := value;
        session := SyncFlag(session, value);
      }
    }

    /** `login`: only the exact password succeeds; a failure changes nothing,
        so an authenticated session stays authenticated. */
    method Login(password: string) returns (ok: bool)
      requires Synced()
      modifies this
      ensures ok == (password == AdminPassword)
      ensures Synced()
      ensures ok ==> isAuthenticated && session == SyncFlag(old(session), true)
      ensures !ok ==> isAuthenticated == old(isAuthenticated) && session == old(session)
    {
      if password == AdminPassword {
        SetAuthenticated(true);
        return true;
      }
      return false;
    }

    /** `logout`, from any state. */
    method Logout()
      requires Synced()
      modifies this
      ensures !isAuthenticated && Synced()
      ensures session == SyncFlag(old(session), false)
    {
      SetAuthenticated(false);
    }
  }

  /** Writing the flag for the value it already holds leaves a synced
      session as it is, so a second login changes nothing. */
  lemma SyncIdempotent(s: Session, authenticated: bool)
    requires (authenticated ==> StoredFlag(s)) && (!authenticated ==> AuthKey !in s)
    ensures SyncFlag(s, authenticated) == s
  {
    if authenticated {
      assert s[AuthKey := "true"] == s;
    } else {
      assert s - {AuthKey} == s;
    }
  }

  /** The result of `useAdmin`: the context, or the error it throws. */
  datatype Hook<C> = Context(context: C) | Thrown(message: string)

  /** `useAdmin`: outside a provider (no context) it throws. */
  function UseAdmin<C>(context: Option<C>): (r: Hook<C>)
    ensures r.Thrown? <==> context.None?
    ensures r.Thrown? ==> r.message == OutsideProviderMessage
    ensures context.Some? ==> r == Context(context.value)
  {
    match context
    case None => Thrown(OutsideProviderMessage)
    case Some(c) => Context(c)
  }
}

/** The login form of src/pages/AdminLoginPage.tsx. */
module AdminLoginPage {
  import AdminSession

  const DashboardPath: string := "/admin/dashboard"
  const InvalidMessage: string := "Invalid password. Please try again."

  class LoginPageView {
    var password: string
    var error: string
    /** The paths `navigate` was called with, in order. */
    var navigations: seq<string>

    constructor ()
      ensures password == "" && error == "" && navigations == []
    {
      password, error, navigations := "", "", [];
    }

    method SetPassword(text: string)
      modifies this`password
      ensures password == text
    {
      password := text;
    }

    /** `handleSubmit`: the error is cleared, then the right password goes
        to the dashboard and a wrong one shows the error, empties the field
        and stays. */
    method HandleSubmit(admin: AdminSession.AdminProvider)
      requires admin.Synced()
      modifies this, admin
      ensures admin.Synced()
      ensures old(password) == AdminSession.AdminPassword ==>
                && error == "" && password == old(password) && navigations == old(navigations) + [DashboardPath]
                && admin.isAuthenticated && admin.session == AdminSession.SyncFlag(old(admin.session), true)
      ensures old(password) != AdminSession.AdminPassword ==>
                && error == InvalidMessage && password == "" && navigations == old(navigations)
                && admin.isAuthenticated == old(admin.isAuthenticated) && admin.session == old(admin.session)
    {
      error := "";
      var ok := admin.Login(password);
      if ok {
        navigations := navigations + [DashboardPath];
      } else {
        error := InvalidMessage;
        password := "";
      }
    }
  }
}

/** The route guard of src/components/ProtectedRoute.tsx. */
module ProtectedRoute {
  const LoginPath: string := "/admin"

  /** What the guard renders: a `Navigate`, or the guarded children. */
  datatype Rendered<T> = Redirect(to: string, replace: bool) | Render(children: T)

  /** The decision depends on the flag alone: unauthenticated goes to the
      login page, replacing the history entry; authenticated renders the
      children as given. */
  function Guard<T>(isAuthenticated: bool, children: T): (r: Rendered<T>)
    ensures r.Render? <==> isAuthenticated
    ensures r.Render? ==> r.children == children
    ensures r.Redirect? ==> r.to == LoginPath && r.replace
  {
    if !isAuthenticated then Redirect(LoginPath, true) else Render(children)
  }
}

/**
 * The client-side session manager: the access and refresh tokens in durable storage, the
 * cookie mirror the route guard reads, the HTTP client's `Authorization` header, and the
 * current user. Every backend call is an input to the operation that makes it; each
 * operation returns the list of calls it made, in order.
 */
module AuthSession {
  import opened Wrappers
  import opened Strings
  import RouteGuard

  /** The body of `GET /api/users/me/`. `id` is absent when the backend sent none. */
  datatype UserData = UserData(id: Option<int>, username: string, email: string)

  /** The body of a login or registration response. */
  datatype TokenPair = TokenPair(access: Option<string>, refresh: Option<string>)

  /** The body of `POST /api/users/refresh/`. */
  datatype RefreshBody = RefreshBody(access: Option<string>)

  /** What one backend call came back with: a 2xx body, a 401, or any other failure. */
  datatype Reply<T> = Ok(body: T) | Unauthorized | Failed

  datatype Endpoint = Me | RefreshCall | LoginCall | RegisterCall | LogoutCall

  /** JavaScript truthiness of an optional string: absent and `""` are both false. */
  predicate Truthy(s: Option<string>) {
    s.Some? && s.value != ""
  }

  /** `data && data.id`: the identity is usable only with a non-zero id. */
  predicate HasId(u: UserData) {
    u.id.Some? && u.id.value != 0
  }

  /** An identity call that produced a usable user. */
  predicate IdentityOk(r: Reply<UserData>) {
    r.Ok? && HasId(r.body)
  }

  /** A refresh call that produced a usable access token. */
  predicate RefreshOk(r: Reply<RefreshBody>) {
    r.Ok? && Truthy(r.body.access)
  }

  /** The header value of a bearer token, section 2.1 of RFC 6750. */
  function Bearer(token: string): (h: string)
    ensures IsPrefix("Bearer ", h) && h[7..] == token
  {
    "Bearer " + token
  }

  /** The whole observable state of a session, for stating end states at once. */
  datatype Snapshot = Snapshot(
    storedAccess: Option<string>, storedRefresh: Option<string>, cookie: Option<string>,
    authHeader: Option<string>, user: Option<UserData>, isLoading: bool, lastRoute: Option<string>)

  /** The state every path of logout ends in. */
  const LoggedOut: Snapshot := Snapshot(None, None, None, None, None, false, Some("/auth/login"))

  class Session {
    var storedAccess: Option<string>   // localStorage "access_token"
    var storedRefresh: Option<string>  // localStorage "refresh_token"
    var cookie: Option<string>         // the "access_token" cookie
    var authHeader: Option<string>     // api.defaults.headers.common["Authorization"]
    var user: Option<UserData>
    var isLoading: bool
    var lastRoute: Option<string>      // the last router.push target

    /** A user is held only while an access token is stored (identity never outlives the token). */
    predicate Valid()
      reads this
    {
      user.Some? ==> Truthy(storedAccess)
    }

    /** Storage, cookie and header carry the same access token, or are all empty. */
    predicate InStep()
      reads this
    {
      || (Truthy(storedAccess) && cookie == storedAccess && authHeader == Some(Bearer(storedAccess.value)))
      || (storedAccess.None? && cookie.None? && authHeader.None?)
    }

    function State(): Snapshot
      reads this
    {
      Snapshot(storedAccess, storedRefresh, cookie, authHeader, user, isLoading, lastRoute)
    }

    /** A page load: storage and cookie survive from earlier visits, the header and the user do not. */
    constructor (access: Option<string>, refresh: Option<string>, cookieValue: Option<string>)
      ensures Valid()
      ensures State() == Snapshot(access, refresh, cookieValue, None, None, true, None)
    {
      storedAccess, storedRefresh, cookie := access, refresh, cookieValue;
      authHeader, user, isLoading, lastRoute := None, None, true, None;
    }

    /** `setAuthToken`: a truthy token goes into storage, cookie and header; anything else clears all three. */
    method SetAuthToken(token: Option<string>)
      modifies this
      ensures InStep()
      ensures Truthy(token) ==>
                storedAccess == token && cookie == token && authHeader == Some(Bearer(token.value))
      ensures !Truthy(token) ==> storedAccess.None? && cookie.None? && authHeader.None?
      ensures storedRefresh == old(storedRefresh) && user == old(user)
      ensures isLoading == old(isLoading) && lastRoute == old(lastRoute)
    {
      if Truthy(token) {
        storedAccess := token;
        cookie := token;
        authHeader := Some(Bearer(token.value));
      } else {
        storedAccess := None;
        cookie := None;
        authHeader := None;
      }
    }

    /** The clean-up every failure path of the mount-time check runs. */
    method ClearAll()
      modifies this
      ensures Valid() && InStep()
      ensures State() == Snapshot(None, None, None, None, None, false, old(lastRoute))
    {
      user := None;
      storedAccess := None;
      storedRefresh := None;
      SetAuthToken(None);
      isLoading := false;
    }

    /**
     * `checkAuth`, run once on mount. `me`, `refresh` and `retry` are the replies the
     * identity call, the refresh call and the identity retry would get.
     */
    method CheckAuth(me: Reply<UserData>, refresh: Reply<RefreshBody>, retry: Reply<UserData>)
      returns (calls: seq<Endpoint>)
      requires Valid()
      modifies this
      ensures Valid() && InStep() && !isLoading && lastRoute == old(lastRoute)
      // the refresh is single-shot: one identity call, at most one refresh, at most one retry
      ensures IsPrefix(calls, [Me, RefreshCall, Me])
      ensures RefreshCall in calls <==>
                Truthy(old(storedAccess)) && !(old(user).Some? && HasId(old(user).value))
                && me.Unauthorized? && Truthy(old(storedRefresh))
      // no access token: the user and the access slots are cleared, nothing is called
      ensures !Truthy(old(storedAccess)) ==>
                calls == [] && user.None? && storedAccess.None? && storedRefresh == old(storedRefresh)
      // a usable user is already held: it is kept and the token re-applied
      ensures Truthy(old(storedAccess)) && old(user).Some? && HasId(old(user).value) ==>
                calls == [] && user == old(user) && storedAccess == old(storedAccess)
                && storedRefresh == old(storedRefresh)
      // otherwise the identity call decides
      ensures Truthy(old(storedAccess)) && !(old(user).Some? && HasId(old(user).value)) ==>
                if IdentityOk(me) then
                  user == Some(me.body) && storedAccess == old(storedAccess)
                  && storedRefresh == old(storedRefresh)
                else if me.Unauthorized? && Truthy(old(storedRefresh)) && RefreshOk(refresh) && IdentityOk(retry) then
                  user == Some(retry.body) && storedAccess == refresh.body.access
                  && storedRefresh == old(storedRefresh)
                else
                  user.None? && storedAccess.None? && storedRefresh.None?
    {
      calls := [];
      var token := storedAccess;
      var refreshToken := storedRefresh;
      if !Truthy(token) {
        user := None;
        SetAuthToken(None);
        isLoading := false;
        return;
      }
      SetAuthToken(token);
      if user.Some? && HasId(user.value) {
        isLoading := false;
        return;
      }
      calls := [Me];
      if IdentityOk(me) {
        user := Some(me.body);
        isLoading := false;
      } else if me.Unauthorized? {
        if !Truthy(refreshToken) {
          ClearAll();
        } else {
          calls := calls + [RefreshCall];
          if RefreshOk(refresh) {
            storedAccess := refresh.body.access;
            SetAuthToken(refresh.body.access);
            calls := calls + [Me];
            if IdentityOk(retry) {
              user := Some(retry.body);
              isLoading := false;
            } else {
              ClearAll();
            }
          } else {
            ClearAll();
          }
        }
      } else {
        // a body without an id, or any non-401 failure
        ClearAll();
      }
    }

    /** `login`: the login call, then the identity call once an access token was returned. */
    method Login(reply: Reply<TokenPair>, me: Reply<UserData>) returns (ok: bool, calls: seq<Endpoint>)
      requires Valid()
      modifies this
      ensures Valid() && !isLoading
      ensures ok <==> reply.Ok? && Truthy(reply.body.access) && IdentityOk(me)
      ensures calls == if reply.Ok? && Truthy(reply.body.access) then [LoginCall, Me] else [LoginCall]
      // without an access token nothing but the loading flag changes
      ensures !(reply.Ok? && Truthy(reply.body.access)) ==>
                State() == old(State()).(isLoading := false)
      // with one, it is stored everywhere, and a refresh token only if one came back
      ensures reply.Ok? && Truthy(reply.body.access) ==>
                InStep() && storedAccess == reply.body.access
                && storedRefresh == (if Truthy(reply.body.refresh) then reply.body.refresh else old(storedRefresh))
      ensures ok ==> user == Some(me.body) && lastRoute == Some("/") && IsAuthenticated()
      ensures !ok ==> user == old(user) && lastRoute == old(lastRoute)
    {
      isLoading := true;
      calls := [LoginCall];
      ok := false;
      if reply.Ok? && Truthy(reply.body.access) {
        SetAuthToken(reply.body.access);
        if Truthy(reply.body.refresh) {
          storedRefresh := reply.body.refresh;
        }
        calls := calls + [Me];
        if IdentityOk(me) {
          user := Some(me.body);
          lastRoute := Some("/");
          ok := true;
        }
      }
      isLoading := false;
    }

    /** `logout`: revoke the refresh token if there is one, then clear everything whatever the backend said. */
    method Logout(reply: Reply<()>) returns (calls: seq<Endpoint>)
      requires Valid()
      modifies this
      ensures Valid() && InStep() && !IsAuthenticated()
      ensures State() == LoggedOut
      ensures calls == if Truthy(old(storedRefresh)) then [LogoutCall] else []
    {
      isLoading := true;
      calls := [];
      var refreshToken := storedRefresh;
      if Truthy(refreshToken) {
        calls := [LogoutCall];  // its outcome, `reply`, is only logged
      }
      SetAuthToken(None);
      storedRefresh := None;
      user := None;
      lastRoute := Some("/auth/login");
      isLoading := false;
    }

    /**
     * `register`: like login, but the access token goes to storage and header only, the
     * cookie is left as it was, and the identity body is taken without checking its id.
     */
    method Register(reply: Reply<TokenPair>, me: Reply<UserData>) returns (ok: bool, calls: seq<Endpoint>)
      requires Valid()
      modifies this
      ensures Valid() && !isLoading
      ensures cookie == old(cookie)
      ensures ok <==> reply.Ok? && Truthy(reply.body.access) && me.Ok?
      ensures calls == if reply.Ok? && Truthy(reply.body.access) then [RegisterCall, Me] else [RegisterCall]
      ensures !(reply.Ok? && Truthy(reply.body.access)) ==>
                State() == old(State()).(isLoading := false)
      ensures reply.Ok? && Truthy(reply.body.access) ==>
                storedAccess == reply.body.access && authHeader == Some(Bearer(reply.body.access.value))
                && storedRefresh == (if Truthy(reply.body.refresh) then reply.body.refresh else old(storedRefresh))
      ensures ok ==> user == Some(me.body) && lastRoute == Some("/")
      ensures !ok ==> user == old(user) && lastRoute == old(lastRoute)
    {
      isLoading := true;
      calls := [RegisterCall];
      ok := false;
      if reply.Ok? && Truthy(reply.body.access) {
        storedAccess := reply.body.access;
        if Truthy(reply.body.refresh) {
          storedRefresh := reply.body.refresh;
        }
        authHeader := Some(Bearer(reply.body.access.value));
        calls := calls + [Me];
        if me.Ok? {
          user := Some(me.body);
          lastRoute := Some("/");
          ok := true;
        }
      }
      isLoading := false;
    }

    /** `isAuthenticated()`: a stored access token is enough; the user is not consulted. */
    function IsAuthenticated(): (r: bool)
      reads this
      ensures Valid() && user.Some? ==> r
      ensures InStep() ==> (r <==> Truthy(cookie))
    {
      Truthy(storedAccess)
    }

    /** `getAuthToken()`: while in step, a token it gives out is the one the cookie and the header carry. */
    function GetAuthToken(): (r: Option<string>)
      reads this
      ensures InStep() && r.Some? ==> cookie == r && authHeader == Some(Bearer(r.value))
    {
      storedAccess
    }

    /**
     * `checkAuthStatus`: the on-demand variant of the mount check. It leaves the loading
     * flag alone, returns whether a usable user is now held, and clears the session only
     * when the refresh attempt itself fails.
     */
    method CheckAuthStatus(me: Reply<UserData>, refresh: Reply<RefreshBody>, retry: Reply<UserData>)
      returns (authed: bool, calls: seq<Endpoint>)
      requires Valid()
      modifies this
      ensures Valid() && isLoading == old(isLoading) && lastRoute == old(lastRoute)
      ensures IsPrefix(calls, [Me, RefreshCall, Me])
      ensures authed ==> user.Some? && HasId(user.value) && IsAuthenticated()
      ensures !Truthy(old(storedAccess)) ==> !authed && calls == [] && State() == old(State())
      ensures Truthy(old(storedAccess)) && old(user).Some? && HasId(old(user).value) ==>
                authed && calls == [] && InStep() && user == old(user)
      ensures Truthy(old(storedAccess)) && !(old(user).Some? && HasId(old(user).value)) ==>
                && (authed <==>
                      (IdentityOk(me)
                       || (me.Unauthorized? && Truthy(old(storedRefresh)) && RefreshOk(refresh) && IdentityOk(retry))))
                // the identity call's user is held exactly when it has an id; otherwise the held user stays
                && (IdentityOk(me) ==> user == Some(me.body) && calls == [Me] && InStep())
                && (!me.Unauthorized? && !IdentityOk(me) ==> user == old(user) && calls == [Me] && InStep())
                // a refreshed token is kept even when the retry brings no usable identity
                && (me.Unauthorized? && Truthy(old(storedRefresh)) && RefreshOk(refresh) && retry.Ok? ==>
                      storedAccess == refresh.body.access && InStep()
                      && (if HasId(retry.body) then user == Some(retry.body) else user == old(user)))
                // a non-401 failure, or a body without an id, keeps the stored tokens
                && (!me.Unauthorized? ==> storedAccess == old(storedAccess) && storedRefresh == old(storedRefresh))
                // a failed refresh, or a failed retry, clears both tokens and the user
                && (me.Unauthorized? && !(Truthy(old(storedRefresh)) && RefreshOk(refresh) && retry.Ok?) ==>
                      if Truthy(old(storedRefresh)) && refresh.Ok? && !Truthy(refresh.body.access) then
                        storedAccess == old(storedAccess) && storedRefresh == old(storedRefresh) &&
                        user == old(user) && InStep()
                      else
                        user.None? && storedAccess.None? && storedRefresh.None?)
    {
      calls := [];
      var token := storedAccess;
      var refreshToken := storedRefresh;
      if !Truthy(token) {
        return false, calls;
      }
      SetAuthToken(token);
      if user.Some? && HasId(user.value) {
        return true, calls;
      }
      calls := [Me];
      if IdentityOk(me) {
        user := Some(me.body);
        return true, calls;
      } else if me.Ok? || me.Failed? {
        return false, calls;
      }
      // a 401 on the identity call
      authed := false;
      if !Truthy(refreshToken) {
        ClearTokens();
      } else {
        calls := calls + [RefreshCall];
        if refresh.Ok? {
          var newToken := refresh.body.access;
          if Truthy(newToken) {
            storedAccess := newToken;
            SetAuthToken(newToken);
            calls := calls + [Me];
            if IdentityOk(retry) {
              user := Some(retry.body);
              authed := true;
            } else if !retry.Ok? {
              ClearTokens();
            }
          }
        } else {
          ClearTokens();
        }
      }
    }

    /** The clean-up of `checkAuthStatus`'s refresh failure: like ClearAll but without touching the loading flag. */
    method ClearTokens()
      modifies this
      ensures Valid() && InStep()
      ensures State() == Snapshot(None, None, None, None, None, old(isLoading), old(lastRoute))
    {
      user := None;
      storedAccess := None;
      storedRefresh := None;
      SetAuthToken(None);
    }
  }

  /** Logging out twice ends in the same state as logging out once, whatever either backend call did. */
  method LogoutTwice(s: Session, first: Reply<()>, second: Reply<()>)
    requires s.Valid()
    modifies s
    ensures s.State() == LoggedOut
  {
    var _ := s.Logout(first);
    var calls := s.Logout(second);
    assert calls == [];
  }

  /**
   * A fresh registration updates storage and header but not the cookie, so the client
   * considers the user signed in while the route guard still sends `/profile` to login.
   */
  method RegisteredButGuarded(s: Session, reply: Reply<TokenPair>, me: Reply<UserData>)
    requires s.Valid() && s.cookie.None?
    modifies s
    ensures reply.Ok? && Truthy(reply.body.access) ==>
              s.IsAuthenticated() && RouteGuard.Middleware("/profile", s.cookie) == RouteGuard.RedirectLogin("/profile")
  {
    var ok, calls := s.Register(reply, me);
    assert IsPrefix("/profile", "/profile");
  }

  /** Logging in with a token and a usable identity signs the user in with exactly that token. */
  method LoginThenToken(s: Session, access: string, refresh: Option<string>, u: UserData)
    requires s.Valid() && access != "" && HasId(u)
    modifies s
    ensures s.IsAuthenticated() && s.GetAuthToken() == Some(access) && s.user == Some(u)
    ensures RouteGuard.Middleware("/profile", s.cookie).PassThrough?
  {
    var ok, calls := s.Login(Ok(TokenPair(Some(access), refresh)), Ok(u));
    assert ok;
  }
}

/**
 * The client auth store of src/store/useAuthStore.ts: four fields that
 * `login`, `logout`, `checkAuth` and `clearError` overwrite, and the cookie
 * jar behind `authStorage`. `login` awaits the backend, so it is split at the
 * `await` into `LoginBegin` and `LoginEnd`, the latter taking the backend's
 * outcome.
 */
module Store {
  import opened Wrappers
  import opened AuthTypes
  import opened Http
  import opened Cookies
  import opened AuthStorage

  const LOGIN_FAILED: string := "Error al iniciar sesión"
  const NO_PERMISSION: string := "No tiene permisos para acceder a este sistema"

  /** `AuthState`. */
  datatype AuthState = AuthState(user: Option<User>, isAuthenticated: bool, isLoading: bool, error: Option<string>)

  /** The state of a store with nobody signed in. */
  const SIGNED_OUT: AuthState := AuthState(None, false, false, None)

  /**
   * `getInitialState()`: on the client, authenticated with the stored user
   * when there is a user, a token and the UNIVERSITAS role.
   */
  function InitialState(jar: CookieJar, codec: UserCodec): (s: AuthState)
    reads jar
    ensures s == SIGNED_OUT || (s.isAuthenticated && !s.isLoading && s.error.None? && s.user == GetUser(jar, codec))
  {
    if jar.hasDocument then
      var user := GetUser(jar, codec);
      var token := GetToken(jar);
      if user.Some? && token.Some? && token.value != "" && user.value.rol == UNIVERSITAS
      then AuthState(user, true, false, None)
      else SIGNED_OUT
    else SIGNED_OUT
  }

  /** The store starts authenticated exactly when the cookie helpers see an active session. */
  lemma InitialStateActive(jar: CookieJar, codec: UserCodec)
    ensures InitialState(jar, codec).isAuthenticated <==> HasActiveSession(jar, codec)
    ensures !InitialState(jar, codec).isAuthenticated ==> InitialState(jar, codec) == SIGNED_OUT
  {
  }

  /**
   * What `login` rethrows for the backend's outcome: nothing when it
   * resolves with a UNIVERSITAS user, the role error for any other user,
   * the backend's error otherwise.
   */
  function Rethrown(call: Outcome<LoginResponse>): (thrown: Option<Thrown>)
    ensures thrown.None? <==> call.Ok? && call.value.user.rol == UNIVERSITAS
    ensures call.Ok? && thrown.Some? ==> thrown.value == ErrorWith(NO_PERMISSION)
    ensures call.Failed? ==> thrown == Some(call.error)
  {
    match call
    case Ok(response) => if response.user.rol == UNIVERSITAS then None else Some(ErrorWith(NO_PERMISSION))
    case Failed(e) => Some(e)
  }

  class AuthStore {
    var user: Option<User>
    var isAuthenticated: bool
    var isLoading: bool
    var error: Option<string>
    const jar: CookieJar
    const codec: UserCodec
    /** `process.env.NODE_ENV === 'production'`, which adds `Secure` to the cookies. */
    const secure: bool

    function State(): AuthState
      reads this
    {
      AuthState(user, isAuthenticated, isLoading, error)
    }

    /** The store is authenticated exactly when it holds a user, and that user is UNIVERSITAS. */
    ghost predicate Valid()
      reads this, jar
    {
      jar.Valid() &&
      (isAuthenticated <==> user.Some?) &&
      (user.Some? ==> user.value.rol == UNIVERSITAS)
    }

    /** `create(...)` with `...getInitialState()`. */
    constructor (jar: CookieJar, codec: UserCodec, secure: bool)
      requires jar.Valid()
      ensures Valid()
      ensures this.jar == jar && this.codec == codec && this.secure == secure
      ensures State() == InitialState(jar, codec)
    {
      this.jar := jar;
      this.codec := codec;
      this.secure := secure;
      var s := InitialState(jar, codec);
      user := s.user;
      isAuthenticated := s.isAuthenticated;
      isLoading := s.isLoading;
      error := s.error;
    }

    /** `login`, up to the `await`: `set({ isLoading: true, error: null })`. */
    method LoginBegin()
      requires Valid()
      modifies this
      ensures Valid()
      ensures State() == old(State()).(isLoading := true, error := None)
    {
      isLoading := true;
      error := None;
    }

    /**
     * `login`, after the `await`, given the backend's outcome. Returns the
     * value `login` rethrows, or `None` when it resolves.
     */
    method LoginEnd(call: Outcome<LoginResponse>) returns (thrown: Option<Thrown>)
      requires Valid()
      modifies this, jar
      ensures Valid()
      ensures thrown == Rethrown(call)
      ensures call.Ok? && call.value.user.rol == UNIVERSITAS ==>
        thrown.None? && State() == AuthState(Some(call.value.user), true, false, None) &&
        (jar.hasDocument ==>
          jar.Jar() == old(jar.Jar())[TOKEN_COOKIE := StoredValue(call.value.accessToken)]
                                     [USER_COOKIE := StoredValue(codec.encode(call.value.user))]) &&
        (jar.hasDocument && call.value.accessToken != "" && ';' !in call.value.accessToken && Trimmed(call.value.accessToken) ==>
          GetToken(jar) == Some(call.value.accessToken)) &&
        (jar.hasDocument && Sound(codec) ==> GetUser(jar, codec) == Some(call.value.user))
      ensures call.Ok? && call.value.user.rol != UNIVERSITAS ==>
        thrown == Some(ErrorWith(NO_PERMISSION)) && State() == AuthState(None, false, false, Some(NO_PERMISSION)) &&
        jar.entries == old(jar.entries)
      ensures call.Failed? ==>
        thrown == Some(call.error) && State() == AuthState(None, false, false, Some(MessageOr(call.error, LOGIN_FAILED))) &&
        jar.entries == old(jar.entries)
    {
      var failure: Thrown;
      match call {
        case Ok(response) =>
          if response.user.rol == UNIVERSITAS {
            ghost var m0 := jar.Jar();
            SaveAuth(jar, response.accessToken, response.user, codec, secure);
            assert jar.hasDocument ==>
              jar.Jar() == m0[TOKEN_COOKIE := StoredValue(response.accessToken)][USER_COOKIE := StoredValue(codec.encode(response.user))];
            assert jar.hasDocument && response.accessToken != "" && ';' !in response.accessToken && Trimmed(response.accessToken) ==>
              GetToken(jar) == Some(response.accessToken);
            assert jar.hasDocument && Sound(codec) ==> GetUser(jar, codec) == Some(response.user);
            user, isAuthenticated, isLoading, error := Some(response.user), true, false, None;
            return None;
          }
          failure := ErrorWith(NO_PERMISSION);
        case Failed(e) =>
          failure := e;
      }
      ErrorWithMessage(NO_PERMISSION, LOGIN_FAILED);
      user, isAuthenticated, isLoading, error := None, false, false, Some(MessageOr(failure, LOGIN_FAILED));
      return Some(failure);
    }

    /** `logout()`: always clears the cookies and signs out. */
    method Logout()
      requires Valid()
      modifies this, jar
      ensures Valid()
      ensures State() == SIGNED_OUT
      ensures jar.Jar() == old(jar.Jar()) - {TOKEN_COOKIE} - {USER_COOKIE}
      ensures GetToken(jar) == None && !HasValidSession(jar, codec)
    {
      ClearAuth(jar, codec);
      user, isAuthenticated, isLoading, error := None, false, false, None;
    }

    /**
     * `checkAuth()`: no valid session signs out and leaves the cookies; a
     * stored user of another role clears them too; otherwise the stored user
     * is authenticated.
     */
    method CheckAuth()
      requires Valid()
      modifies this, jar
      ensures Valid()
      ensures !old(HasValidSession(jar, codec)) ==> State() == SIGNED_OUT && jar.entries == old(jar.entries)
      ensures old(HasValidSession(jar, codec)) && old(HasRole(jar, codec, UNIVERSITAS)) ==>
        State() == AuthState(old(GetUser(jar, codec)), true, false, None) && jar.entries == old(jar.entries)
      ensures old(HasValidSession(jar, codec)) && !old(HasRole(jar, codec, UNIVERSITAS)) ==>
        State() == SIGNED_OUT && jar.Jar() == old(jar.Jar()) - {TOKEN_COOKIE} - {USER_COOKIE}
    {
      if !HasValidSession(jar, codec) {
        user, isAuthenticated, isLoading, error := None, false, false, None;
        return;
      }
      var stored := GetUser(jar, codec);
      if stored.Some? && stored.value.rol == UNIVERSITAS {
        user, isAuthenticated, isLoading, error := stored, true, false, None;
      } else {
        ClearAuth(jar, codec);
        user, isAuthenticated, isLoading, error := None, false, false, None;
      }
    }

    /** `clearError()`: only `error` changes. */
    method ClearError()
      requires Valid()
      modifies this
      ensures Valid()
      ensures State() == old(State()).(error := None)
    {
      error := None;
    }
  }
}

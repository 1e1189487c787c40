/**
 * The `authStorage` facade of src/storage/authStorage.ts over the cookie
 * helpers: two writers that change the jar and four readers that only look
 * at it.
 */
module AuthStorage {
  import opened Wrappers
  import opened Text
  import opened AuthTypes
  import opened Cookies

  /** `getToken()`: the stored non-empty token, read through the cookie helper. */
  function GetToken(jar: CookieJar): (t: Option<string>)
    reads jar
    ensures jar.Valid() ==> t == JarValue(jar.Jar(), TOKEN_COOKIE)
  {
    GetAuthToken(jar)
  }

  /** `getUser()`: the decoded user cookie, read through the cookie helper. */
  function GetUser(jar: CookieJar, codec: UserCodec): (u: Option<User>)
    reads jar
    ensures jar.Valid() ==>
      u == if JarValue(jar.Jar(), USER_COOKIE).Some? then codec.decode(jar.Jar()[USER_COOKIE]) else None
  {
    GetUserSession(jar, codec)
  }

  /**
   * `hasValidSession()`: a truthy token and a user. On a valid jar, a
   * non-empty stored token and a user cookie that decodes; no role is checked.
   */
  predicate HasValidSession(jar: CookieJar, codec: UserCodec)
    reads jar
    ensures jar.Valid() ==> (HasValidSession(jar, codec) <==>
      JarValue(jar.Jar(), TOKEN_COOKIE).Some? && JarValue(jar.Jar(), USER_COOKIE).Some? &&
      codec.decode(jar.Jar()[USER_COOKIE]).Some?)
  {
    var token := GetToken(jar);
    token.Some? && token.value != "" && GetUser(jar, codec).Some?
  }

  /**
   * `hasRole(role)`: `user?.rol === role`. On a valid jar, the stored user
   * cookie decodes to a user of that role; without a user no role holds.
   */
  predicate HasRole(jar: CookieJar, codec: UserCodec, role: string)
    reads jar
    ensures jar.Valid() ==> (HasRole(jar, codec, role) <==>
      JarValue(jar.Jar(), USER_COOKIE).Some? &&
      codec.decode(jar.Jar()[USER_COOKIE]).Some? && codec.decode(jar.Jar()[USER_COOKIE]).value.rol == role)
  {
    match GetUser(jar, codec)
    case None => false
    case Some(u) => u.rol == role
  }

  /** `saveAuth(token, user)`; with a document, the stored token and user read back. */
  method SaveAuth(jar: CookieJar, token: string, user: User, codec: UserCodec, secure: bool)
    requires jar.Valid()
    modifies jar
    ensures jar.Valid()
    ensures !jar.hasDocument ==> jar.entries == old(jar.entries)
    ensures jar.hasDocument ==>
      jar.Jar() == old(jar.Jar())[TOKEN_COOKIE := StoredValue(token)][USER_COOKIE := StoredValue(codec.encode(user))]
    ensures jar.hasDocument && token != "" && ';' !in token && Trimmed(token) ==> GetToken(jar) == Some(token)
    ensures jar.hasDocument && Sound(codec) ==> GetUser(jar, codec) == Some(user)
  {
    SetAuthCookies(jar, token, user, codec, secure);
    if jar.hasDocument {
      var m := jar.Jar();
      assert TOKEN_COOKIE != USER_COOKIE;
      assert m[TOKEN_COOKIE] == StoredValue(token) && m[USER_COOKIE] == StoredValue(codec.encode(user));
      if token != "" && ';' !in token && Trimmed(token) {
        assert StoredValue(token) == token;
        assert JarValue(m, TOKEN_COOKIE) == Some(token);
      }
      if Sound(codec) {
        var e := codec.encode(user);
        assert codec.decode(e) == Some(user) && e != "" && ';' !in e && Trimmed(e);
        assert StoredValue(e) == e;
        assert JarValue(m, USER_COOKIE).Some?;
      }
    }
  }

  /** `clearAuth()`; afterwards there is neither a token nor a valid session. */
  method ClearAuth(jar: CookieJar, codec: UserCodec)
    requires jar.Valid()
    modifies jar
    ensures jar.Valid()
    ensures !jar.hasDocument ==> jar.entries == old(jar.entries)
    ensures jar.Jar() == old(jar.Jar()) - {TOKEN_COOKIE} - {USER_COOKIE}
    ensures GetToken(jar) == None && GetUser(jar, codec) == None
    ensures !HasValidSession(jar, codec)
    ensures forall role :: !HasRole(jar, codec, role)
  {
    ClearAuthCookies(jar);
  }

  /** The cookie helper's active session is the storage's valid session plus the UNIVERSITAS role. */
  lemma ActiveIsValidWithRole(jar: CookieJar, codec: UserCodec)
    ensures HasActiveSession(jar, codec) <==> HasValidSession(jar, codec) && HasRole(jar, codec, UNIVERSITAS)
  {
  }
}

/**
 * The NextAuth callbacks of src/lib/auth/auth.config.ts.
 *
 * `authorized` is a pure decision on the request path and the login state.
 * `jwt` and `session` change the objects they are given and return them, so
 * the token and the session user are classes whose fields those callbacks
 * assign.
 */
module AuthConfig {
  import opened Options

  /** What `authorized` returns: true, false (NextAuth sends the visitor to /login), or a redirect. */
  datatype Decision = Allow | Deny | RedirectDashboard

  datatype AuthUser = AuthUser(id: string, email: string)

  /** The `auth` argument: a session, or null, whose `user` may be missing. */
  datatype Auth = Auth(user: Option<AuthUser>)

  predicate StartsWith(s: string, prefix: string)
  {
    prefix <= s
  }

  /** `!!auth?.user` (auth.config.ts:9). */
  predicate IsLoggedIn(auth: Option<Auth>)
  {
    auth.Some? && auth.value.user.Some?
  }

  /** `isOnDashboard` (auth.config.ts:10-12). */
  predicate IsOnDashboard(pathname: string)
  {
    StartsWith(pathname, "/dashboard") || StartsWith(pathname, "/group")
  }

  /** `isOnAuth` (auth.config.ts:13-15). */
  predicate IsOnAuth(pathname: string)
  {
    StartsWith(pathname, "/login") || StartsWith(pathname, "/signup")
  }

  /** No path is both a protected page and a sign-in page, so the branch order is immaterial. */
  lemma ProtectedAndAuthPagesDisjoint(pathname: string)
    ensures !(IsOnDashboard(pathname) && IsOnAuth(pathname))
  {
    if IsOnDashboard(pathname) {
      assert pathname[1] == 'd' || pathname[1] == 'g';
    }
  }

  /** callbacks.authorized (auth.config.ts:8-27). */
  function Authorized(auth: Option<Auth>, pathname: string): (d: Decision)
    ensures IsOnDashboard(pathname) ==> (d == Allow <==> IsLoggedIn(auth)) && d != RedirectDashboard
    ensures IsOnAuth(pathname) ==> (d == RedirectDashboard <==> IsLoggedIn(auth)) && d != Deny
    ensures !IsOnDashboard(pathname) && !IsOnAuth(pathname) ==> d == Allow
    ensures d == Deny ==> !IsLoggedIn(auth)
    ensures d == RedirectDashboard ==> IsLoggedIn(auth)
  {
    ProtectedAndAuthPagesDisjoint(pathname);
    var isLoggedIn := IsLoggedIn(auth);
    if IsOnDashboard(pathname) then
      if isLoggedIn then Allow else Deny
    else if IsOnAuth(pathname) then
      if isLoggedIn then RedirectDashboard else Allow
    else
      Allow
  }

  /** The match is a plain prefix test: longer words that begin like a protected page are protected too. */
  lemma PrefixMatchIsPlain()
    ensures Authorized(None, "/groups") == Deny
    ensures Authorized(None, "/dashboardx") == Deny
    ensures Authorized(Some(Auth(None)), "/group/abc") == Deny
    ensures Authorized(None, "/loginx") == Allow
    ensures Authorized(None, "/") == Allow && Authorized(None, "/invite/t") == Allow
  {
    assert "/group" <= "/groups";
    assert "/dashboard" <= "/dashboardx";
    assert "/group" <= "/group/abc";
    assert "/login" <= "/loginx";
    assert !("/dashboard" <= "/") && !("/group" <= "/") && !("/login" <= "/") && !("/signup" <= "/");
    var other := "/invite/t";
    assert other[1] == 'i';
    assert "/dashboard"[1] == 'd' && "/group"[1] == 'g' && "/login"[1] == 'l' && "/signup"[1] == 's';
  }

  /** The user object a provider returns on sign-in. */
  datatype User = User(id: string, email: string, name: Option<string>, timezone: string)

  /** The JWT; `claims` stands for every field the callbacks do not touch. */
  class Token {
    var id: Option<string>
    var timezone: Option<string>
    var claims: map<string, string>

    constructor (claims: map<string, string>)
      ensures this.id == None && this.timezone == None && this.claims == claims
    {
      this.id := None;
      this.timezone := None;
      this.claims := claims;
    }
  }

  /** callbacks.jwt (auth.config.ts:28-34): copy id and timezone in on sign-in. */
  method JwtCallback(token: Token, user: Option<User>) returns (r: Token)
    modifies token
    ensures r == token
    ensures user.Some? ==> token.id == Some(user.value.id) && token.timezone == Some(user.value.timezone)
    ensures user.None? ==> token.id == old(token.id) && token.timezone == old(token.timezone)
    ensures token.claims == old(token.claims)
  {
    if user.Some? {
      token.id := Some(user.value.id);
      token.timezone := Some(user.value.timezone);
    }
    return token;
  }

  /**
   * `session.user`. Its id and timezone hold whatever the token held: the
   * `as string` casts at auth.config.ts:37-38 check nothing, so an absent
   * token field stays absent.
   */
  class SessionUser {
    var id: Option<string>
    var timezone: Option<string>
    var email: string

    constructor (email: string)
      ensures this.id == None && this.timezone == None && this.email == email
    {
      this.id := None;
      this.timezone := None;
      this.email := email;
    }
  }

  class Session {
    var user: SessionUser?
    var expires: string

    constructor (user: SessionUser?, expires: string)
      ensures this.user == user && this.expires == expires
    {
      this.user := user;
      this.expires := expires;
    }
  }

  /** callbacks.session (auth.config.ts:35-40): copy id and timezone out of the token. */
  method SessionCallback(session: Session, token: Token?) returns (r: Session)
    modifies if session.user != null then {session.user} else {}
    ensures r == session && session.user == old(session.user)
    ensures token != null && session.user != null ==>
              session.user.id == token.id && session.user.timezone == token.timezone
    ensures token == null && session.user != null ==>
              session.user.id == old(session.user.id) && session.user.timezone == old(session.user.timezone)
    ensures session.user != null ==> session.user.email == old(session.user.email)
  {
    if token != null && session.user != null {
      session.user.id := token.id;
      session.user.timezone := token.timezone;
    }
    return session;
  }
}

/** The request filter that turns an `Authorization` header into an
    authentication (JwtAuthFilter): which paths it skips, the authorities a
    user's roles grant, and the decision `doFilterInternal` takes, as a
    function from the header and the current authentication to the new
    authentication. The token service it calls (JwtService) is not part of
    this model: its two operations are parameters. */
module JwtAuthFilter {
  import opened Wrappers
  import opened JavaText
  import opened Enums
  import opened UserEntity
  import UsersRepository

  /** `shouldNotFilter`: the public path prefixes and the error page. */
  function ShouldNotFilter(path: string): (skip: bool)
    ensures skip ==> |path| >= 6 && path[0] == '/'
  {
    var skip := StartsWith(path, "/auth/") || StartsWith(path, "/oauth2/")
                || StartsWith(path, "/public/") || path == "/error";
    if skip then
      if StartsWith(path, "/auth/") then PrefixChar(path, "/auth/", 0); true
      else if StartsWith(path, "/oauth2/") then PrefixChar(path, "/oauth2/", 0); true
      else if StartsWith(path, "/public/") then PrefixChar(path, "/public/", 0); true
      else true
    else false
  }

  /** The prefixes need their closing slash, and `/error` matches only
      exactly. */
  lemma SkippedPaths()
    ensures ShouldNotFilter("/auth/login") && ShouldNotFilter("/oauth2/callback")
    ensures ShouldNotFilter("/public/products") && ShouldNotFilter("/error")
    ensures !ShouldNotFilter("/auth") && !ShouldNotFilter("/error/") && !ShouldNotFilter("/api/orders")
  {
    assert "/auth/login"[..6] == "/auth/";
    assert "/oauth2/callback"[..8] == "/oauth2/";
    assert "/public/products"[..8] == "/public/";
    NotPrefix("/error/", "/auth/", 1);
    NotPrefix("/error/", "/oauth2/", 1);
    NotPrefix("/error/", "/public/", 1);
    NotPrefix("/api/orders", "/auth/", 2);
    NotPrefix("/api/orders", "/oauth2/", 1);
    NotPrefix("/api/orders", "/public/", 2);
  }

  /** The three public prefixes cover whole subtrees: whatever is appended
      to a skipped path other than `/error` is skipped too. */
  lemma SkipCoversSubtree(path: string, rest: string)
    requires ShouldNotFilter(path) && path != "/error"
    ensures ShouldNotFilter(path + rest)
  {
    var p := path + rest;
    if StartsWith(path, "/auth/") {
      assert p[..6] == path[..6];
    } else if StartsWith(path, "/oauth2/") {
      assert p[..8] == path[..8];
    } else {
      assert p[..8] == path[..8];
    }
  }

  /** Every `/api/` path, and everything below `/error`, goes through the
      filter. */
  lemma ApiAndErrorSubpathsFiltered(path: string, rest: string)
    ensures StartsWith(path, "/api/") ==> !ShouldNotFilter(path)
    ensures rest != [] ==> !ShouldNotFilter("/error" + rest)
  {
    if StartsWith(path, "/api/") {
      PrefixChar(path, "/api/", 1);
      PrefixChar(path, "/api/", 2);
      NotPrefix(path, "/auth/", 2);
      NotPrefix(path, "/oauth2/", 1);
      NotPrefix(path, "/public/", 1);
      assert path != "/error" by { assert path[1] != "/error"[1]; }
    }
    if rest != [] {
      var e := "/error" + rest;
      assert e[1] == 'e' && |e| > 6;
      NotPrefix(e, "/auth/", 1);
      NotPrefix(e, "/oauth2/", 1);
      NotPrefix(e, "/public/", 1);
    }
  }

  /** `ROLE_` followed by the role's constant name. */
  function AuthorityOf(role: Role): (a: string)
    ensures StartsWith(a, "ROLE_") && a[5..] == role.name
  {
    var a := "ROLE_" + role.name;
    assert a[..5] == "ROLE_";
    a
  }

  /** `getAuthorities`: one authority per role. */
  function Authorities(roles: set<Role>): (r: set<string>)
    ensures forall role :: role in roles ==> AuthorityOf(role) in r
    ensures forall a :: a in r ==> StartsWith(a, "ROLE_")
  {
    set role | role in roles :: AuthorityOf(role)
  }

  /** Different roles give different authorities, so there are exactly as
      many authorities as roles. */
  lemma {:induction false} AuthoritiesCount(roles: set<Role>)
    ensures |Authorities(roles)| == |roles|
  {
    if roles != {} {
      var x :| x in roles;
      var rest := roles - {x};
      AuthoritiesCount(rest);
      assert Authorities(roles) == Authorities(rest) + {AuthorityOf(x)};
    }
  }

  /** What the security context holds after authentication: the username
      as principal and the authorities (no credentials). */
  datatype Authentication = Authentication(principal: string, authorities: set<string>)

  /** The end of one filter call: the authentication afterwards, how many
      times the rest of the chain ran, and the exception that escaped, if
      any. */
  datatype FilterOutcome = FilterOutcome(auth: Option<Authentication>, chainCalls: nat, escaped: Option<string>)

  /** `jwtService.extractUserName`: the subject or null, or an exception. */
  type ExtractUserName = string -> Result<Option<string>>

  /** `jwtService.isTokenValid`. */
  type IsTokenValid = (string, User) -> Result<bool>

  /** The body of the `try` block: any exception in it is swallowed and
      leaves the authentication as it was. A lookup that finds several rows
      throws, and is swallowed too. */
  function TryAuthenticate(jwt: string, current: Option<Authentication>, rows: seq<User>,
                           extract: ExtractUserName, valid: IsTokenValid): (r: Option<Authentication>)
    ensures r != current ==>
              current.None? && r.Some? && extract(jwt) == Ok(Some(r.value.principal))
              && var found := UsersRepository.FindByUsername(rows, r.value.principal);
                 found.Found? && valid(jwt, found.row) == Ok(true)
                 && r.value.authorities == Authorities(found.row.roles)
  {
    match extract(jwt)
    case Thrown(_) => current
    case Ok(None) => current
    case Ok(Some(username)) =>
      if current.Some? then current
      else match UsersRepository.FindByUsername(rows, username)
        case Found(user) =>
          if valid(jwt, user) == Ok(true) then Some(Authentication(username, Authorities(user.roles)))
          else current
        case _ => current
  }

  /** `doFilterInternal` as written: a header that DOES start with
      `Bearer ` passes straight down the chain; anything else has its first
      seven characters cut off outside the `try`, which throws for a null or
      short header. */
  function DoFilterInternal(header: Option<string>, current: Option<Authentication>, rows: seq<User>,
                            extract: ExtractUserName, valid: IsTokenValid): (r: FilterOutcome)
    ensures r.escaped.None? <==> r.chainCalls == 1
    ensures r.escaped.Some? ==> r.chainCalls == 0 && r.auth == current
    ensures r.escaped.Some? <==> header.None? || (!StartsWith(header.value, "Bearer ") && |header.value| < 7)
    ensures r.auth != current ==>
              header.Some? && !StartsWith(header.value, "Bearer ") && |header.value| >= 7
              && r.auth == TryAuthenticate(header.value[7..], current, rows, extract, valid)
  {
    if header.Some? && StartsWith(header.value, "Bearer ") then FilterOutcome(current, 1, None)
    else if header.None? then FilterOutcome(current, 0, Some("NullPointerException"))
    else if |header.value| < 7 then FilterOutcome(current, 0, Some("StringIndexOutOfBoundsException"))
    else
      var jwt := header.value[7..];
      FilterOutcome(TryAuthenticate(jwt, current, rows, extract, valid), 1, None)
  }

  /** As written, a well-formed `Bearer` header never authenticates. */
  lemma BearerNeverAuthenticates(token: string, current: Option<Authentication>, rows: seq<User>,
                                 extract: ExtractUserName, valid: IsTokenValid)
    ensures DoFilterInternal(Some("Bearer " + token), current, rows, extract, valid) == FilterOutcome(current, 1, None)
  {
    assert ("Bearer " + token)[..7] == "Bearer ";
  }

  /** The decision as evidently intended: skip unless the header starts
      with `Bearer `, and otherwise read the token after it. */
  function DoFilterIntended(header: Option<string>, current: Option<Authentication>, rows: seq<User>,
                            extract: ExtractUserName, valid: IsTokenValid): (r: FilterOutcome)
    ensures r.escaped.None? && r.chainCalls == 1
    ensures r.auth != current ==>
              header.Some? && StartsWith(header.value, "Bearer ")
              && r.auth == TryAuthenticate(header.value[7..], current, rows, extract, valid)
  {
    if header.None? || !StartsWith(header.value, "Bearer ") then FilterOutcome(current, 1, None)
    else FilterOutcome(TryAuthenticate(header.value[7..], current, rows, extract, valid), 1, None)
  }

  /** With the test the right way round, a `Bearer` token for a known user
      that the token service accepts does authenticate, with the user's
      authorities, where the code as written does not. */
  lemma BearerAuthenticatesIntended(token: string, rows: seq<User>, extract: ExtractUserName, valid: IsTokenValid,
                                    username: string)
    requires extract(token) == Ok(Some(username))
    requires UsersRepository.FindByUsername(rows, username).Found?
    requires valid(token, UsersRepository.FindByUsername(rows, username).row) == Ok(true)
    ensures var user := UsersRepository.FindByUsername(rows, username).row;
            DoFilterIntended(Some("Bearer " + token), None, rows, extract, valid).auth
              == Some(Authentication(username, Authorities(user.roles)))
    ensures DoFilterInternal(Some("Bearer " + token), None, rows, extract, valid).auth == None
  {
    var h := "Bearer " + token;
    assert h[..7] == "Bearer " && h[7..] == token;
  }
}

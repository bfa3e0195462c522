/** Token issuing and revocation (JwtConfig): the claim sets of access and
    refresh tokens, the registered claims `sub`, `iat` and `exp` of section
    4.1 of RFC 7519, the expiry check, and the blacklist kept in the shared
    store. HS256 signing and the parser are opaque: they are passed in as
    functions of the secret. */
module JwtConfig {
  import opened Wrappers
  import opened JavaText
  import opened Enums
  import TtlStore
  import opened UserEntity

  /** The values the service puts into a claims map. */
  datatype ClaimValue =
    | Uid(id: Option<int>)
    | Roles(roles: set<Role>)
    | Provider(provider: AuthProvider)
    | Flag(flag: bool)
    | Str(text: string)
    | NumericDate(seconds: nat)

  type Claims = map<string, ClaimValue>

  /** HS256 over the serialised claims, keyed by the secret. */
  type Signer = (string, Claims) -> string

  /** Parsing and signature check: the claims of a well-formed token signed
      with the secret, `None` when the parser throws. */
  type Parser = (string, string) -> Option<Claims>

  // ---------------------------------------------------------------- claims

  /** The private claims of an access token. */
  function AccessClaims(user: User): Claims
  {
    map["uid" := Uid(user.id),
        "roles" := Roles(user.roles),
        "provider" := Provider(user.authProvider),
        "verified" := Flag(user.emailVerified || user.phoneVerified)]
  }

  /** The private claims of a refresh token. */
  function RefreshClaims(user: User): Claims
  {
    map["uid" := Uid(user.id), "type" := Str("refresh")]
  }

  /** The registered claims `generateToken` adds: the subject (a null
      subject removes it), and the issue and expiry instants, which jjwt
      keeps in whole seconds. */
  function TokenBody(claims: Claims, subject: Option<string>, now: nat, lifetime: nat): Claims
  {
    var withSubject := if subject.Some? then claims["sub" := Str(subject.value)] else claims - {"sub"};
    withSubject["iat" := NumericDate(now / 1000)]["exp" := NumericDate((now + lifetime) / 1000)]
  }

  /** The expiry lies `lifetime` after issue, up to the truncation to whole
      seconds: the `exp` instant is at most `now + lifetime` and less than a
      second before it, and `exp - iat` is `lifetime / 1000` seconds or one
      more. */
  lemma ExpiryAfterLifetime(claims: Claims, subject: Option<string>, now: nat, lifetime: nat)
    ensures var b := TokenBody(claims, subject, now, lifetime);
            "iat" in b && "exp" in b && b["iat"].NumericDate? && b["exp"].NumericDate?
            && b["exp"].seconds * 1000 <= now + lifetime < b["exp"].seconds * 1000 + 1000
            && b["iat"].seconds * 1000 <= now < b["iat"].seconds * 1000 + 1000
            && (b["exp"].seconds - b["iat"].seconds == lifetime / 1000
                || b["exp"].seconds - b["iat"].seconds == lifetime / 1000 + 1)
  {
    var b := TokenBody(claims, subject, now, lifetime);
    var i, e := now / 1000, (now + lifetime) / 1000;
    assert b["iat"] == NumericDate(i) && b["exp"] == NumericDate(e);
    var q, r := lifetime / 1000, lifetime % 1000;
    var nr := now % 1000;
    assert now == i * 1000 + nr && lifetime == q * 1000 + r;
    assert now + lifetime == (i + q) * 1000 + (nr + r);
    if nr + r < 1000 {
      assert e == i + q;
    } else {
      assert now + lifetime == (i + q + 1) * 1000 + (nr + r - 1000);
      assert e == i + q + 1;
    }
  }

  /** Access and refresh tokens differ exactly in their private claims: a
      refresh token says `type = refresh` and carries neither roles nor
      provider nor the verified flag. */
  lemma ClaimSetsDiffer(user: User, now: nat, access: nat, refresh: nat)
    ensures var a := TokenBody(AccessClaims(user), user.username, now, access);
            var r := TokenBody(RefreshClaims(user), user.username, now, refresh);
            a.Keys - r.Keys == {"roles", "provider", "verified"} && r.Keys - a.Keys == {"type"}
            && r["type"] == Str("refresh") && a["uid"] == r["uid"] == Uid(user.id)
            && a["verified"] == Flag(user.emailVerified || user.phoneVerified)
            && (user.username.Some? <==> "sub" in a) && (user.username.Some? <==> "sub" in r)
  {
    var a := TokenBody(AccessClaims(user), user.username, now, access);
    var r := TokenBody(RefreshClaims(user), user.username, now, refresh);
    var common := {"uid", "iat", "exp"} + (if user.username.Some? then {"sub"} else {});
    assert a.Keys == common + {"roles", "provider", "verified"};
    assert r.Keys == common + {"type"};
  }

  // ------------------------------------------------------------- reading

  /** `extractUserName`: the subject, `null` when the token has none; the
      parser's exceptions propagate. */
  function ExtractUserName(parse: Parser, secret: string, token: string): (r: Result<Option<string>>)
    ensures r.Thrown? <==> parse(secret, token).None?
    ensures r.Ok? && r.value.Some? ==>
              "sub" in parse(secret, token).value && parse(secret, token).value["sub"] == Str(r.value.value)
    ensures parse(secret, token).Some? && "sub" in parse(secret, token).value
            && parse(secret, token).value["sub"].Str? ==>
              r == Ok(Some(parse(secret, token).value["sub"].text))
  {
    match parse(secret, token)
    case None => Thrown("JwtException")
    case Some(c) => Ok(if "sub" in c && c["sub"].Str? then Some(c["sub"].text) else None)
  }

  /** `extractExpiration(token).getTime()`: the `exp` instant in
      milliseconds, `null` when the token has none. */
  function ExpirationMs(parse: Parser, secret: string, token: string): (r: Result<Option<nat>>)
    ensures r.Thrown? <==> parse(secret, token).None?
    ensures r.Ok? && r.value.Some? ==>
              var c := parse(secret, token).value;
              "exp" in c && c["exp"].NumericDate? && r.value.value == c["exp"].seconds * 1000
    ensures parse(secret, token).Some? && "exp" in parse(secret, token).value
            && parse(secret, token).value["exp"].NumericDate? ==>
              r == Ok(Some(parse(secret, token).value["exp"].seconds * 1000))
  {
    match parse(secret, token)
    case None => Thrown("JwtException")
    case Some(c) =>
      if "exp" in c && c["exp"].NumericDate? then
        Ok(Some(c["exp"].seconds * 1000))
      else Ok(None)
  }

  /** `isTokenExpired`: the expiry instant is strictly before now; a token
      without `exp` throws `NullPointerException`. */
  function IsTokenExpired(parse: Parser, secret: string, token: string, now: nat): Result<bool>
  {
    match ExpirationMs(parse, secret, token)
    case Thrown(e) => Thrown(e)
    case Ok(None) => Thrown("NullPointerException")
    case Ok(Some(exp)) => Ok(exp < now)
  }

  /** What a signer and parser that invert each other promise: the parser
      returns the claims the token was signed with. */
  predicate RoundTrips(sign: Signer, parse: Parser, secret: string, body: Claims)
  {
    parse(secret, sign(secret, body)) == Some(body)
  }

  /** A token the service issued names its user and is not expired up to
      and including its `exp` instant, and expired after it. */
  lemma IssuedTokenReadsBack(sign: Signer, parse: Parser, secret: string, claims: Claims, user: User, now: nat, lifetime: nat, t: nat)
    requires RoundTrips(sign, parse, secret, TokenBody(claims, user.username, now, lifetime))
    ensures var token := sign(secret, TokenBody(claims, user.username, now, lifetime));
            ExtractUserName(parse, secret, token) == Ok(user.username)
            && (t <= now + lifetime - 999 ==> IsTokenExpired(parse, secret, token, t) == Ok(false))
            && (t > now + lifetime ==> IsTokenExpired(parse, secret, token, t) == Ok(true))
  {
    ExpiryAfterLifetime(claims, user.username, now, lifetime);
  }

  // ------------------------------------------------------------ blacklist

  /** The key `blackListToken` writes: note the space after the colon. */
  function BlacklistWriteKey(token: string): string
  {
    "blackList: " + token
  }

  /** The key `isTokenBlacklisted` looks up. */
  function BlacklistLookupKey(token: string): string
  {
    "blackList:" + token
  }

  /** For one token the two keys differ: the written one is a character
      longer. */
  lemma BlacklistKeysDiffer(token: string)
    ensures BlacklistWriteKey(token) != BlacklistLookupKey(token)
  {
    assert |BlacklistWriteKey(token)| == |BlacklistLookupKey(token)| + 1;
  }

  /** `blackListToken` as a function of the store: when the token parses
      and expires in the future, mark it `revoked` under the written key,
      with the absolute expiry instant used as the time-to-live; a parse
      failure or a missing expiry is logged and swallowed. */
  function BlacklistWrite(st: TtlStore.Store, parse: Parser, secret: string, token: string, now: nat): (r: TtlStore.Store)
    ensures match ExpirationMs(parse, secret, token)
            case Ok(Some(exp)) =>
              if exp > now then r == TtlStore.Put(st, BlacklistWriteKey(token), TtlStore.Text("revoked"), exp, now)
              else r == st
            case _ => r == st
  {
    match ExpirationMs(parse, secret, token)
    case Ok(Some(expiration)) =>
      var ttl := expiration - now;
      if ttl > 0 then TtlStore.Put(st, BlacklistWriteKey(token), TtlStore.Text("revoked"), expiration, now) else st
    case _ => st
  }

  /** `isTokenBlacklisted`: the looked-up key exists (the store's own
      failures, which the method swallows, are not modelled). */
  predicate IsTokenBlacklisted(st: TtlStore.Store, token: string, now: nat)
  {
    TtlStore.Live(st, BlacklistLookupKey(token), now)
  }

  /** Blacklisting a token is never seen by the lookup for that token, at
      any time. */
  lemma BlacklistInvisible(st: TtlStore.Store, parse: Parser, secret: string, token: string, now: nat, t: nat)
    ensures IsTokenBlacklisted(BlacklistWrite(st, parse, secret, token, now), token, t) == IsTokenBlacklisted(st, token, t)
  {
    BlacklistKeysDiffer(token);
  }

  /** The validity check of lines 130-135 as written: subject matches, not
      expired, AND blacklisted. A null subject throws on `equals`. */
  function TokenValidAsWritten(st: TtlStore.Store, parse: Parser, secret: string, token: string, user: User, now: nat): (r: Result<bool>)
    ensures r == Ok(true) ==> IsTokenBlacklisted(st, token, now)
    ensures r == Ok(true) <==>
              ExtractUserName(parse, secret, token) == Ok(user.username) && user.username.Some?
              && IsTokenExpired(parse, secret, token, now) == Ok(false) && IsTokenBlacklisted(st, token, now)
  {
    match ExtractUserName(parse, secret, token)
    case Thrown(e) => Thrown(e)
    case Ok(None) => Thrown("NullPointerException")
    case Ok(Some(name)) =>
      if Some(name) != user.username then Ok(false)
      else match IsTokenExpired(parse, secret, token, now)
        case Thrown(e) => Thrown(e)
        case Ok(true) => Ok(false)
        case Ok(false) => Ok(IsTokenBlacklisted(st, token, now))
  }

  /** As written, blacklisting a token that was not already under the
      looked-up key leaves it invalid: it is never accepted, before or after
      `blackListToken`. */
  lemma NeverValidAsWritten(st: TtlStore.Store, parse: Parser, secret: string, token: string, user: User, now: nat, t: nat)
    requires !IsTokenBlacklisted(st, token, t)
    ensures TokenValidAsWritten(st, parse, secret, token, user, t) != Ok(true)
    ensures TokenValidAsWritten(BlacklistWrite(st, parse, secret, token, now), parse, secret, token, user, t) != Ok(true)
  {
    BlacklistInvisible(st, parse, secret, token, now, t);
  }

  // --------------------------------------------- the evidently intended

  /** `blackListToken` as evidently intended: the key the lookup uses, kept
      for the token's remaining lifetime. */
  function BlacklistWriteIntended(st: TtlStore.Store, parse: Parser, secret: string, token: string, now: nat): (r: TtlStore.Store)
    ensures match ExpirationMs(parse, secret, token)
            case Ok(Some(exp)) =>
              if exp > now then r == TtlStore.Put(st, BlacklistLookupKey(token), TtlStore.Text("revoked"), exp - now, now)
              else r == st
            case _ => r == st
  {
    match ExpirationMs(parse, secret, token)
    case Ok(Some(expiration)) =>
      var ttl := expiration - now;
      if ttl > 0 then TtlStore.Put(st, BlacklistLookupKey(token), TtlStore.Text("revoked"), ttl, now) else st
    case _ => st
  }

  /** The validity check as evidently intended: subject matches, not
      expired, and NOT blacklisted. */
  function TokenValid(st: TtlStore.Store, parse: Parser, secret: string, token: string, user: User, now: nat): (r: Result<bool>)
    ensures r == Ok(true) <==>
              ExtractUserName(parse, secret, token) == Ok(user.username) && user.username.Some?
              && IsTokenExpired(parse, secret, token, now) == Ok(false) && !IsTokenBlacklisted(st, token, now)
  {
    match ExtractUserName(parse, secret, token)
    case Thrown(e) => Thrown(e)
    case Ok(None) => Thrown("NullPointerException")
    case Ok(Some(name)) =>
      if Some(name) != user.username then Ok(false)
      else match IsTokenExpired(parse, secret, token, now)
        case Thrown(e) => Thrown(e)
        case Ok(true) => Ok(false)
        case Ok(false) => Ok(!IsTokenBlacklisted(st, token, now))
  }

  /** With both corrections a revoked token stays blacklisted until its own
      expiry and is never accepted again. */
  lemma RevocationTakesEffect(st: TtlStore.Store, parse: Parser, secret: string, token: string, user: User, now: nat, t: nat)
    requires var e := ExpirationMs(parse, secret, token); e.Ok? && e.value.Some? && now < e.value.value
    requires now <= t
    ensures var after := BlacklistWriteIntended(st, parse, secret, token, now);
            (t <= ExpirationMs(parse, secret, token).value.value ==> IsTokenBlacklisted(after, token, t))
            && TokenValid(after, parse, secret, token, user, t) != Ok(true)
  {
    var exp := ExpirationMs(parse, secret, token).value.value;
    var after := BlacklistWriteIntended(st, parse, secret, token, now);
    assert after[BlacklistLookupKey(token)].deadline == exp;
    if t > exp {
      assert IsTokenExpired(parse, secret, token, t) == Ok(true);
    }
  }

  // ------------------------------------------------------------- service

  /** The service object: its settings, the shared store, and the secret
      that `init` re-encodes after injection. */
  class JwtConfig {
    var jwtSecret: string
    const accessTokenExpiration: nat
    const refreshTokenExpiration: nat
    const redis: TtlStore.Redis

    constructor (jwtSecret: string, accessTokenExpiration: nat, refreshTokenExpiration: nat, redis: TtlStore.Redis)
      ensures this.jwtSecret == jwtSecret && this.redis == redis
      ensures this.accessTokenExpiration == accessTokenExpiration
      ensures this.refreshTokenExpiration == refreshTokenExpiration
    {
      this.jwtSecret := jwtSecret;
      this.accessTokenExpiration := accessTokenExpiration;
      this.refreshTokenExpiration := refreshTokenExpiration;
      this.redis := redis;
    }

    /** `init`: replace the secret by the Base64 text of its bytes (the
        encoder is a parameter). */
    method Init(base64: string -> string)
      modifies this
      ensures jwtSecret == base64(old(jwtSecret))
    {
      jwtSecret := base64(jwtSecret);
    }

    /** `generateToken`: sign the claims with the subject and the two
        instants added. */
    method GenerateToken(claims: Claims, username: Option<string>, expiration: nat, now: nat, sign: Signer) returns (token: string)
      ensures token == sign(jwtSecret, TokenBody(claims, username, now, expiration))
    {
      var body := claims;
      if username.Some? {
        body := body["sub" := Str(username.value)];
      } else {
        body := body - {"sub"};
      }
      body := body["iat" := NumericDate(now / 1000)];
      body := body["exp" := NumericDate((now + expiration) / 1000)];
      token := sign(jwtSecret, body);
    }

    /** `generateAccessToken`: the claims map filled entry by entry. */
    method GenerateAccessToken(user: User, now: nat, sign: Signer) returns (token: string)
      ensures token == sign(jwtSecret, TokenBody(AccessClaims(user), user.username, now, accessTokenExpiration))
    {
      var claims: Claims := map[];
      claims := claims["uid" := Uid(user.id)];
      claims := claims["roles" := Roles(user.roles)];
      claims := claims["provider" := Provider(user.authProvider)];
      claims := claims["verified" := Flag(user.emailVerified || user.phoneVerified)];
      token := GenerateToken(claims, user.username, accessTokenExpiration, now, sign);
    }

    /** `generateRefreshToken`. */
    method GenerateRefreshToken(user: User, now: nat, sign: Signer) returns (token: string)
      ensures token == sign(jwtSecret, TokenBody(RefreshClaims(user), user.username, now, refreshTokenExpiration))
    {
      var claims: Claims := map[];
      claims := claims["uid" := Uid(user.id)];
      claims := claims["type" := Str("refresh")];
      token := GenerateToken(claims, user.username, refreshTokenExpiration, now, sign);
    }

    /** `blackListToken`. */
    method BlackListToken(token: string, now: nat, parse: Parser)
      modifies redis
      ensures redis.entries == BlacklistWrite(old(redis.entries), parse, jwtSecret, token, now)
    {
      var expiration := ExpirationMs(parse, jwtSecret, token);
      if expiration.Ok? && expiration.value.Some? {
        var ttl := expiration.value.value - now;
        if ttl > 0 {
          redis.Set(BlacklistWriteKey(token), TtlStore.Text("revoked"), expiration.value.value, now);
        }
      }
    }
  }
}

/** The `users` entity: its fields, the defaults its constructors give, the
    pre-update hook, and the username-kind predicates. Times are instants in
    milliseconds. */
module UserEntity {
  import opened Wrappers
  import opened JavaText
  import opened Enums

  datatype User = User(
    id: Option<int>,
    username: Option<string>,
    email: Option<string>,
    phoneNumber: Option<string>,
    password: Option<string>,
    roles: set<Role>,
    authProvider: AuthProvider,
    providerId: Option<string>,
    emailVerified: bool,
    phoneVerified: bool,
    idValid: bool,
    createdAt: nat,
    updatedAt: nat,
    lastLoginAt: nat,
    status: Status)

  /** `new Users()`: every field initialiser applies. */
  function NoArgs(now: nat): (u: User)
    ensures u.roles == {Customer} && u.authProvider == Local && u.status == Offline
    ensures !u.emailVerified && !u.phoneVerified && u.idValid
    ensures u.createdAt == u.updatedAt == u.lastLoginAt == now
    ensures u.id.None? && u.username.None? && u.email.None? && u.phoneNumber.None?
  {
    User(None, None, None, None, None, {Customer}, Local, None, false, false, true, now, now, now, Offline)
  }

  /** `Users.builder()...build()` with no field set: only initialisers marked
      `@Builder.Default` apply; `idValid` has none, so it falls back to the
      Java default `false`. */
  function BuilderDefaults(now: nat): (u: User)
    ensures u.roles == {Customer} && u.authProvider == Local && u.status == Offline
    ensures !u.emailVerified && !u.phoneVerified
    ensures u.createdAt == u.updatedAt == u.lastLoginAt == now
  {
    NoArgs(now).(idValid := false)
  }

  /** The builder and the no-argument constructor disagree on `idValid` and
      on nothing else. */
  lemma BuilderDropsIdValid(now: nat)
    ensures NoArgs(now).idValid && !BuilderDefaults(now).idValid
    ensures BuilderDefaults(now).(idValid := true) == NoArgs(now)
  {
  }

  /** `idValid = true` with the `@Builder.Default` the other initialisers
      carry. */
  function BuilderDefaultsIntended(now: nat): (u: User)
    ensures u == NoArgs(now)
  {
    BuilderDefaults(now).(idValid := true)
  }

  /** `isEmailUser`: a non-null username holding `@`. */
  predicate IsEmailUser(u: User)
  {
    u.username.Some? && '@' in u.username.value
  }

  /** `^\+?[1-9]\d{1,14}$`: an optional `+`, a non-zero digit, then one to
      fourteen digits. */
  predicate E164Shaped(s: string)
  {
    var digits := if |s| > 0 && s[0] == '+' then s[1..] else s;
    2 <= |digits| <= 15 && '1' <= digits[0] <= '9' && AllDigits(digits)
  }

  /** `isPhoneUser`. */
  predicate IsPhoneUser(u: User)
  {
    u.username.Some? && E164Shaped(u.username.value)
  }

  /** An E.164-shaped username is 2 to 16 characters of `+` and digits with
      no `@`, so no user is both an e-mail user and a phone user. */
  lemma E164ShapedChars(s: string)
    requires E164Shaped(s)
    ensures 2 <= |s| <= 16 && AllPlusOrDigit(s) && '@' !in s
  {
    var digits := if |s| > 0 && s[0] == '+' then s[1..] else s;
    assert forall i :: 0 <= i < |digits| ==> IsDigit(digits[i]);
    if |s| > 0 && s[0] == '+' {
      assert forall i :: 1 <= i < |s| ==> s[i] == digits[i - 1];
    }
  }

  lemma NeverEmailAndPhone(u: User)
    ensures !(IsEmailUser(u) && IsPhoneUser(u))
  {
    if IsPhoneUser(u) {
      E164ShapedChars(u.username.value);
    }
  }

  /** A mutable managed `Users` instance, as the persistence layer holds it. */
  class ManagedUser {
    var state: User

    constructor (u: User)
      ensures state == u
    {
      state := u;
    }

    /** `@PreUpdate onUpdate`: stamps `updatedAt` and changes nothing else. */
    method OnUpdate(now: nat)
      modifies this
      ensures state == old(state).(updatedAt := now)
    {
      state := state.(updatedAt := now);
    }
  }
}

/** The `user_tokens` entity: a stored refresh-token hash with its expiry
    and revocation flag. */
module TokenEntity {
  import opened Wrappers

  datatype Token = Token(
    id: Option<int>,
    userId: int,
    refreshTokenHash: string,
    ip: Option<string>,
    createAt: Option<nat>,
    expiresAt: nat,
    revoked: bool)

  /** `new Token()`: `createAt` is the current instant, `revoked` is false. */
  function NoArgs(userId: int, hash: string, expiresAt: nat, now: nat): (t: Token)
    ensures t.createAt == Some(now) && !t.revoked && t.expiresAt == expiresAt
  {
    Token(None, userId, hash, None, Some(now), expiresAt, false)
  }

  /** `Token.builder()...build()`: neither initialiser carries
      `@Builder.Default`, so `createAt` starts null (the creation-timestamp
      hook fills it on insert) and `revoked` false. */
  function Built(userId: int, hash: string, ip: Option<string>, expiresAt: nat): (t: Token)
    ensures t.createAt.None? && !t.revoked && t.expiresAt == expiresAt && t.userId == userId
  {
    Token(None, userId, hash, ip, None, expiresAt, false)
  }

  /** `isExpired`: the current instant is strictly after `expiresAt`. */
  predicate IsExpired(t: Token, now: nat)
  {
    now > t.expiresAt
  }

  /** `isActive`: neither revoked nor expired. */
  predicate IsActive(t: Token, now: nat)
  {
    !t.revoked && !IsExpired(t, now)
  }

  /** A token is still active at the instant it expires, and not after. */
  lemma ActiveUntilExpiry(t: Token, now: nat)
    requires !t.revoked
    ensures IsActive(t, now) <==> now <= t.expiresAt
    ensures IsActive(t, t.expiresAt) && !IsActive(t, t.expiresAt + 1)
  {
  }

  lemma RevokedNeverActive(t: Token, now: nat)
    requires t.revoked
    ensures !IsActive(t, now)
  {
  }

  /** Activity only ever ends: a token active at some instant was active at
      every earlier one. */
  lemma ActiveEarlier(t: Token, earlier: nat, later: nat)
    requires earlier <= later && IsActive(t, later)
    ensures IsActive(t, earlier)
  {
  }
}

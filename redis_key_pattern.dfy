/** The key-naming scheme of the ephemeral store (RedisKetPattern): fixed
    `String.format` patterns and one builder per pattern. */
module RedisKeyPattern {
  import opened JavaText

  const OtpKeyPattern := "OTP:%s:%s"
  const OtpAttemptsPattern := "OTP_ATTEMPTS:%s:%s"
  const OtpBlockPattern := "OTP_BLOCK:%s"
  const RateLimitLoginPattern := "RATE_LIMIT:LOGIN:%s"
  const RateLimitOtpSendPattern := "RATE_LIMIT:OTP_SEND:%s"
  const RateLimitRegisterPattern := "RATE_LIMIT:REGISTER:%s"
  const RateLimitPasswordResetPattern := "RATE_LIMIT:PASSWORD_RESET:%s"
  const BlacklistTokenPattern := "BLACKLIST_TOKEN:%s"
  const BlacklistRefreshTokenPattern := "BLACKLIST_REFRESH:%s"
  const UserSessionPattern := "USER_SESSION:%s"
  const UserDevicePattern := "USER_DEVICE:%s:%s"
  const OtpResendCooldownPattern := "OTP_RESEND:%s:%s"
  const OtpResendCountPattern := "OTP_RESEND_COUNT:%s:%s"
  const ChallengePattern := "CHALLENGE:%s"

  /** The patterns that have a builder. */
  datatype KeyKind =
    | Otp | OtpAttempts | OtpBlock
    | RateLimitLogin | RateLimitOtpSend | RateLimitRegister
    | BlacklistToken | UserSession
    | OtpResendCooldown | OtpResendCount | Challenge

  function PatternOf(k: KeyKind): string
  {
    match k
    case Otp => OtpKeyPattern
    case OtpAttempts => OtpAttemptsPattern
    case OtpBlock => OtpBlockPattern
    case RateLimitLogin => RateLimitLoginPattern
    case RateLimitOtpSend => RateLimitOtpSendPattern
    case RateLimitRegister => RateLimitRegisterPattern
    case BlacklistToken => BlacklistTokenPattern
    case UserSession => UserSessionPattern
    case OtpResendCooldown => OtpResendCooldownPattern
    case OtpResendCount => OtpResendCountPattern
    case Challenge => ChallengePattern
  }

  /** The fixed text in front of the first `%s` of each pattern. */
  function Lead(k: KeyKind): string
  {
    match k
    case Otp => "OTP:"
    case OtpAttempts => "OTP_ATTEMPTS:"
    case OtpBlock => "OTP_BLOCK:"
    case RateLimitLogin => "RATE_LIMIT:LOGIN:"
    case RateLimitOtpSend => "RATE_LIMIT:OTP_SEND:"
    case RateLimitRegister => "RATE_LIMIT:REGISTER:"
    case BlacklistToken => "BLACKLIST_TOKEN:"
    case UserSession => "USER_SESSION:"
    case OtpResendCooldown => "OTP_RESEND:"
    case OtpResendCount => "OTP_RESEND_COUNT:"
    case Challenge => "CHALLENGE:"
  }

  /** How many `%s` directives the pattern has: one key part or two. */
  function Arity(k: KeyKind): nat
  {
    if k in {Otp, OtpAttempts, OtpResendCooldown, OtpResendCount} then 2 else 1
  }

  /** The key a pattern yields for its arguments: the lead, then the
      arguments separated by `:`. */
  function Key(k: KeyKind, args: seq<string>): string
    requires |args| == Arity(k)
  {
    if |args| == 1 then Lead(k) + args[0] else Lead(k) + args[0] + ":" + args[1]
  }

  /** Every key starts with its pattern's fixed lead and ends with the last
      argument. */
  lemma KeyShape(k: KeyKind, args: seq<string>)
    requires |args| == Arity(k)
    ensures StartsWith(Key(k, args), Lead(k))
    ensures EndsWith(Key(k, args), args[|args| - 1])
  {
    var key, lead, last := Key(k, args), Lead(k), args[|args| - 1];
    if |args| == 1 {
      assert key == lead + last;
    } else {
      assert key == (lead + args[0] + ":") + last;
    }
    assert key[..|lead|] == lead;
  }

  /** `String.format("OTP:%s:%s", username, purpose)`. */
  function BuildOtpKey(username: string, purpose: string): (key: string)
    ensures key == "OTP:" + username + ":" + purpose
    ensures key == Key(Otp, [username, purpose])
  {
    FormatTwo("OTP:", ":", "", username, purpose);
    assert OtpKeyPattern == "OTP:" + "%s" + ":" + "%s" + "";
    Format(OtpKeyPattern, [username, purpose])
  }

  function BuildOtpAttemptsKey(username: string, purpose: string): (key: string)
    ensures key == "OTP_ATTEMPTS:" + username + ":" + purpose
    ensures key == Key(OtpAttempts, [username, purpose])
  {
    FormatTwo("OTP_ATTEMPTS:", ":", "", username, purpose);
    assert OtpAttemptsPattern == "OTP_ATTEMPTS:" + "%s" + ":" + "%s" + "";
    Format(OtpAttemptsPattern, [username, purpose])
  }

  /** The block key takes no purpose: one key per user, whatever the purpose. */
  function BuildOtpBlockKey(username: string): (key: string)
    ensures key == "OTP_BLOCK:" + username
    ensures key == Key(OtpBlock, [username])
  {
    FormatOne("OTP_BLOCK:", username);
    assert OtpBlockPattern == "OTP_BLOCK:" + "%s";
    Format(OtpBlockPattern, [username])
  }

  function BuildRateLimitLoginKey(username: string): (key: string)
    ensures key == "RATE_LIMIT:LOGIN:" + username
    ensures key == Key(RateLimitLogin, [username])
  {
    FormatOne("RATE_LIMIT:LOGIN:", username);
    assert RateLimitLoginPattern == "RATE_LIMIT:LOGIN:" + "%s";
    Format(RateLimitLoginPattern, [username])
  }

  function BuildRateLimitOtpSendKey(username: string): (key: string)
    ensures key == "RATE_LIMIT:OTP_SEND:" + username
    ensures key == Key(RateLimitOtpSend, [username])
  {
    FormatOne("RATE_LIMIT:OTP_SEND:", username);
    assert RateLimitOtpSendPattern == "RATE_LIMIT:OTP_SEND:" + "%s";
    Format(RateLimitOtpSendPattern, [username])
  }

  function BuildRateLimitRegisterKey(ip: string): (key: string)
    ensures key == "RATE_LIMIT:REGISTER:" + ip
    ensures key == Key(RateLimitRegister, [ip])
  {
    FormatOne("RATE_LIMIT:REGISTER:", ip);
    assert RateLimitRegisterPattern == "RATE_LIMIT:REGISTER:" + "%s";
    Format(RateLimitRegisterPattern, [ip])
  }

  function BuildBlacklistTokenKey(jti: string): (key: string)
    ensures key == "BLACKLIST_TOKEN:" + jti
    ensures key == Key(BlacklistToken, [jti])
  {
    FormatOne("BLACKLIST_TOKEN:", jti);
    assert BlacklistTokenPattern == "BLACKLIST_TOKEN:" + "%s";
    Format(BlacklistTokenPattern, [jti])
  }

  function BuildUserSessionKey(userId: string): (key: string)
    ensures key == "USER_SESSION:" + userId
    ensures key == Key(UserSession, [userId])
  {
    FormatOne("USER_SESSION:", userId);
    assert UserSessionPattern == "USER_SESSION:" + "%s";
    Format(UserSessionPattern, [userId])
  }

  function BuildOtpResendCooldownKey(username: string, purpose: string): (key: string)
    ensures key == "OTP_RESEND:" + username + ":" + purpose
    ensures key == Key(OtpResendCooldown, [username, purpose])
  {
    FormatTwo("OTP_RESEND:", ":", "", username, purpose);
    assert OtpResendCooldownPattern == "OTP_RESEND:" + "%s" + ":" + "%s" + "";
    Format(OtpResendCooldownPattern, [username, purpose])
  }

  function BuildOtpResendCountKey(username: string, purpose: string): (key: string)
    ensures key == "OTP_RESEND_COUNT:" + username + ":" + purpose
    ensures key == Key(OtpResendCount, [username, purpose])
  {
    FormatTwo("OTP_RESEND_COUNT:", ":", "", username, purpose);
    assert OtpResendCountPattern == "OTP_RESEND_COUNT:" + "%s" + ":" + "%s" + "";
    Format(OtpResendCountPattern, [username, purpose])
  }

  function BuildChallengeKey(challengeId: string): (key: string)
    ensures key == "CHALLENGE:" + challengeId
    ensures key == Key(Challenge, [challengeId])
  {
    FormatOne("CHALLENGE:", challengeId);
    assert ChallengePattern == "CHALLENGE:" + "%s";
    Format(ChallengePattern, [challengeId])
  }

  /** No lead is a prefix of another: they part ways at a common index. */
  lemma LeadsDiverge(k1: KeyKind, k2: KeyKind)
    requires k1 != k2
    ensures exists i :: 0 <= i < |Lead(k1)| && i < |Lead(k2)| && Lead(k1)[i] != Lead(k2)[i]
  {
    var a, b := Lead(k1), Lead(k2);
    if a[0] != b[0] {
    } else if a[1] != b[1] {
    } else if a[2] != b[2] {
    } else if a[3] != b[3] {
    } else if a[4] != b[4] {
    } else if a[10] != b[10] {
    } else {
      assert a[11] != b[11];
    }
  }

  /** Key namespaces are disjoint: two different builders never produce the
      same key, whatever their arguments. */
  lemma NamespacesDisjoint(k1: KeyKind, k2: KeyKind, args1: seq<string>, args2: seq<string>)
    requires k1 != k2 && |args1| == Arity(k1) && |args2| == Arity(k2)
    ensures Key(k1, args1) != Key(k2, args2)
  {
    LeadsDiverge(k1, k2);
    var i :| 0 <= i < |Lead(k1)| && i < |Lead(k2)| && Lead(k1)[i] != Lead(k2)[i];
    KeyShape(k1, args1);
    KeyShape(k2, args2);
    assert Key(k1, args1)[i] == Key(k1, args1)[..|Lead(k1)|][i];
    assert Key(k2, args2)[i] == Key(k2, args2)[..|Lead(k2)|][i];
  }

  /** The login, OTP-send and registration rate-limit keys for the same
      argument are pairwise different. */
  lemma RateLimitKeysDiffer(x: string)
    ensures BuildRateLimitLoginKey(x) != BuildRateLimitOtpSendKey(x)
    ensures BuildRateLimitLoginKey(x) != BuildRateLimitRegisterKey(x)
    ensures BuildRateLimitOtpSendKey(x) != BuildRateLimitRegisterKey(x)
  {
    NamespacesDisjoint(RateLimitLogin, RateLimitOtpSend, [x], [x]);
    NamespacesDisjoint(RateLimitLogin, RateLimitRegister, [x], [x]);
    NamespacesDisjoint(RateLimitOtpSend, RateLimitRegister, [x], [x]);
  }

  /** The OTP key determines the (username, purpose) pair it was built from
      as long as purposes contain no `:` (an enum constant's name never does). */
  lemma OtpKeyInjective(u1: string, p1: string, u2: string, p2: string)
    requires ':' !in p1 && ':' !in p2
    requires BuildOtpKey(u1, p1) == BuildOtpKey(u2, p2)
    ensures u1 == u2 && p1 == p2
  {
    assert "OTP:" + u1 + ":" + p1 == ("OTP:" + u1) + [':'] + p1;
    assert "OTP:" + u2 + ":" + p2 == ("OTP:" + u2) + [':'] + p2;
    SplitAtLast("OTP:" + u1, p1, "OTP:" + u2, p2, ':');
    assert u1 == ("OTP:" + u1)[4..];
    assert u2 == ("OTP:" + u2)[4..];
  }
}

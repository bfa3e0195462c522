/** The OTP challenge engine as functions of the store: the identifier
    normalisation and key names, the send gate, and the effect of a send and
    of a verification attempt. The `OtpService` class performs these effects
    step by step; the lemmas here state what they guarantee. */
module OtpLogic {
  import opened Wrappers
  import opened JavaText
  import opened Enums
  import opened TtlStore
  import SmsService
  import PasswordPolicy
  import RegisterRequest

  /** The `app.otp.*` settings, durations in milliseconds. */
  datatype OtpConfig = OtpConfig(
    expiration: nat,
    maxAttempts: int,
    blockDuration: nat,
    resendLimit: int,
    resendWindow: nat,
    cooldown: nat)

  /** The store refuses a write whose time-to-live is not positive, so the
      three durations used as one must be positive. */
  predicate ConfigValid(cfg: OtpConfig)
  {
    cfg.expiration > 0 && cfg.blockDuration > 0 && cfg.resendWindow > 0
  }

  /** How long a used record is kept for audit: five seconds. */
  const AuditTtl: nat := 5000

  /** `isEmail`: non-null and holding `@`. */
  predicate IsEmail(username: Option<string>)
  {
    username.Some? && '@' in username.value
  }

  /** `normalizationUserName`: `""` for null; a trimmed e-mail in lower case;
      anything else reduced to its `+` and digit characters. */
  function NormalizationUserName(username: Option<string>): string
  {
    if username.None? then ""
    else
      var trimmed := Trim(username.value);
      if IsEmail(Some(trimmed)) then ToLower(trimmed) else KeepPlusDigits(trimmed)
  }

  /** The three cases of the normal form; `@` survives trimming and lower
      casing, so an e-mail stays an e-mail. */
  lemma NormalizationCases(username: Option<string>)
    ensures var n := NormalizationUserName(username);
            (username.None? ==> n == "")
            && (IsEmail(username) ==> n == ToLower(Trim(username.value)) && '@' in n)
            && (username.Some? && !IsEmail(username) ==>
                  n == KeepPlusDigits(Trim(username.value)) && AllPlusOrDigit(n))
  {
    if username.Some? {
      var trimmed := Trim(username.value);
      TrimKeeps(username.value, '@');
      if '@' in trimmed {
        ToLowerKeepsAt(trimmed);
      }
    }
  }

  /** Normalising twice is normalising once. */
  lemma NormalizationIdempotent(username: Option<string>)
    ensures var n := NormalizationUserName(username);
            NormalizationUserName(Some(n)) == n
  {
    if IsEmail(username) {
      EmailNormalFixed(Trim(username.value));
    } else if username.Some? {
      PhoneNormalFixed(NormalizationUserName(username));
    }
  }

  lemma EmailNormalFixed(t: string)
    requires '@' in t && !IsWhite(t[0]) && !IsWhite(t[|t| - 1])
    ensures NormalizationUserName(Some(ToLower(t))) == ToLower(t)
  {
    var n := ToLower(t);
    assert n[0] == LowerChar(t[0]) && n[|n| - 1] == LowerChar(t[|t| - 1]);
    TrimFixed(n);
    ToLowerKeepsAt(t);
    ToLowerIdempotent(t);
  }

  lemma PhoneNormalFixed(n: string)
    requires AllPlusOrDigit(n)
    ensures NormalizationUserName(Some(n)) == n
  {
    NoWhiteNoAt(n);
    assert Trim(n) == n;
    KeepPlusDigitsFixed(n);
  }

  /** Case and surrounding white space do not matter for an e-mail. */
  const OtpKeyPattern := "otp:%s:%s"
  const ResendKeyPattern := "otp_resend:%s:%s"
  const BlockKeyPattern := "otp_block:%s:%s"

  /** The layout shared by the three patterns: a fixed lead, the normalised
      username, `:`, the purpose. */
  lemma KeyLayout(lead: string, n: string, name: string)
    requires '%' !in lead
    ensures Directives(lead + "%s:%s") == 2
    ensures Format(lead + "%s:%s", [n, name]) == lead + n + ":" + name
    ensures StartsWith(lead + n + ":" + name, lead)
  {
    FormatTwo(lead, ":", "", n, name);
    assert lead + "%s:%s" == lead + "%s" + ":" + "%s" + "";
    assert (lead + n + ":" + name)[..|lead|] == lead;
  }

  /** `buildOtpKey`: `String.format("otp:%s:%s", id, purpose)` where `id` is
      the normalised username. Its family shows in characters 0 and 3. */
  function OtpKey(id: string, purpose: OtpPurpose): (key: string)
    ensures IsOtpKey(key) && !IsResendKey(key)
  {
    var key := "otp:" + id + ":" + purpose.name;
    assert StartsWith(key, "otp:") by { assert key[..4] == "otp:"; }
    PrefixChar(key, "otp:", 0);
    PrefixChar(key, "otp:", 3);
    key
  }

  /** `buildResendKey`: `String.format("otp_resend:%s:%s", id, purpose)`. */
  function ResendKey(id: string, purpose: OtpPurpose): (key: string)
    ensures IsResendKey(key) && !IsOtpKey(key)
  {
    var key := "otp_resend:" + id + ":" + purpose.name;
    assert StartsWith(key, "otp_resend:") by { assert key[..11] == "otp_resend:"; }
    PrefixChar(key, "otp_resend:", 0);
    PrefixChar(key, "otp_resend:", 3);
    PrefixChar(key, "otp_resend:", 4);
    key
  }

  /** `buildBlockKey`: `String.format("otp_block:%s:%s", id, purpose)`. */
  function BlockKey(id: string, purpose: OtpPurpose): (key: string)
    ensures !IsOtpKey(key) && !IsResendKey(key)
  {
    var key := "otp_block:" + id + ":" + purpose.name;
    assert StartsWith(key, "otp_block:") by { assert key[..10] == "otp_block:"; }
    PrefixChar(key, "otp_block:", 3);
    PrefixChar(key, "otp_block:", 4);
    key
  }

  /** The keys spelled out: a lead naming the family, the normalised
      username, `:`, the purpose's constant name. */
  lemma OtpKeySpelling(id: string, purpose: OtpPurpose)
    ensures Directives(OtpKeyPattern) == 2
    ensures OtpKey(id, purpose) == Format(OtpKeyPattern, [id, purpose.name])
  {
    KeyLayout("otp:", id, purpose.name);
    assert OtpKeyPattern == "otp:" + "%s:%s";
  }

  lemma ResendKeySpelling(id: string, purpose: OtpPurpose)
    ensures Directives(ResendKeyPattern) == 2
    ensures ResendKey(id, purpose) == Format(ResendKeyPattern, [id, purpose.name])
  {
    KeyLayout("otp_resend:", id, purpose.name);
    assert ResendKeyPattern == "otp_resend:" + "%s:%s";
  }

  lemma BlockKeySpelling(id: string, purpose: OtpPurpose)
    ensures Directives(BlockKeyPattern) == 2
    ensures BlockKey(id, purpose) == Format(BlockKeyPattern, [id, purpose.name])
  {
    KeyLayout("otp_block:", id, purpose.name);
    assert BlockKeyPattern == "otp_block:" + "%s:%s";
  }

  /** The key families: `otp:` and `otp_` part at index 3, `otp_resend:`
      and `otp_block:` at index 4. */
  predicate IsOtpKey(k: string) { |k| >= 4 && k[0] == 'o' && k[3] == ':' }

  predicate IsResendKey(k: string) { |k| >= 11 && k[0] == 'o' && k[3] == '_' && k[4] == 'r' }

  /** Keys written by other services (`OTP:` copies of codes, blacklist
      markers) start with another character, so they are in neither family. */
  lemma ForeignKey(k: string)
    requires |k| > 0 && k[0] != 'o'
    ensures !IsOtpKey(k) && !IsResendKey(k)
  {
  }

  /** Every `otp:` entry holds an OTP record, and an unused one lives
      exactly until its own `expiresAt`; every `otp_resend:` entry holds a
      resend tracker. So the casts in the service never fail. */
  predicate Invariant(st: Store)
  {
    (forall k {:trigger IsOtpKey(k), st[k]} :: k in st && IsOtpKey(k) ==>
       st[k].value.Challenge? && (!st[k].value.data.used ==> st[k].deadline == st[k].value.data.expiresAt))
    && (forall k {:trigger IsResendKey(k), st[k]} :: k in st && IsResendKey(k) ==> st[k].value.Tracker?)
  }

  /** A write keeps the invariant when it puts the right kind of value under
      its key, and an unused record with its own expiry as deadline. */
  lemma PutKeepsInvariant(st: Store, key: string, v: Value, ttl: nat, now: nat)
    requires Invariant(st) && ttl > 0
    requires IsOtpKey(key) ==> v.Challenge? && (!v.data.used ==> now + ttl == v.data.expiresAt)
    requires IsResendKey(key) ==> v.Tracker?
    ensures Invariant(Put(st, key, v, ttl, now))
  {
  }

  lemma DeleteKeepsInvariant(st: Store, key: string)
    requires Invariant(st)
    ensures Invariant(Delete(st, key))
  {
  }

  /** The live OTP record for (id, purpose), if any. */
  function ChallengeAt(st: Store, id: string, purpose: OtpPurpose, now: nat): (r: Option<OtpData>)
    requires Invariant(st)
    ensures r.Some? <==> Live(st, OtpKey(id, purpose), now)
    ensures r.Some? ==> st[OtpKey(id, purpose)].value == Challenge(r.value)
  {
    var key := OtpKey(id, purpose);
    if Live(st, key, now) then Some(st[key].value.data) else None
  }

  /** The live resend tracker for (id, purpose), if any. */
  function TrackerAt(st: Store, id: string, purpose: OtpPurpose, now: nat): (r: Option<ResendTracker>)
    requires Invariant(st)
    ensures r.Some? <==> Live(st, ResendKey(id, purpose), now)
    ensures r.Some? ==> st[ResendKey(id, purpose)].value == Tracker(r.value)
  {
    var key := ResendKey(id, purpose);
    if Live(st, key, now) then Some(st[key].value.tracker) else None
  }

  /** The outcome of `validateRateLimit`: the send goes ahead, or one of the
      three exceptions. */
  datatype SendOutcome = Sent | Blocked | RateLimited | Cooldown

  /** `validateRateLimit`: the block marker first, then the resend limit,
      then the cooldown since the last send. */
  function Gate(st: Store, id: string, purpose: OtpPurpose, now: nat, cfg: OtpConfig): SendOutcome
    requires Invariant(st)
  {
    if Live(st, BlockKey(id, purpose), now) then Blocked
    else match TrackerAt(st, id, purpose, now)
      case None => Sent
      case Some(t) =>
        if t.count >= cfg.resendLimit then RateLimited
        else if now < t.lastSentAt + cfg.cooldown then Cooldown
        else Sent
  }

  /** `generateOtp`: the random number in `[0, 1000000)` as six zero-padded
      digits. */
  function GenerateOtp(random: nat): (code: string)
    requires random < 1000000
    ensures PasswordPolicy.OtpPatternMatches(code)
    ensures DecimalValue(code) == random
  {
    assert Pow10(6) == 1000000;
    PadDecimalRoundTrip(random, 6);
    PadDecimal(random, 6)
  }

  /** The record a send stores. */
  function FreshOtp(code: string, purpose: OtpPurpose, now: nat, cfg: OtpConfig): (d: OtpData)
    ensures d.otp == code && d.attempts == 0 && !d.used && d.purpose == purpose
    ensures d.createdAt == now && d.expiresAt == now + cfg.expiration
  {
    OtpData(code, 0, now, now + cfg.expiration, purpose, false)
  }

  /** `updateResendTracking`'s new tracker: a first one, or the previous one
      counted once more and stamped with the latest send. */
  function NextTracker(previous: Option<ResendTracker>, now: nat): (t: ResendTracker)
    ensures previous.None? ==> t == ResendTracker(1, now, now)
    ensures previous.Some? ==> t.count == previous.value.count + 1 && t.lastSentAt == now
                               && t.firstSentAt == previous.value.firstSentAt
  {
    match previous
    case None => ResendTracker(1, now, now)
    case Some(t) => t.(count := t.count + 1, lastSentAt := now)
  }

  /** A write under any key but the resend key leaves the tracker alone. */
  lemma TrackerUnaffected(st: Store, key: string, v: Value, ttl: nat, now: nat, id: string, purpose: OtpPurpose)
    requires ttl > 0 && Invariant(st) && Invariant(Put(st, key, v, ttl, now))
    requires key != ResendKey(id, purpose)
    ensures TrackerAt(Put(st, key, v, ttl, now), id, purpose, now) == TrackerAt(st, id, purpose, now)
  {
  }

  /** The store after the OTP record is written and, for a non-e-mail
      id, after the SMS service's copy. */
  function AfterDelivery(st: Store, username: Option<string>, id: string, purpose: OtpPurpose, now: nat, code: string, cfg: OtpConfig): (r: Store)
    requires ConfigValid(cfg) && Invariant(st)
    ensures Invariant(r)
    ensures TrackerAt(r, id, purpose, now) == TrackerAt(st, id, purpose, now)
    ensures OtpKey(id, purpose) in r
    ensures r[OtpKey(id, purpose)] == Slot(Challenge(FreshOtp(code, purpose, now, cfg)), now + cfg.expiration)
  {
    var key := OtpKey(id, purpose);
    var record := Challenge(FreshOtp(code, purpose, now, cfg));
    PutKeepsInvariant(st, key, record, cfg.expiration, now);
    TrackerUnaffected(st, key, record, cfg.expiration, now, id, purpose);
    var st1 := Put(st, key, record, cfg.expiration, now);
    if IsEmail(username) then st1
    else
      var smsKey := SmsService.SmsCopyKey(username);
      ForeignKey(smsKey);
      PutKeepsInvariant(st1, smsKey, Text(code), SmsService.SmsCopyTtl, now);
      TrackerUnaffected(st1, smsKey, Text(code), SmsService.SmsCopyTtl, now, id, purpose);
      assert smsKey != key;
      SmsService.SmsCopyWrite(st1, username, code, now)
  }

  /** The store after a send that passed the gate. */
  function SendEffect(st: Store, username: Option<string>, id: string, purpose: OtpPurpose, now: nat, code: string, cfg: OtpConfig): (r: Store)
    requires ConfigValid(cfg) && Invariant(st)
    ensures Invariant(r)
    ensures OtpKey(id, purpose) in r
    ensures r[OtpKey(id, purpose)] == Slot(Challenge(FreshOtp(code, purpose, now, cfg)), now + cfg.expiration)
    ensures ResendKey(id, purpose) in r
    ensures r[ResendKey(id, purpose)] == Slot(Tracker(NextTracker(TrackerAt(st, id, purpose, now), now)), now + cfg.resendWindow)
  {
    var st2 := AfterDelivery(st, username, id, purpose, now, code, cfg);
    var tracker := NextTracker(TrackerAt(st2, id, purpose, now), now);
    PutKeepsInvariant(st2, ResendKey(id, purpose), Tracker(tracker), cfg.resendWindow, now);
    assert OtpKey(id, purpose) != ResendKey(id, purpose);
    Put(st2, ResendKey(id, purpose), Tracker(tracker), cfg.resendWindow, now)
  }

  /** `verifyOtp` as a function of the store: its result (`Thrown` for the
      `NullPointerException` of a null code) and the store it leaves. */
  function VerifyEffect(st: Store, id: string, code: Option<string>, purpose: OtpPurpose, now: nat, cfg: OtpConfig): (r: (Result<bool>, Store))
    requires ConfigValid(cfg) && Invariant(st)
    ensures Invariant(r.1)
    ensures r.0 == Ok(true) <==>
              var d := ChallengeAt(st, id, purpose, now);
              d.Some? && now <= d.value.expiresAt && !d.value.used && code == Some(d.value.otp)
    ensures r.0.Thrown? <==>
              var d := ChallengeAt(st, id, purpose, now);
              d.Some? && now <= d.value.expiresAt && !d.value.used && code.None?
  {
    var key := OtpKey(id, purpose);
    match ChallengeAt(st, id, purpose, now)
    case None => (Ok(false), st)
    case Some(d) =>
      if now > d.expiresAt then
        DeleteKeepsInvariant(st, key);
        (Ok(false), Delete(st, key))
      else if d.used then (Ok(false), st)
      else if code.None? then (Thrown("NullPointerException"), st)
      else
        var counted := d.(attempts := d.attempts + 1);
        if code.value != d.otp then
          if counted.attempts >= cfg.maxAttempts then
            var blocked := Put(st, BlockKey(id, purpose), Text("blocked"), cfg.blockDuration, now);
            PutKeepsInvariant(st, BlockKey(id, purpose), Text("blocked"), cfg.blockDuration, now);
            DeleteKeepsInvariant(blocked, key);
            (Ok(false), Delete(blocked, key))
          else if d.expiresAt - now > 0 then
            PutKeepsInvariant(st, key, Challenge(counted), d.expiresAt - now, now);
            (Ok(false), Put(st, key, Challenge(counted), d.expiresAt - now, now))
          else
            DeleteKeepsInvariant(st, key);
            (Ok(false), Delete(st, key))
        else
          var audited := Put(st, key, Challenge(counted.(used := true)), AuditTtl, now);
          PutKeepsInvariant(st, key, Challenge(counted.(used := true)), AuditTtl, now);
          DeleteKeepsInvariant(audited, ResendKey(id, purpose));
          (Ok(true), Delete(audited, ResendKey(id, purpose)))
  }

  // ------------------------------------------------------------ properties

  /** A send stores a fresh six-digit record that stays readable, unchanged,
      for the whole expiration period. */
  lemma SendStoresFreshRecord(st: Store, username: Option<string>, id: string, purpose: OtpPurpose, now: nat, random: nat, cfg: OtpConfig, t: nat)
    requires ConfigValid(cfg) && Invariant(st) && random < 1000000
    requires now <= t <= now + cfg.expiration
    ensures var code := GenerateOtp(random);
            var after := SendEffect(st, username, id, purpose, now, code, cfg);
            ChallengeAt(after, id, purpose, t) == Some(FreshOtp(code, purpose, now, cfg))
            && PasswordPolicy.OtpPatternMatches(code) && DecimalValue(code) == random
  {
    var code := GenerateOtp(random);
    var after := SendEffect(st, username, id, purpose, now, code, cfg);
    assert Live(after, OtpKey(id, purpose), t);
  }

  /** After a send the tracker counts one more send, stamped now, and lives
      for the resend window. */
  lemma SendCountsResend(st: Store, username: Option<string>, id: string, purpose: OtpPurpose, now: nat, code: string, cfg: OtpConfig, t: nat)
    requires ConfigValid(cfg) && Invariant(st)
    requires now <= t <= now + cfg.resendWindow
    ensures var after := SendEffect(st, username, id, purpose, now, code, cfg);
            TrackerAt(after, id, purpose, t) == Some(NextTracker(TrackerAt(st, id, purpose, now), now))
  {
    var after := SendEffect(st, username, id, purpose, now, code, cfg);
    assert Live(after, ResendKey(id, purpose), t);
  }

  /** A tracker stamped less than `cooldown` ago refuses the send. */
  lemma GateInsideCooldown(st: Store, id: string, purpose: OtpPurpose, now: nat, cfg: OtpConfig)
    requires Invariant(st)
    requires var t := TrackerAt(st, id, purpose, now); t.Some? && now < t.value.lastSentAt + cfg.cooldown
    ensures Gate(st, id, purpose, now, cfg) != Sent
  {
    var t := TrackerAt(st, id, purpose, now).value;
    if !Live(st, BlockKey(id, purpose), now) {
      assert Gate(st, id, purpose, now, cfg) == if t.count >= cfg.resendLimit then RateLimited else Cooldown;
    }
  }

  /** A second send inside the cooldown (and the resend window) is refused,
      whatever the configured limit. */
  lemma CooldownRefusesResend(st: Store, username: Option<string>, id: string, purpose: OtpPurpose, now: nat, code: string, cfg: OtpConfig, later: nat)
    requires ConfigValid(cfg) && Invariant(st)
    requires now <= later < now + cfg.cooldown && later <= now + cfg.resendWindow
    ensures Gate(SendEffect(st, username, id, purpose, now, code, cfg), id, purpose, later, cfg) != Sent
  {
    var after := SendEffect(st, username, id, purpose, now, code, cfg);
    SendCountsResend(st, username, id, purpose, now, code, cfg, later);
    GateInsideCooldown(after, id, purpose, later, cfg);
  }

  /** Once `resendLimit` sends are counted, every further send in the window
      is refused. */
  lemma LimitRefusesResend(st: Store, id: string, purpose: OtpPurpose, now: nat, cfg: OtpConfig)
    requires Invariant(st)
    requires var t := TrackerAt(st, id, purpose, now); t.Some? && t.value.count >= cfg.resendLimit
    ensures Gate(st, id, purpose, now, cfg) in {Blocked, RateLimited}
  {
  }

  /** An unused record read before its deadline is never past its own
      expiry: the expiry branch of `verifyOtp` only ever meets used records. */
  lemma LiveUnusedIsUnexpired(st: Store, id: string, purpose: OtpPurpose, now: nat)
    requires Invariant(st)
    requires var d := ChallengeAt(st, id, purpose, now); d.Some? && !d.value.used
    ensures now <= ChallengeAt(st, id, purpose, now).value.expiresAt
  {
  }

  /** A wrong code at the attempt limit blocks the pair for `blockDuration`
      and deletes the record. */
  lemma WrongCodeAtLimitBlocks(st: Store, id: string, code: string, purpose: OtpPurpose, now: nat, cfg: OtpConfig, t: nat)
    requires ConfigValid(cfg) && Invariant(st)
    requires var d := ChallengeAt(st, id, purpose, now);
             d.Some? && !d.value.used && code != d.value.otp && d.value.attempts + 1 >= cfg.maxAttempts
    requires now <= t <= now + cfg.blockDuration
    ensures var r := VerifyEffect(st, id, Some(code), purpose, now, cfg);
            r.0 == Ok(false) && OtpKey(id, purpose) !in r.1
            && Gate(r.1, id, purpose, t, cfg) == Blocked
  {
    LiveUnusedIsUnexpired(st, id, purpose, now);
    var r := VerifyEffect(st, id, Some(code), purpose, now, cfg);
    assert r.1 == Delete(Put(st, BlockKey(id, purpose), Text("blocked"), cfg.blockDuration, now), OtpKey(id, purpose));
    assert Live(r.1, BlockKey(id, purpose), t);
  }

  /** Below the limit a wrong code is counted and the record keeps its
      original expiry, never a fresh full period. */
  lemma WrongCodeBelowLimitCounts(st: Store, id: string, code: string, purpose: OtpPurpose, now: nat, cfg: OtpConfig, t: nat)
    requires ConfigValid(cfg) && Invariant(st)
    requires var d := ChallengeAt(st, id, purpose, now);
             d.Some? && !d.value.used && code != d.value.otp && d.value.attempts + 1 < cfg.maxAttempts
             && now < d.value.expiresAt && now <= t <= d.value.expiresAt
    ensures var d := ChallengeAt(st, id, purpose, now).value;
            var r := VerifyEffect(st, id, Some(code), purpose, now, cfg);
            r.0 == Ok(false) && ChallengeAt(r.1, id, purpose, t) == Some(d.(attempts := d.attempts + 1))
            && r.1[OtpKey(id, purpose)].deadline == d.expiresAt
  {
    var d := ChallengeAt(st, id, purpose, now).value;
    var key := OtpKey(id, purpose);
    var counted := d.(attempts := d.attempts + 1);
    var ttl: nat := d.expiresAt - now;
    var st1 := Put(st, key, Challenge(counted), ttl, now);
    assert VerifyEffect(st, id, Some(code), purpose, now, cfg) == (Ok(false), st1);
    assert st1[key] == Slot(Challenge(counted), d.expiresAt);
    assert Live(st1, key, t);
  }

  /** The right code is accepted whatever the attempt count, marks the
      record used for the audit period and clears the resend tracker. */
  lemma RightCodeAccepted(st: Store, id: string, purpose: OtpPurpose, now: nat, cfg: OtpConfig)
    requires ConfigValid(cfg) && Invariant(st)
    requires var d := ChallengeAt(st, id, purpose, now); d.Some? && !d.value.used
    ensures var d := ChallengeAt(st, id, purpose, now).value;
            var r := VerifyEffect(st, id, Some(d.otp), purpose, now, cfg);
            r.0 == Ok(true)
            && ChallengeAt(r.1, id, purpose, now) == Some(d.(attempts := d.attempts + 1, used := true))
            && TrackerAt(r.1, id, purpose, now) == None
            && OtpKey(id, purpose) in r.1
            && r.1[OtpKey(id, purpose)] == Slot(Challenge(d.(attempts := d.attempts + 1, used := true)), now + AuditTtl)
  {
    LiveUnusedIsUnexpired(st, id, purpose, now);
    var d := ChallengeAt(st, id, purpose, now).value;
    var key, rkey := OtpKey(id, purpose), ResendKey(id, purpose);
    var audited := d.(attempts := d.attempts + 1, used := true);
    var st1 := Delete(Put(st, key, Challenge(audited), AuditTtl, now), rkey);
    assert VerifyEffect(st, id, Some(d.otp), purpose, now, cfg) == (Ok(true), st1);
    assert key != rkey;
    assert Live(st1, key, now);
  }

  /** A record that is gone or used refuses every code, without throwing;
      the store is left as it was, except that a used record past its
      `expiresAt` is deleted. */
  lemma UsedRecordRefuses(st: Store, id: string, code: Option<string>, purpose: OtpPurpose, now: nat, cfg: OtpConfig)
    requires ConfigValid(cfg) && Invariant(st)
    requires var d := ChallengeAt(st, id, purpose, now); d.Some? ==> d.value.used
    ensures var d := ChallengeAt(st, id, purpose, now);
            var r := VerifyEffect(st, id, code, purpose, now, cfg);
            r.0 == Ok(false)
            && r.1 == (if d.Some? && now > d.value.expiresAt then Delete(st, OtpKey(id, purpose)) else st)
  {
  }

  /** The store `verifyOtp` leaves when it refuses before counting an
      attempt, or throws: unchanged when there is no live record, the record
      is used, or the code is null; without the record when the record is
      past its `expiresAt`. */
  lemma VerifyStoreBeforeCounting(st: Store, id: string, code: Option<string>, purpose: OtpPurpose, now: nat, cfg: OtpConfig)
    requires ConfigValid(cfg) && Invariant(st)
    ensures var d := ChallengeAt(st, id, purpose, now);
            var r := VerifyEffect(st, id, code, purpose, now, cfg);
            (d.None? ==> r.1 == st)
            && (d.Some? && now > d.value.expiresAt ==> r.1 == Delete(st, OtpKey(id, purpose)))
            && (d.Some? && now <= d.value.expiresAt && (d.value.used || code.None?) ==> r.1 == st)
  {
  }

  /** A wrong code at the very instant of expiry, below the attempt limit,
      leaves no time to keep: the record is deleted. */
  lemma WrongCodeAtExpiryDeletes(st: Store, id: string, code: string, purpose: OtpPurpose, now: nat, cfg: OtpConfig)
    requires ConfigValid(cfg) && Invariant(st)
    requires var d := ChallengeAt(st, id, purpose, now);
             d.Some? && !d.value.used && code != d.value.otp && d.value.attempts + 1 < cfg.maxAttempts
             && now == d.value.expiresAt
    ensures var r := VerifyEffect(st, id, Some(code), purpose, now, cfg);
            r == (Ok(false), Delete(st, OtpKey(id, purpose)))
  {
  }

  /** A code is accepted at most once: after a success every later attempt,
      with any code, fails. */
  lemma AcceptedOnce(st: Store, id: string, purpose: OtpPurpose, now: nat, cfg: OtpConfig, code: Option<string>, again: Option<string>, later: nat)
    requires ConfigValid(cfg) && Invariant(st) && now <= later
    requires VerifyEffect(st, id, code, purpose, now, cfg).0 == Ok(true)
    ensures var st1 := VerifyEffect(st, id, code, purpose, now, cfg).1;
            VerifyEffect(st1, id, again, purpose, later, cfg).0 == Ok(false)
  {
    var d := ChallengeAt(st, id, purpose, now).value;
    var key, rkey := OtpKey(id, purpose), ResendKey(id, purpose);
    var audited := d.(attempts := d.attempts + 1, used := true);
    var st1 := Delete(Put(st, key, Challenge(audited), AuditTtl, now), rkey);
    assert VerifyEffect(st, id, code, purpose, now, cfg) == (Ok(true), st1);
    assert key != rkey && st1[key].value == Challenge(audited);
    UsedRecordRefuses(st1, id, again, purpose, later, cfg);
  }

  /** The round trip: the code a send stores is accepted by a verification
      inside the expiration period. */
  lemma SendThenVerify(st: Store, username: Option<string>, id: string, purpose: OtpPurpose, now: nat, random: nat, cfg: OtpConfig, later: nat)
    requires ConfigValid(cfg) && Invariant(st) && random < 1000000
    requires now <= later <= now + cfg.expiration
    ensures var code := GenerateOtp(random);
            var after := SendEffect(st, username, id, purpose, now, code, cfg);
            VerifyEffect(after, id, Some(code), purpose, later, cfg).0 == Ok(true)
  {
    SendStoresFreshRecord(st, username, id, purpose, now, random, cfg, later);
  }

  // --------------------------------------------------------------- masking

  /** `maskUsername`, used in log lines: `***` for null; for an e-mail the
      first (at most) three characters of the local part, `***@` and the
      domain; for anything else `****` when the cleaned form has at most four
      characters, else its last four behind `***` (`+***` when it starts
      with `+`). */
  function MaskUsername(username: Option<string>): (m: string)
    ensures username.None? ==> m == "***"
    ensures username.Some? && '@' !in username.value ==>
              var cleaned := KeepPlusDigits(Trim(username.value));
              (|cleaned| <= 4 ==> m == "****")
              && (|cleaned| > 4 ==>
                    m == (if StartsWith(cleaned, "+") then "+***" else "***") + cleaned[|cleaned| - 4..]
                    && |m| <= 8 && EndsWith(m, cleaned[|cleaned| - 4..]))
  {
    if username.None? then "***"
    else
      var u := Trim(username.value);
      TrimKeeps(username.value, '@');
      if IsEmail(Some(u)) then MaskAddress(u)
      else
        var cleaned := NormalizationUserName(Some(u));
        NormalizationCases(Some(u));
        TrimIdempotent(username.value);
        assert cleaned == KeepPlusDigits(Trim(username.value));
        MaskDigits(cleaned)
  }

  /** The e-mail branch of `maskUsername`: `split("@", 2)` keeps everything
      after the first `@` as the domain. */
  function MaskAddress(u: string): string
  {
    var parts := SplitFirst(u, '@');
    var local := parts[0];
    var domain := if |parts| > 1 then parts[1] else "";
    var visible := if 3 < |local| then 3 else |local|;
    local[..visible] + "***@" + domain
  }

  /** The phone branch of `maskUsername` on the cleaned form. */
  function MaskDigits(cleaned: string): (m: string)
    ensures |cleaned| <= 4 ==> m == "****"
    ensures |cleaned| > 4 ==>
              m == (if StartsWith(cleaned, "+") then "+***" else "***") + cleaned[|cleaned| - 4..]
              && |m| <= 8 && EndsWith(m, cleaned[|cleaned| - 4..])
  {
    if |cleaned| <= 4 then "****"
    else if StartsWith(cleaned, "+") then
      var last := cleaned[|cleaned| - 4..];
      SuffixOf("+" + "***", last);
      "+" + "***" + last
    else
      var last := cleaned[|cleaned| - 4..];
      SuffixOf("***", last);
      "***" + last
  }

  /** For a trimmed address `local@domain` the mask shows at most three
      characters of the local part and the whole domain. */
  lemma MaskUsernameEmail(local: string, domain: string)
    requires '@' !in local
    requires Trim(local + "@" + domain) == local + "@" + domain
    ensures MaskUsername(Some(local + "@" + domain)) ==
              (if |local| <= 3 then local else local[..3]) + "***@" + domain
  {
    var u := local + "@" + domain;
    assert u[|local|] == '@';
    var parts := SplitFirst(u, '@');
    assert local + ['@'] + domain == u;
    SplitAtFirst(parts[0], parts[1], local, domain, '@');
  }

  // -------------------------------------------------------- normal forms

  /** A phone number whose cleaned form starts with `0` is stored by
      registration as `+84...` but keyed by the OTP service as `0...`: the
      two normal forms never agree. */
  lemma RegistrationAndOtpFormsDiffer(r: RegisterRequest.RegisterRequest)
    requires RegisterRequest.IsPhone(r)
    requires StartsWith(KeepPlusDigits(Trim(r.username.value)), "0")
    ensures RegisterRequest.NormalizedUsername(r) != NormalizationUserName(r.username)
  {
    var cleaned := KeepPlusDigits(Trim(r.username.value));
    assert cleaned[0] == '0';
    assert RegisterRequest.NormalizedUsername(r)[0] == '+';
  }

  /** Every other phone number gets the same normal form from both. */
  lemma RegistrationAndOtpFormsAgree(r: RegisterRequest.RegisterRequest)
    requires RegisterRequest.IsPhone(r)
    requires !StartsWith(KeepPlusDigits(Trim(r.username.value)), "0")
    ensures RegisterRequest.NormalizedUsername(r) == NormalizationUserName(r.username)
  {
    NormalizationCases(r.username);
  }
}

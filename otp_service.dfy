/** The OTP service object: it owns the settings and talks to the shared
    store and the two delivery services. Each method performs the steps of
    its Java counterpart on the store and is proved to leave exactly the
    store that the matching function of `OtpLogic` describes. The username is
    normalised once per call and the steps receive the result (the Java
    code normalises the raw username again for every key it builds, to the
    same result). */
module OtpService {
  import opened Wrappers
  import opened Enums
  import opened TtlStore
  import opened OtpLogic
  import EmailService
  import SmsService

  class OtpService {
    const cfg: OtpConfig
    const redis: Redis
    const emailService: EmailService.EmailService
    const smsService: SmsService.SmsService

    /** The settings are usable as time-to-live values, the SMS service
        writes to the same store, and the store keeps the OTP invariant. */
    ghost predicate Valid()
      reads this, redis
    {
      ConfigValid(cfg) && smsService.redis == redis && Invariant(redis.entries)
    }

    constructor (cfg: OtpConfig, redis: Redis, emailService: EmailService.EmailService, smsService: SmsService.SmsService)
      requires ConfigValid(cfg) && smsService.redis == redis && Invariant(redis.entries)
      ensures this.cfg == cfg && this.redis == redis
      ensures this.emailService == emailService && this.smsService == smsService
      ensures Valid()
    {
      this.cfg := cfg;
      this.redis := redis;
      this.emailService := emailService;
      this.smsService := smsService;
    }

    /** `isBlocked`: whether the block marker for the pair is still there. */
    method IsBlocked(id: string, purpose: OtpPurpose, now: nat) returns (blocked: bool)
      ensures blocked <==> Live(redis.entries, BlockKey(id, purpose), now)
    {
      var blockKey := BlockKey(id, purpose);
      blocked := Get(redis.entries, blockKey, now).Some?;
    }

    /** `validateRateLimit`: `Sent` when the send may go ahead, otherwise
        the exception it throws. */
    method ValidateRateLimit(id: string, purpose: OtpPurpose, now: nat) returns (outcome: SendOutcome)
      requires Valid()
      ensures outcome == Gate(redis.entries, id, purpose, now, cfg)
    {
      var blocked := IsBlocked(id, purpose, now);
      if blocked {
        return Blocked;
      }
      var resendKey := ResendKey(id, purpose);
      var stored := Get(redis.entries, resendKey, now);
      if stored.Some? {
        var tracker := stored.value.tracker;
        if tracker.count >= cfg.resendLimit {
          return RateLimited;
        }
        if now < tracker.lastSentAt + cfg.cooldown {
          return Cooldown;
        }
      }
      return Sent;
    }

    /** `updateResendTracking`: count this send in the tracker, which lives
        for the resend window from now. */
    method UpdateResendTracking(id: string, purpose: OtpPurpose, now: nat)
      requires Valid()
      modifies redis
      ensures Valid()
      ensures redis.entries == Put(old(redis.entries), ResendKey(id, purpose),
                                   Tracker(NextTracker(TrackerAt(old(redis.entries), id, purpose, now), now)),
                                   cfg.resendWindow, now)
    {
      var resendKey := ResendKey(id, purpose);
      var stored := Get(redis.entries, resendKey, now);
      var tracker: ResendTracker;
      if stored.None? {
        tracker := ResendTracker(1, now, now);
      } else {
        tracker := stored.value.tracker;
        tracker := tracker.(count := tracker.count + 1, lastSentAt := now);
      }
      PutKeepsInvariant(redis.entries, resendKey, Tracker(tracker), cfg.resendWindow, now);
      redis.Set(resendKey, Tracker(tracker), cfg.resendWindow, now);
    }

    /** The steps of `sendOtp` once the username is normalised to `id`. */
    method SendOtpAs(username: Option<string>, id: string, purpose: OtpPurpose, now: nat, random: nat) returns (outcome: SendOutcome)
      requires Valid() && random < 1000000
      modifies redis, emailService, smsService
      ensures Valid()
      ensures outcome == Gate(old(redis.entries), id, purpose, now, cfg)
      ensures outcome != Sent ==>
                redis.entries == old(redis.entries) && emailService.outbox == old(emailService.outbox)
                && smsService.sent == old(smsService.sent)
      ensures outcome == Sent ==>
                redis.entries == SendEffect(old(redis.entries), username, id,
                                            purpose, now, GenerateOtp(random), cfg)
      ensures outcome == Sent && IsEmail(username) ==>
                emailService.outbox == old(emailService.outbox) + [EmailService.OtpMail(
                  emailService.fromEmail, username, EmailService.GetSubject(emailService.appName, purpose),
                  EmailService.TemplateFor(purpose), EmailService.EmailContext(GenerateOtp(random), emailService.appName, purpose))]
                && smsService.sent == old(smsService.sent)
      ensures outcome == Sent && !IsEmail(username) ==>
                smsService.sent == old(smsService.sent) + [SmsService.MockSms(SmsService.MaskPhone(username),
                  SmsService.GenerateSmsMessage(smsService.appName, GenerateOtp(random), purpose))]
                && emailService.outbox == old(emailService.outbox)
    {
      outcome := ValidateRateLimit(id, purpose, now);
      if outcome != Sent {
        return;
      }
      var otp := GenerateOtp(random);
      var key := OtpKey(id, purpose);
      var otpData := FreshOtp(otp, purpose, now, cfg);
      PutKeepsInvariant(redis.entries, key, Challenge(otpData), cfg.expiration, now);
      redis.Set(key, Challenge(otpData), cfg.expiration, now);
      if IsEmail(username) {
        emailService.SendOtpMail(username, otp, purpose);
      } else {
        smsService.SendOtp(username, otp, purpose, now);
      }
      assert redis.entries == AfterDelivery(old(redis.entries), username, id, purpose, now, otp, cfg);
      UpdateResendTracking(id, purpose, now);
    }

    /** `sendOtp`: pass the gate, store a fresh record for the expiration
        period, deliver the code by mail (an e-mail username) or SMS
        (anything else), then count the send. A refused send changes
        nothing. */
    method SendOtp(username: Option<string>, purpose: OtpPurpose, now: nat, random: nat) returns (outcome: SendOutcome)
      requires Valid() && random < 1000000
      modifies redis, emailService, smsService
      ensures Valid()
      ensures outcome == Gate(old(redis.entries), NormalizationUserName(username), purpose, now, cfg)
      ensures outcome != Sent ==>
                redis.entries == old(redis.entries) && emailService.outbox == old(emailService.outbox)
                && smsService.sent == old(smsService.sent)
      ensures outcome == Sent ==>
                redis.entries == SendEffect(old(redis.entries), username, NormalizationUserName(username),
                                            purpose, now, GenerateOtp(random), cfg)
      ensures outcome == Sent && IsEmail(username) ==>
                emailService.outbox == old(emailService.outbox) + [EmailService.OtpMail(
                  emailService.fromEmail, username, EmailService.GetSubject(emailService.appName, purpose),
                  EmailService.TemplateFor(purpose), EmailService.EmailContext(GenerateOtp(random), emailService.appName, purpose))]
                && smsService.sent == old(smsService.sent)
      ensures outcome == Sent && !IsEmail(username) ==>
                smsService.sent == old(smsService.sent) + [SmsService.MockSms(SmsService.MaskPhone(username),
                  SmsService.GenerateSmsMessage(smsService.appName, GenerateOtp(random), purpose))]
                && emailService.outbox == old(emailService.outbox)
    {
      outcome := SendOtpAs(username, NormalizationUserName(username), purpose, now, random);
    }

    /** `blockUser`: the block marker for the pair, for `blockDuration`. */
    method BlockUser(id: string, purpose: OtpPurpose, now: nat)
      requires Valid()
      modifies redis
      ensures Valid()
      ensures redis.entries == Put(old(redis.entries), BlockKey(id, purpose), Text("blocked"), cfg.blockDuration, now)
    {
      var blockKey := BlockKey(id, purpose);
      PutKeepsInvariant(redis.entries, blockKey, Text("blocked"), cfg.blockDuration, now);
      redis.Set(blockKey, Text("blocked"), cfg.blockDuration, now);
    }

    /** `clearResendTracking`: drop the tracker, so the count starts again. */
    method ClearResendTracking(id: string, purpose: OtpPurpose)
      requires Valid()
      modifies redis
      ensures Valid()
      ensures redis.entries == Delete(old(redis.entries), ResendKey(id, purpose))
    {
      var resendKey := ResendKey(id, purpose);
      DeleteKeepsInvariant(redis.entries, resendKey);
      redis.Remove(resendKey);
    }

    /** The steps of `verifyOtp` once the username is normalised to `id`. */
    method VerifyOtpAs(id: string, otp: Option<string>, purpose: OtpPurpose, now: nat) returns (r: Result<bool>)
      requires Valid()
      modifies redis
      ensures Valid()
      ensures (r, redis.entries) == VerifyEffect(old(redis.entries), id, otp, purpose, now, cfg)
    {
      var key := OtpKey(id, purpose);
      var stored := Get(redis.entries, key, now);
      if stored.None? {
        return Ok(false);
      }
      var otpData := stored.value.data;
      if now > otpData.expiresAt {
        DeleteKeepsInvariant(redis.entries, key);
        redis.Remove(key);
        return Ok(false);
      }
      if otpData.used {
        return Ok(false);
      }
      otpData := otpData.(attempts := otpData.attempts + 1);
      if otp.None? {
        return Thrown("NullPointerException");
      }
      if otp.value != otpData.otp {
        if otpData.attempts >= cfg.maxAttempts {
          BlockUser(id, purpose, now);
          DeleteKeepsInvariant(redis.entries, key);
          redis.Remove(key);
        } else {
          var remaining := otpData.expiresAt - now;
          if remaining > 0 {
            PutKeepsInvariant(redis.entries, key, Challenge(otpData), remaining, now);
            redis.Set(key, Challenge(otpData), remaining, now);
          } else {
            DeleteKeepsInvariant(redis.entries, key);
            redis.Remove(key);
          }
        }
        return Ok(false);
      }
      otpData := otpData.(used := true);
      PutKeepsInvariant(redis.entries, key, Challenge(otpData), AuditTtl, now);
      redis.Set(key, Challenge(otpData), AuditTtl, now);
      ClearResendTracking(id, purpose);
      return Ok(true);
    }

    /** `verifyOtp`: check `otp` against the stored record, counting the
        attempt, blocking at the limit and marking the record used on
        success. A null `otp` throws once a live, unused record is found. */
    method VerifyOtp(username: Option<string>, otp: Option<string>, purpose: OtpPurpose, now: nat) returns (r: Result<bool>)
      requires Valid()
      modifies redis
      ensures Valid()
      ensures (r, redis.entries) == VerifyEffect(old(redis.entries), NormalizationUserName(username), otp, purpose, now, cfg)
    {
      r := VerifyOtpAs(NormalizationUserName(username), otp, purpose, now);
    }
  }
}

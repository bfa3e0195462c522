/** The SMS side of OTP delivery: the purpose-specific message text, the
    phone mask used in the log, and `sendOtp`, which copies the code into the
    store under `OTP:<phone>` before handing the message to the provider. */
module SmsService {
  import opened Wrappers
  import opened JavaText
  import opened Enums
  import opened TtlStore

  /** Every message ends with this sentence. */
  const ValidityNote := ". Valid for 5 minutes."

  /** Five minutes, the lifetime of the SMS copy of a code. */
  const SmsCopyTtl: nat := 300000

  /** The text around the two `%s` of each purpose's message: the text before
      the application name and the text between it and the code. */
  function MessageFrame(purpose: OtpPurpose): (r: (string, string))
    ensures '%' !in r.0 && '%' !in r.1
  {
    LeadsPlain();
    SeparatorsPlain();
    if purpose == Register then ("Welcome to ", "! Your verification code is: ")
    else if purpose == Login then ("Your ", " login code is: ")
    else if purpose == ForgetPassword || purpose == ChangePassword then ("Your ", " password reset code is: ")
    else if purpose == AddPhone then ("Verify your phone number for ", ". Code: ")
    else if purpose == Checkout then ("Your ", " transaction verification code is: ")
    else ("Your ", " verification code is: ")
  }

  /** None of the message texts holds a `%`: each is copied verbatim. */
  lemma LeadsPlain()
    ensures '%' !in "Welcome to " && '%' !in "Your " && '%' !in "Verify your phone number for "
  {
  }

  lemma SeparatorsPlain()
    ensures '%' !in "! Your verification code is: " && '%' !in " login code is: "
    ensures '%' !in " password reset code is: " && '%' !in ". Code: "
    ensures '%' !in " transaction verification code is: " && '%' !in " verification code is: "
  {
    ShortSeparatorsPlain();
    LongSeparatorsPlain();
  }

  lemma ShortSeparatorsPlain()
    ensures '%' !in " login code is: " && '%' !in ". Code: " && '%' !in " verification code is: "
  {
    SeparatorPlain(" login code is: ");
    SeparatorPlain(". Code: ");
    SeparatorPlain(" verification code is: ");
  }

  lemma LongSeparatorsPlain()
    ensures '%' !in "! Your verification code is: " && '%' !in " password reset code is: "
    ensures '%' !in " transaction verification code is: "
  {
    SeparatorPlain("! Your verification code is: ");
    SeparatorPlain(" password reset code is: ");
    SeparatorPlain(" transaction verification code is: ");
  }

  /** A separator: text ending in `: `, whose every character is a letter,
      a space, `!`, `.` or `:`. */
  lemma SeparatorPlain(s: string)
    requires forall i :: 0 <= i < |s| ==> s[i] == ' ' || s[i] == '!' || s[i] == '.' || s[i] == ':' || 'a' <= s[i] <= 'z' || 'A' <= s[i] <= 'Z'
    ensures '%' !in s
  {
  }

  /** `generateSmsMessage`: `String.format` of the purpose's pattern with the
      application name and the code. */
  function GenerateSmsMessage(appName: string, otp: string, purpose: OtpPurpose): (msg: string)
    ensures var (lead, sep) := MessageFrame(purpose);
            msg == lead + appName + sep + otp + ValidityNote
  {
    var (lead, sep) := MessageFrame(purpose);
    assert '%' !in ValidityNote;
    FormatTwo(lead, sep, ValidityNote, appName, otp);
    Format(lead + "%s" + sep + "%s" + ValidityNote, [appName, otp])
  }

  /** Every message names the application, carries the code and ends with
      the five-minute validity note. */
  lemma MessageCarriesCode(appName: string, otp: string, purpose: OtpPurpose)
    ensures var msg := GenerateSmsMessage(appName, otp, purpose);
            IsInfix(appName, msg) && IsInfix(otp, msg) && EndsWith(msg, "Valid for 5 minutes.")
  {
    var frame := MessageFrame(purpose);
    FramedMessage(frame.0, frame.1, appName, otp);
  }

  lemma FramedMessage(lead: string, sep: string, appName: string, otp: string)
    ensures var msg := lead + appName + sep + otp + ValidityNote;
            IsInfix(appName, msg) && IsInfix(otp, msg) && EndsWith(msg, "Valid for 5 minutes.")
  {
    var tail := sep + otp + ValidityNote;
    InfixAt(lead, appName, tail);
    assert lead + appName + sep + otp + ValidityNote == lead + appName + tail;
    InfixAt(lead + appName + sep, otp, ValidityNote);
    EndsWithNote(lead + appName + sep + otp);
  }

  /** Whatever precedes it, the validity note ends the text. */
  lemma EndsWithNote(x: string)
    ensures EndsWith(x + ValidityNote, "Valid for 5 minutes.")
  {
    var note := "Valid for 5 minutes.";
    assert ValidityNote == ". " + note;
    assert x + ValidityNote == (x + ". ") + note;
    SuffixOf(x + ". ", note);
  }

  /** The two password purposes share one message. */
  lemma PasswordPurposesShareMessage(appName: string, otp: string)
    ensures GenerateSmsMessage(appName, otp, ForgetPassword) == GenerateSmsMessage(appName, otp, ChangePassword)
  {
  }

  /** `maskPhone`: null or shorter than four characters is returned as is;
      otherwise the first four characters, `****`, and the rest from index
      `max(4, length - 2)`. */
  function MaskPhone(phone: Option<string>): (r: Option<string>)
    ensures phone.None? || |phone.value| < 4 ==> r == phone
    ensures phone.Some? && |phone.value| >= 4 ==>
              r.Some? && StartsWith(r.value, phone.value[..4] + "****")
    ensures phone.Some? && |phone.value| >= 6 ==>
              r.Some? && |r.value| == 10 && EndsWith(r.value, phone.value[|phone.value| - 2..])
    ensures phone.Some? && 4 <= |phone.value| <= 5 ==>
              r == Some(phone.value[..4] + "****" + phone.value[4..])
    ensures phone.Some? && |phone.value| >= 6 ==>
              r == Some(phone.value[..4] + "****" + phone.value[|phone.value| - 2..])
  {
    if phone.None? || |phone.value| < 4 then phone
    else
      var p := phone.value;
      var from := if 4 > |p| - 2 then 4 else |p| - 2;
      var m := p[..4] + "****" + p[from..];
      assert m[..8] == p[..4] + "****";
      Some(m)
  }

  /** What the mask leaves readable once the `****` is taken out: the whole
      number when it has four or five characters, otherwise its first four
      and last two characters. */
  lemma MaskPhoneReveals(p: string)
    requires |p| >= 4
    ensures var m := MaskPhone(Some(p)).value;
            |m| >= 8 && m[4..8] == "****"
            && (|p| <= 5 ==> m[..4] + m[8..] == p)
            && (|p| >= 6 ==> m[..4] + m[8..] == p[..4] + p[|p| - 2..])
  {
    var m := MaskPhone(Some(p)).value;
    var from := if |p| <= 5 then 4 else |p| - 2;
    assert m == p[..4] + "****" + p[from..];
    assert m[..4] == p[..4] && m[8..] == p[from..];
    if |p| <= 5 {
      assert p[..4] + p[4..] == p;
    }
  }

  /** Java's `"OTP:" + phoneNumber`: a null phone number is written as
      `null`. */
  function SmsCopyKey(phone: Option<string>): (key: string)
    ensures StartsWith(key, "OTP:")
  {
    "OTP:" + (if phone.Some? then phone.value else "null")
  }

  /** The store after `sendOtp`'s write. */
  function SmsCopyWrite(st: Store, phone: Option<string>, otp: string, now: nat): Store
  {
    Put(st, SmsCopyKey(phone), Text(otp), SmsCopyTtl, now)
  }

  /** The delivery channel a provider name selects. */
  datatype Channel = Mock

  /** `switch (smsProvider.toLowerCase())`: `mock` and every other value go
      to the mock sender. */
  function ChannelFor(provider: string): (c: Channel)
    ensures c == Mock
  {
    if ToLower(provider) == "mock" then Mock else Mock
  }

  /** A logged mock SMS: the masked number and the message text. */
  datatype MockSms = MockSms(to: Option<string>, message: string)

  class SmsService {
    const redis: Redis
    const provider: string
    const appName: string
    /** The mock sender's log. */
    var sent: seq<MockSms>

    constructor (redis: Redis, provider: string, appName: string)
      ensures this.redis == redis && this.provider == provider && this.appName == appName
      ensures sent == []
    {
      this.redis := redis;
      this.provider := provider;
      this.appName := appName;
      sent := [];
    }

    /** `sendOtp`: store the code under `OTP:<phone>` for five minutes, then
        dispatch the message through the provider's channel. */
    method SendOtp(phone: Option<string>, otp: string, purpose: OtpPurpose, now: nat)
      modifies this, redis
      ensures redis.entries == SmsCopyWrite(old(redis.entries), phone, otp, now)
      ensures sent == old(sent) + [MockSms(MaskPhone(phone), GenerateSmsMessage(appName, otp, purpose))]
    {
      var message := GenerateSmsMessage(appName, otp, purpose);
      redis.Set(SmsCopyKey(phone), Text(otp), SmsCopyTtl, now);
      match ChannelFor(provider)
      case Mock =>
        sent := sent + [MockSms(MaskPhone(phone), message)];
    }
  }
}

/** The OTP mail helpers: address masking for log lines, the subject and
    the template each purpose selects, and the outgoing OTP mail. Rendering
    the template and handing the message to the mail server are not part of
    this model: a sent mail is recorded with its template name and context. */
module EmailService {
  import opened Wrappers
  import opened JavaText
  import opened Enums

  /** `maskEmail`: `null` and text without `@` come back unchanged; otherwise
      the first character (local part of at most three) or the first three,
      `***@`, and the second `@`-separated field. `split("@")` drops trailing
      empty fields, so `"x@"`, `"@x"` and `"@"` make the indexing throw. */
  function MaskEmail(email: Option<string>): (r: Result<Option<string>>)
    ensures email.None? ==> r == Ok(None)
    ensures email.Some? && '@' !in email.value ==> r == Ok(email)
    ensures r.Ok? && email.Some? && '@' in email.value ==>
              r.value.Some? && IsInfix("***@", r.value.value)
    ensures email.Some? && '@' in email.value ==>
              var parts := Split(email.value, '@');
              (r.Thrown? <==> parts == [] || parts[0] == [] || |parts| < 2)
              && (r.Ok? ==>
                    r == Ok(Some((if |parts[0]| <= 3 then parts[0][..1] else parts[0][..3]) + "***@" + parts[1])))
  {
    if email.None? || '@' !in email.value then Ok(email)
    else
      var parts := Split(email.value, '@');
      if |parts| == 0 then Thrown("ArrayIndexOutOfBoundsException")
      else
        var userName := parts[0];
        if |userName| <= 3 then
          if |userName| == 0 then Thrown("StringIndexOutOfBoundsException")
          else if |parts| < 2 then Thrown("ArrayIndexOutOfBoundsException")
          else
            InfixAt([userName[0]], "***@", parts[1]);
            assert [userName[0]] == userName[..1];
            Ok(Some([userName[0]] + "***@" + parts[1]))
        else if |parts| < 2 then Thrown("ArrayIndexOutOfBoundsException")
        else
          InfixAt(userName[..3], "***@", parts[1]);
          Ok(Some(userName[..3] + "***@" + parts[1]))
  }

  /** On a well-formed `local@domain` address the mask keeps at most three
      characters of the local part and the whole domain. */
  lemma MaskEmailAddress(local: string, domain: string)
    requires '@' !in local && '@' !in domain && local != [] && domain != []
    ensures MaskEmail(Some(local + "@" + domain)) ==
              Ok(Some((if |local| <= 3 then local[..1] else local[..3]) + "***@" + domain))
  {
    SplitAddress(local, domain);
    assert [local[0]] == local[..1];
  }

  /** An address with an empty domain (`"x@"`, `"@"`) makes the mask throw
      instead of returning. */
  lemma MaskEmailThrowsWithoutDomain(local: string)
    requires '@' !in local
    ensures MaskEmail(Some(local + "@")).Thrown?
  {
    var s := local + "@";
    assert s[|local|] == '@';
    SplitTrailingAt(local);
  }

  /** So does an address with an empty local part (`"@x"`). */
  lemma MaskEmailThrowsWithoutLocal(domain: string)
    requires '@' !in domain && domain != []
    ensures MaskEmail(Some("@" + domain)).Thrown?
  {
    var s := "@" + domain;
    assert s == [] + "@" + domain;
    assert s[0] == '@';
    SplitAddress([], domain);
  }

  /** `getSubject`. The `REGISTER` subject has no space between the
      application name and `account`. */
  function GetSubject(appName: string, purpose: OtpPurpose): string
  {
    if purpose == Register then "Verify your " + appName + "account"
    else if purpose == Login then "Login verification code"
    else if purpose == ForgetPassword || purpose == ChangePassword then "Password reset verification code"
    else if purpose == AddEmail then "Verification your email address"
    else if purpose == AddPhone then "Verification your phone number"
    else "verification code"
  }

  /** The purposes with a subject of their own. */
  predicate HasOwnSubject(purpose: OtpPurpose)
  {
    purpose in {Register, Login, ForgetPassword, ChangePassword, AddEmail, AddPhone}
  }

  /** Both password purposes share a subject; every purpose without a case
      of its own, `CHECKOUT` among them, gets the generic one; the
      registration subject runs the name into `account`. */
  lemma SubjectCases(appName: string, purpose: OtpPurpose)
    ensures GetSubject(appName, ForgetPassword) == GetSubject(appName, ChangePassword)
    ensures !HasOwnSubject(purpose) ==> GetSubject(appName, purpose) == "verification code"
    ensures !HasOwnSubject(Checkout)
    ensures EndsWith(GetSubject(appName, Register), appName + "account")
  {
    assert Checkout.name[1] != Register.name[1];
    assert Checkout.name != ChangePassword.name;
    SuffixOf("Verify your ", appName + "account");
    assert "Verify your " + appName + "account" == "Verify your " + (appName + "account");
  }

  /** The template named by the `switch` of `generateEmailContent`. */
  function TemplateFor(purpose: OtpPurpose): (t: string)
    ensures EndsWith(t, "-otp")
    ensures IsPasswordPurpose(purpose) ==> t == "password-reset-otp"
    ensures IsContactPurpose(purpose) ==> t == "email-verification-otp"
    ensures !HasOwnTemplate(purpose) ==> t == "generic-otp"
  {
    if purpose == Register then TemplateName("registration")
    else if purpose == Login then TemplateName("login")
    else if purpose == ForgetPassword || purpose == ChangePassword then TemplateName("password-reset")
    else if purpose == AddEmail || purpose == AddPhone then TemplateName("email-verification")
    else if purpose == Checkout then TemplateName("checkout")
    else TemplateName("generic")
  }

  /** Every template name is a stem followed by `-otp`. */
  function TemplateName(stem: string): (t: string)
    ensures EndsWith(t, "-otp") && |t| == |stem| + 4 && t[..|stem|] == stem
  {
    SuffixOf(stem, "-otp");
    stem + "-otp"
  }

  /** Purposes that share a template: the two password purposes, and the two
      contact-verification purposes, whose phone case also reads
      `email-verification-otp`. */
  lemma SharedTemplates()
    ensures TemplateFor(ForgetPassword) == TemplateFor(ChangePassword) == "password-reset-otp"
    ensures TemplateFor(AddEmail) == TemplateFor(AddPhone) == "email-verification-otp"
  {
  }

  /** The purposes named by a case of the template `switch`. */
  predicate HasOwnTemplate(purpose: OtpPurpose)
  {
    purpose == Register || purpose == Login || IsPasswordPurpose(purpose)
    || IsContactPurpose(purpose) || purpose == Checkout
  }

  predicate IsPasswordPurpose(purpose: OtpPurpose)
  {
    purpose == ForgetPassword || purpose == ChangePassword
  }

  predicate IsContactPurpose(purpose: OtpPurpose)
  {
    purpose == AddEmail || purpose == AddPhone
  }

  /** Two purposes get the same template exactly when they are equal, are
      both password purposes, are both contact purposes, or both fall to the
      `default` case. */
  lemma TemplatePartition(p: OtpPurpose, q: OtpPurpose)
    ensures TemplateFor(p) == TemplateFor(q) <==>
              p == q
              || (IsPasswordPurpose(p) && IsPasswordPurpose(q))
              || (IsContactPurpose(p) && IsContactPurpose(q))
              || (!HasOwnTemplate(p) && !HasOwnTemplate(q))
  {
    TemplateLength(p);
    TemplateLength(q);
  }

  /** The six template names have six different lengths. */
  lemma TemplateLength(p: OtpPurpose)
    ensures |TemplateFor(p)| == TemplateSize(p)
  {
  }

  function TemplateSize(p: OtpPurpose): nat
  {
    if p == Register then 16
    else if p == Login then 9
    else if IsPasswordPurpose(p) then 18
    else if IsContactPurpose(p) then 22
    else if p == Checkout then 12
    else 11
  }

  /** The variables handed to the template engine. */
  datatype TemplateContext = TemplateContext(otp: string, appName: string, otpPurposes: OtpPurpose, expiryMinutes: int)

  /** The context of `generateEmailContent`: the validity it announces is
      the constant five minutes, whatever the configured expiration. */
  function EmailContext(otp: string, appName: string, purpose: OtpPurpose): (c: TemplateContext)
    ensures c.expiryMinutes == 5 && c.otp == otp && c.otpPurposes == purpose
  {
    TemplateContext(otp, appName, purpose, 5)
  }

  /** An OTP mail as handed to the mail sender. */
  datatype OtpMail = OtpMail(from: string, to: Option<string>, subject: string, template: string, context: TemplateContext)

  class EmailService {
    const fromEmail: string
    const appName: string
    /** The mails handed to the mail sender, oldest first. */
    var outbox: seq<OtpMail>

    constructor (fromEmail: string, appName: string)
      ensures this.fromEmail == fromEmail && this.appName == appName && outbox == []
    {
      this.fromEmail := fromEmail;
      this.appName := appName;
      outbox := [];
    }

    /** `sendOtpMail`: one mail with the purpose's subject and template and a
        context carrying the code. */
    method SendOtpMail(toEmail: Option<string>, otp: string, purpose: OtpPurpose)
      modifies this
      ensures outbox == old(outbox) + [OtpMail(fromEmail, toEmail, GetSubject(appName, purpose), TemplateFor(purpose), EmailContext(otp, appName, purpose))]
    {
      var context := EmailContext(otp, appName, purpose);
      var mail := OtpMail(fromEmail, toEmail, GetSubject(appName, purpose), TemplateFor(purpose), context);
      outbox := outbox + [mail];
    }
  }
}

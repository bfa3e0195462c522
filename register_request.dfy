/** The registration request: the kind of username, its normal form, and the
    field constraints. */
module RegisterRequest {
  import opened Wrappers
  import opened JavaText
  import BeanValidation
  import PasswordPolicy
  import EmailOrPhoneValidator

  datatype RegisterRequest = RegisterRequest(
    username: Option<string>,
    password: Option<string>,
    firstName: Option<string>,
    lastName: Option<string>)

  /** `isEmail`: a non-null username holding `@`. */
  predicate IsEmail(r: RegisterRequest)
  {
    r.username.Some? && '@' in r.username.value
  }

  /** `isPhone`: a non-null username without `@`. */
  predicate IsPhone(r: RegisterRequest)
  {
    r.username.Some? && '@' !in r.username.value
  }

  /** A non-null username is exactly one of e-mail and phone; a null one is
      neither. */
  lemma EmailXorPhone(r: RegisterRequest)
    ensures r.username.Some? <==> (IsEmail(r) || IsPhone(r))
    ensures !(IsEmail(r) && IsPhone(r))
  {
  }

  /** `getNormalizedUsername`: `""` for null; the trimmed, lower-cased text for
      an e-mail; otherwise only `+` and digits, a leading `0` becoming `+84`. */
  function NormalizedUsername(r: RegisterRequest): (n: string)
    ensures r.username.None? ==> n == ""
    ensures IsEmail(r) ==> n == ToLower(Trim(r.username.value))
    ensures IsPhone(r) ==> AllPlusOrDigit(n) && !StartsWith(n, "0")
    ensures IsPhone(r) && StartsWith(KeepPlusDigits(Trim(r.username.value)), "0") ==>
              n == "+84" + KeepPlusDigits(Trim(r.username.value))[1..]
    ensures IsPhone(r) && !StartsWith(KeepPlusDigits(Trim(r.username.value)), "0") ==>
              n == KeepPlusDigits(Trim(r.username.value))
  {
    if r.username.None? then ""
    else
      var trimmed := Trim(r.username.value);
      if IsEmail(r) then ToLower(trimmed)
      else
        var cleaned := KeepPlusDigits(trimmed);
        if StartsWith(cleaned, "0") && !StartsWith(cleaned, "+") then
          var n := "+84" + cleaned[1..];
          assert n[0] == '+' && n[1] == '8' && n[2] == '4';
          assert forall i :: 3 <= i < |n| ==> n[i] == cleaned[i - 2];
          n
        else cleaned
  }

  /** Normalising a normalised username changes nothing. */
  lemma NormalizedUsernameIdempotent(r: RegisterRequest)
    ensures var n := NormalizedUsername(r);
            NormalizedUsername(r.(username := Some(n))) == n
  {
    if IsEmail(r) {
      EmailFormFixed(r);
    } else if IsPhone(r) {
      PhoneFormFixed(r);
    }
  }

  /** The e-mail normal form is its own normal form. */
  lemma EmailFormFixed(r: RegisterRequest)
    requires IsEmail(r)
    ensures var n := NormalizedUsername(r);
            NormalizedUsername(r.(username := Some(n))) == n
  {
    var n := NormalizedUsername(r);
    TrimKeeps(r.username.value, '@');
    ToLowerKeepsAt(Trim(r.username.value));
    LowerTrimmedFixed(r.username.value);
    assert IsEmail(r.(username := Some(n)));
  }

  /** The phone normal form is its own normal form. */
  lemma PhoneFormFixed(r: RegisterRequest)
    requires IsPhone(r)
    ensures var n := NormalizedUsername(r);
            NormalizedUsername(r.(username := Some(n))) == n
  {
    var n := NormalizedUsername(r);
    NoWhiteNoAt(n);
    KeepPlusDigitsFixed(n);
  }

  /** `@NotBlank @EmailOrPhone` on the username, `@NotBlank @Size(8, 100)
      @Pattern` on the password, `@NotBlank @Size(1, 50) @Pattern` on each
      name; the name pattern is a parameter. */
  predicate ValidWith(r: RegisterRequest, passwordPattern: string -> bool, namePattern: string -> bool)
  {
    BeanValidation.NotBlank(r.username) && EmailOrPhoneValidator.IsValid(r.username) &&
    BeanValidation.NotBlank(r.password) && BeanValidation.SizeWithin(r.password, 8, 100) &&
    BeanValidation.PatternHolds(r.password, passwordPattern) &&
    BeanValidation.NotBlank(r.firstName) && BeanValidation.SizeWithin(r.firstName, 1, 50) &&
    BeanValidation.PatternHolds(r.firstName, namePattern) &&
    BeanValidation.NotBlank(r.lastName) && BeanValidation.SizeWithin(r.lastName, 1, 50) &&
    BeanValidation.PatternHolds(r.lastName, namePattern)
  }

  predicate Valid(r: RegisterRequest, namePattern: string -> bool)
  {
    ValidWith(r, PasswordPolicy.PasswordPatternAsWritten, namePattern)
  }

  /** No registration request passes validation: the password must be
      non-null, and no string matches its pattern. */
  lemma NoRequestIsValid(r: RegisterRequest, namePattern: string -> bool)
    ensures !Valid(r, namePattern)
  {
    if r.password.Some? {
      PasswordPolicy.PasswordPatternUnsatisfiable(r.password.value);
    }
  }

  /** With the intended password pattern, registration is possible. */
  lemma IntendedRequestCanBeValid()
    ensures ValidWith(
      RegisterRequest(Some("an@shop.vn"), Some("Abcdef1!"), Some("An"), Some("Le")),
      PasswordPolicy.PasswordPatternIntended, _ => true)
  {
    var u, p := "an@shop.vn", "Abcdef1!";
    assert forall i :: 0 <= i < |u| ==> !IsWhite(u[i]);
    assert Trim(u) == u;
    assert u == "an" + "@" + "shop" + "." + "vn";
    EmailOrPhoneValidator.EmailPatternAccepts("an", "shop", "vn");
    assert EmailOrPhoneValidator.IsValid(Some(u));
    BeanValidation.NotBlankWhen(u, 'a');
    BeanValidation.NotBlankWhen(p, 'A');
    BeanValidation.NotBlankWhen("An", 'A');
    BeanValidation.NotBlankWhen("Le", 'L');
    PasswordPolicy.PasswordPatternIntendedAccepts();
  }
}

/** The password-reset request's constraints, as one validity predicate. */
module ResetPasswordRequest {
  import opened Wrappers
  import JavaText
  import BeanValidation
  import PasswordPolicy

  datatype ResetPasswordRequest = ResetPasswordRequest(
    username: Option<string>,
    otp: Option<string>,
    newPassword: Option<string>)

  /** `@NotBlank` username; `@NotBlank @Pattern("^\d{6}$")` OTP;
      `@NotBlank @Size(8, 100) @Pattern` new password. */
  predicate ValidWith(r: ResetPasswordRequest, passwordPattern: string -> bool)
  {
    BeanValidation.NotBlank(r.username) &&
    BeanValidation.NotBlank(r.otp) && BeanValidation.PatternHolds(r.otp, PasswordPolicy.OtpPatternMatches) &&
    BeanValidation.NotBlank(r.newPassword) && BeanValidation.SizeWithin(r.newPassword, 8, 100) &&
    BeanValidation.PatternHolds(r.newPassword, passwordPattern)
  }

  predicate Valid(r: ResetPasswordRequest)
  {
    ValidWith(r, PasswordPolicy.PasswordPatternAsWritten)
  }

  /** The OTP field passes its constraints iff it is exactly six ASCII
      digits. */
  lemma OtpFieldMeaning(otp: Option<string>)
    ensures BeanValidation.NotBlank(otp) && BeanValidation.PatternHolds(otp, PasswordPolicy.OtpPatternMatches)
            <==> otp.Some? && |otp.value| == 6 && JavaText.AllDigits(otp.value)
  {
    if otp.Some? && |otp.value| == 6 && JavaText.AllDigits(otp.value) {
      assert forall i :: 0 <= i < |otp.value| ==> !JavaText.IsWhite(otp.value[i]);
    }
  }

  /** A blank username fails validation whatever the other fields. */
  lemma BlankUsernameInvalid(r: ResetPasswordRequest)
    requires r.username.None? || JavaText.Trim(r.username.value) == []
    ensures !Valid(r) && !ValidWith(r, PasswordPolicy.PasswordPatternIntended)
  {
  }

  /** Every reset request is rejected: no new password matches the pattern. */
  lemma NoRequestIsValid(r: ResetPasswordRequest)
    ensures !Valid(r)
  {
    if r.newPassword.Some? {
      PasswordPolicy.PasswordPatternUnsatisfiable(r.newPassword.value);
    }
  }

  /** With the intended password pattern a reset can pass. */
  lemma IntendedRequestCanBeValid()
    ensures ValidWith(ResetPasswordRequest(Some("an@shop.vn"), Some("042917"), Some("Abcdef1!")),
                      PasswordPolicy.PasswordPatternIntended)
  {
    var otp := "042917";
    assert JavaText.AllDigits(otp);
    OtpFieldMeaning(Some(otp));
    BeanValidation.NotBlankWhen("an@shop.vn", 'a');
    BeanValidation.NotBlankWhen("Abcdef1!", 'A');
    PasswordPolicy.PasswordPatternIntendedAccepts();
  }
}

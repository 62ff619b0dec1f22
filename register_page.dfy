/**
 * The two-step registration form: credentials first, then the emailed code.
 * The checks on the inputs are functions; the event handlers are methods of
 * the form's state. A call to the backend is represented by the reply it
 * got (the handler then runs to its end); the page's `loading` flag, set
 * while that call is in flight, is false again when each handler returns.
 */
module RegisterPage {
  import opened Outcomes
  import opened Seqs
  import opened OtpCode
  import opened JsText

  const MinPasswordLength: nat := 6
  const OtpLength: nat := 6

  /** The form's step. */
  datatype Step = Credentials | OtpEntry

  /** The error line under the form; the translated texts are named by their key. */
  datatype FormError =
    | PasswordMismatch      // t.pages.register.passwordMismatch
    | PasswordTooShort      // 'Password must be at least 6 characters'
    | OtpWrongLength        // 'Please enter a 6-digit code'
    | OtpError              // t.pages.register.otpError
    | VerifyError           // t.pages.register.verifyError
    | ServerMessage(text: string)

  /** What the backend answered: success, or an error with an optional message body. */
  datatype ApiReply = Accepted | Rejected(message: Option<string>)

  /** err.response?.data?.message || fallback. */
  function ReplyError(message: Option<string>, fallback: FormError): (e: FormError)
    ensures message.Some? && message.value != "" ==> e == ServerMessage(message.value)
    ensures message.None? || message.value == "" ==> e == fallback
  {
    if message.Some? && message.value != "" then ServerMessage(message.value) else fallback
  }

  /**
   * The credential checks of handleSendOtp, in their order: confirmation
   * first, then length, which JavaScript counts in UTF-16 code units.
   */
  function CredentialsError(password: string, confirmPassword: string): (r: Option<FormError>)
  {
    if password != confirmPassword then Some(PasswordMismatch)
    else if Utf16Length(password) < MinPasswordLength then Some(PasswordTooShort)
    else None
  }

  /**
   * The credentials pass exactly when the two passwords agree and have six
   * code units or more; a mismatch is reported even when the password is
   * also too short. Three astral characters (three emoji) already pass, and
   * on text in the Basic Multilingual Plane the bound is six characters.
   */
  lemma CredentialsCheck(password: string, confirmPassword: string)
    ensures CredentialsError(password, confirmPassword).None? <==>
              password == confirmPassword && Utf16Length(password) >= MinPasswordLength
    ensures password != confirmPassword ==> CredentialsError(password, confirmPassword) == Some(PasswordMismatch)
    ensures password == confirmPassword && Utf16Length(password) < MinPasswordLength ==>
              CredentialsError(password, confirmPassword) == Some(PasswordTooShort)
    ensures password == confirmPassword && 2 * |password| < MinPasswordLength ==>
              CredentialsError(password, confirmPassword) == Some(PasswordTooShort)
    ensures InBmp(password) ==>
              (CredentialsError(password, password).None? <==> |password| >= MinPasswordLength)
  {
    if InBmp(password) {
      BmpLengthAgrees(password);
    }
  }

  function DigitFn(): char -> bool
  {
    c => IsDigit(c)
  }

  /** value.replace(/\D/g, ''): the digits of the typed text, in order. */
  function KeepDigits(s: string): (r: string)
    ensures AllDigits(r) && |r| <= |s|
  {
    Filter(s, DigitFn())
  }

  /**
   * The OTP field's onChange: keep the digits, accept them only if there are
   * at most six (a digit is one code unit, so the character count is the
   * JavaScript length).
   */
  function OnOtpInput(previous: string, typed: string): (r: string)
  {
    var value := KeepDigits(typed);
    if |value| <= OtpLength then value else previous
  }

  /**
   * The OTP field only ever holds at most six digits: the new value is the
   * typed digits when there are at most six of them, and the old value
   * otherwise.
   */
  lemma {:induction false} OtpInputSanitised(previous: string, typed: string)
    requires AllDigits(previous) && |previous| <= OtpLength
    ensures AllDigits(OnOtpInput(previous, typed)) && |OnOtpInput(previous, typed)| <= OtpLength
    ensures |KeepDigits(typed)| <= OtpLength ==> OnOtpInput(previous, typed) == KeepDigits(typed)
    ensures |KeepDigits(typed)| > OtpLength ==> OnOtpInput(previous, typed) == previous
    ensures IsSubsequence(KeepDigits(typed), typed)
  {
    FilterIsSubsequence(typed, DigitFn());
  }

  /** Typing digits only keeps them all. */
  lemma {:induction false} DigitsPassThrough(typed: string)
    requires AllDigits(typed)
    ensures KeepDigits(typed) == typed
  {
    FilterKeepsAll(typed, DigitFn());
  }

  /** The check of handleVerifyOtp before any call. */
  function OtpCodeError(otp: string): (r: Option<FormError>)
  {
    if Utf16Length(otp) != OtpLength then Some(OtpWrongLength) else None
  }

  /**
   * Six code units pass, anything else is refused with the 6-digit message;
   * for the digits the field holds, that is six characters.
   */
  lemma OtpCodeCheck(otp: string)
    ensures OtpCodeError(otp).None? <==> Utf16Length(otp) == OtpLength
    ensures OtpCodeError(otp).Some? ==> OtpCodeError(otp).value == OtpWrongLength
    ensures AllDigits(otp) ==> (OtpCodeError(otp).None? <==> |otp| == OtpLength)
  {
    if AllDigits(otp) {
      assert InBmp(otp);
      BmpLengthAgrees(otp);
    }
  }

  /** The page's state (its useState hooks; the translations and router are left out). */
  class RegisterForm {
    var email: string
    var password: string
    var confirmPassword: string
    var otp: string
    var error: Option<FormError>
    /** The "code sent" notice. */
    var otpSentShown: bool
    var loading: bool
    var step: Step

    /** The OTP field is only ever set by the sanitiser, or cleared. */
    ghost predicate Valid()
      reads this
    {
      AllDigits(otp) && |otp| <= OtpLength
    }

    constructor ()
      ensures Valid()
      ensures email == "" && password == "" && confirmPassword == "" && otp == ""
      ensures error == None && !otpSentShown && !loading && step == Credentials
    {
      email, password, confirmPassword, otp := "", "", "", "";
      error, otpSentShown, loading, step := None, false, false, Credentials;
    }

    method OnEmailChange(value: string)
      modifies this`email
      ensures email == value
    {
      email := value;
    }

    method OnPasswordChange(value: string)
      modifies this`password
      ensures password == value
    {
      password := value;
    }

    method OnConfirmPasswordChange(value: string)
      modifies this`confirmPassword
      ensures confirmPassword == value
    {
      confirmPassword := value;
    }

    /** The OTP input's onChange. */
    method OnOtpChange(typed: string)
      requires Valid()
      modifies this`otp
      ensures Valid()
      ensures otp == OnOtpInput(old(otp), typed)
    {
      var value := KeepDigits(typed);
      if |value| <= OtpLength {
        otp := value;
      }
      OtpInputSanitised(old(otp), typed);
    }

    /**
     * handleSendOtp: clear both notices; a failed credential check sets its
     * error and makes no call; otherwise call sendOtp and, on success, show
     * the notice and move to the OTP step, or on failure show the error and
     * stay on this step.
     */
    method HandleSendOtp(reply: ApiReply) returns (called: bool)
      requires Valid()
      modifies this
      ensures Valid()
      ensures email == old(email) && password == old(password) && confirmPassword == old(confirmPassword)
      ensures otp == old(otp)
      ensures called <==> CredentialsError(password, confirmPassword).None?
      ensures !called ==> error == CredentialsError(password, confirmPassword) && !otpSentShown
                          && step == old(step) && loading == old(loading)
      ensures called && reply.Accepted? ==> error == None && otpSentShown && step == OtpEntry && !loading
      ensures called && reply.Rejected? ==>
                error == Some(ReplyError(reply.message, OtpError)) && !otpSentShown && step == old(step) && !loading
    {
      error := None;
      otpSentShown := false;
      if password != confirmPassword {
        error := Some(PasswordMismatch);
        return false;
      }
      if Utf16Length(password) < MinPasswordLength {
        error := Some(PasswordTooShort);
        return false;
      }
      loading := true;
      called := true;
      match reply {
        case Accepted =>
          otpSentShown := true;
          step := OtpEntry;
        case Rejected(message) =>
          error := Some(ReplyError(message, OtpError));
      }
      loading := false;
    }

    /**
     * handleVerifyOtp: clear both notices; a code that is not six characters
     * long is refused without a call; otherwise call verifyOtp and, on
     * success, store the session and go to the home page, or show the error.
     */
    method HandleVerifyOtp(reply: ApiReply) returns (called: bool, signedIn: bool)
      requires Valid()
      modifies this
      ensures Valid()
      ensures email == old(email) && password == old(password) && confirmPassword == old(confirmPassword)
      ensures otp == old(otp) && step == old(step)
      ensures !otpSentShown
      ensures called <==> |otp| == OtpLength
      ensures signedIn <==> called && reply.Accepted?
      ensures !called ==> error == Some(OtpWrongLength) && loading == old(loading)
      ensures called && reply.Accepted? ==> error == None && !loading
      ensures called && reply.Rejected? ==> error == Some(ReplyError(reply.message, VerifyError)) && !loading
    {
      error := None;
      otpSentShown := false;
      signedIn := false;
      OtpCodeCheck(otp);
      if OtpCodeError(otp).Some? {
        error := Some(OtpWrongLength);
        return false, false;
      }
      loading := true;
      called := true;
      match reply {
        case Accepted =>
          // setAuthData(...) and router.push('/')
          signedIn := true;
        case Rejected(message) =>
          error := Some(ReplyError(message, VerifyError));
      }
      loading := false;
    }

    /**
     * handleResendOtp: always calls sendOtp with the same credentials; on
     * success shows the notice and clears the code field, on failure shows
     * the error. The step does not change.
     */
    method HandleResendOtp(reply: ApiReply)
      requires Valid()
      modifies this
      ensures Valid()
      ensures email == old(email) && password == old(password) && confirmPassword == old(confirmPassword)
      ensures step == old(step) && !loading
      ensures reply.Accepted? ==> error == None && otpSentShown && otp == ""
      ensures reply.Rejected? ==> error == Some(ReplyError(reply.message, OtpError)) && !otpSentShown && otp == old(otp)
    {
      error := None;
      otpSentShown := false;
      loading := true;
      match reply {
        case Accepted =>
          otpSentShown := true;
          otp := "";
        case Rejected(message) =>
          error := Some(ReplyError(message, OtpError));
      }
      loading := false;
    }

    /** "Back to email/password": return to the first step with the code and both notices cleared. */
    method Back()
      requires Valid()
      modifies this
      ensures Valid()
      ensures step == Credentials && otp == "" && error == None && !otpSentShown
      ensures email == old(email) && password == old(password) && confirmPassword == old(confirmPassword)
      ensures loading == old(loading)
    {
      step := Credentials;
      otp := "";
      error := None;
      otpSentShown := false;
    }
  }

  /**
   * Registering from a fresh form: matching six-character passwords and an
   * accepted send lead to the OTP step; six typed digits and an accepted
   * verification sign the user in.
   */
  method HappyPath(email: string, password: string, code: string) returns (f: RegisterForm, signedIn: bool)
    requires Utf16Length(password) >= MinPasswordLength
    requires |code| == OtpLength && AllDigits(code)
    ensures signedIn && f.step == OtpEntry && f.error == None
  {
    f := new RegisterForm();
    f.OnEmailChange(email);
    f.OnPasswordChange(password);
    f.OnConfirmPasswordChange(password);
    CredentialsCheck(password, password);
    var sent := f.HandleSendOtp(Accepted);
    DigitsPassThrough(code);
    f.OnOtpChange(code);
    var called;
    called, signedIn := f.HandleVerifyOtp(Accepted);
  }
}

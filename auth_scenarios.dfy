/**
 * Call sequences against AuthService and what the service's contracts
 * guarantee about them: the promises of the registration flow that involve
 * more than one request.
 */
module AuthScenarios {
  import opened Outcomes
  import opened Identity
  import opened OtpCode
  import opened Users
  import opened Auth

  /** A wrong guess does not burn the code: the right code still registers before the deadline. */
  method WrongCodeThenRightCode(svc: AuthService, email: string, password: string, code: nat,
                                wrong: string, sentAt: nat, guessAt: nat, retryAt: nat)
    returns (sent: Result<string, AuthError>, guess: Result<AuthResponse, AuthError>,
             retry: Result<AuthResponse, AuthError>)
    requires svc.Valid() && svc.users.FindByEmail(email).None?
    requires MinCode <= code <= MaxCode
    requires |wrong| == 6 && wrong != Decimal(code)
    requires sentAt <= guessAt <= retryAt <= sentAt + OtpLifetime
    modifies svc
    ensures sent == Success(OtpSentMessage)
    ensures guess == Failure(BadRequest(InvalidOtpMessage))
    ensures retry.Success? && retry.value.user.email == email
    ensures svc.Valid() && email !in svc.otpCache && svc.users.FindByEmail(email).Some?
  {
    sent := svc.SendOtp(email, password, code, true, sentAt);
    guess := svc.VerifyOtpAndRegister(email, wrong, guessAt);
    CodeIsSixDigits(code);
    retry := svc.VerifyOtpAndRegister(email, Decimal(code), retryAt);
    assert svc.users.byId[retry.value.user.id].email == email;
  }

  /** A resend replaces the code: the first code is refused and the second one registers. */
  method ResendReplacesCode(svc: AuthService, email: string, password: string, first: nat, second: nat,
                            now: nat)
    returns (oldCode: Result<AuthResponse, AuthError>, newCode: Result<AuthResponse, AuthError>)
    requires svc.Valid() && svc.users.FindByEmail(email).None?
    requires MinCode <= first <= MaxCode && MinCode <= second <= MaxCode && first != second
    modifies svc
    ensures oldCode == Failure(BadRequest(InvalidOtpMessage))
    ensures newCode.Success? && newCode.value.user.email == email
  {
    var _ := svc.SendOtp(email, password, first, true, now);
    var _ := svc.SendOtp(email, password, second, true, now);
    DecimalInjective(first, second);
    CodeIsSixDigits(first);
    CodeIsSixDigits(second);
    oldCode := svc.VerifyOtpAndRegister(email, Decimal(first), now);
    newCode := svc.VerifyOtpAndRegister(email, Decimal(second), now);
  }

  /** A late verification deletes the entry, so even the right code then finds nothing. */
  method LateCodeIsGone(svc: AuthService, email: string, password: string, code: nat, sentAt: nat, lateAt: nat)
    returns (late: Result<AuthResponse, AuthError>, again: Result<AuthResponse, AuthError>)
    requires svc.Valid() && svc.users.FindByEmail(email).None?
    requires MinCode <= code <= MaxCode
    requires lateAt > sentAt + OtpLifetime
    modifies svc
    ensures late == Failure(BadRequest(OtpExpiredMessage))
    ensures again == Failure(NotFound(OtpNotFoundMessage))
    ensures svc.users == old(svc.users)
  {
    var _ := svc.SendOtp(email, password, code, true, sentAt);
    CodeIsSixDigits(code);
    late := svc.VerifyOtpAndRegister(email, Decimal(code), lateAt);
    again := svc.VerifyOtpAndRegister(email, Decimal(code), lateAt);
  }

  /** Once registered, the email cannot start another registration. */
  method RegisteredEmailConflicts(svc: AuthService, email: string, password: string, code: nat, next: nat, now: nat)
    returns (second: Result<string, AuthError>)
    requires svc.Valid() && svc.users.FindByEmail(email).None?
    requires MinCode <= code <= MaxCode && MinCode <= next <= MaxCode
    modifies svc
    ensures second == Failure(Conflict(UserExistsMessage))
  {
    var _ := svc.SendOtp(email, password, code, true, now);
    CodeIsSixDigits(code);
    var registered := svc.VerifyOtpAndRegister(email, Decimal(code), now);
    assert svc.users.byId[registered.value.user.id].email == email;
    second := svc.SendOtp(email, password, next, true, now);
  }

  /** After logout no refresh token is accepted for that user, whatever is presented. */
  method LogoutEndsRefresh(svc: AuthService, userId: UserId, presented: Jwt, now: nat)
    returns (r: Result<TokenPair, AuthError>)
    requires svc.Valid()
    modifies svc
    ensures r == Failure(Unauthorized(AccessDeniedMessage))
  {
    svc.Logout(userId);
    r := svc.RefreshTokens(userId, presented, now);
  }

  /** Login stores the refresh token it returns, and that token is then accepted once. */
  method LoginThenRefresh(svc: AuthService, email: string, password: string, loginAt: nat, refreshAt: nat)
    returns (login: Result<AuthResponse, AuthError>, refreshed: Result<TokenPair, AuthError>,
             replay: Result<TokenPair, AuthError>)
    requires svc.Valid()
    requires svc.users.FindByEmail(email).Some? && Compare(password, svc.users.FindByEmail(email).value.password)
    requires loginAt / 1000 != refreshAt / 1000
    modifies svc
    ensures login.Success?
    ensures refreshed.Success?
    ensures replay == Failure(Unauthorized(AccessDeniedMessage))
  {
    login := svc.Login(email, password, loginAt);
    var id := login.value.user.id;
    refreshed := svc.RefreshTokens(id, login.value.refreshToken, refreshAt);
    RotationChangesToken(id, email, login.value.user.role, loginAt, refreshAt);
    replay := svc.RefreshTokens(id, login.value.refreshToken, refreshAt);
  }
}

/**
 * AuthService: OTP-gated registration over an in-memory pending table,
 * and the stored refresh token behind login, refresh and logout.
 *
 * The clock is the parameter `now` (milliseconds), the random draw of the
 * code is the parameter `code`, and whether the mailer delivered the code is
 * the parameter `delivered`. The periodic timer that calls
 * CleanupExpiredOtps is not modelled: the sweep is an ordinary call.
 */
module Auth {
  import opened Outcomes
  import opened Identity
  import opened OtpCode
  import opened Users

  /** Ten minutes, the lifetime of a code. */
  const OtpLifetime: nat := 10 * 60 * 1000

  const UserExistsMessage := "User with this email already exists"
  const MailFailedMessage := "Failed to send OTP email. Please check your email address."
  const OtpSentMessage := "OTP sent successfully to your email"
  const OtpNotFoundMessage := "OTP not found or expired. Please request a new one."
  const OtpExpiredMessage := "OTP has expired. Please request a new one."
  const InvalidOtpMessage := "Invalid OTP code"
  const InvalidCredentialsMessage := "Invalid credentials"
  const AccessDeniedMessage := "Access Denied"

  /** The exceptions the service raises, each with its message. */
  datatype AuthError =
    | Conflict(message: string)
    | BadRequest(message: string)
    | NotFound(message: string)
    | Unauthorized(message: string)

  /** A pending registration: the code, the digest of the chosen password, the deadline. */
  datatype OtpData = OtpData(otp: string, hashedPassword: Digest, expiresAt: nat)

  datatype TokenPair = TokenPair(accessToken: Jwt, refreshToken: Jwt)

  /** The public view of a user returned with the tokens. */
  datatype UserView = UserView(id: UserId, email: string, role: Role)

  datatype AuthResponse = AuthResponse(accessToken: Jwt, refreshToken: Jwt, user: UserView)

  /** An entry the sweep and the verifier both treat as dead: the clock is strictly past its deadline. */
  predicate Expired(data: OtpData, now: nat)
  {
    now > data.expiresAt
  }

  /** What a sweep at time `now` leaves of `cache`. */
  function Unexpired(cache: map<string, OtpData>, now: nat): (r: map<string, OtpData>)
  {
    map email | email in cache && !Expired(cache[email], now) :: cache[email]
  }

  /** A sweep removes exactly the expired entries and leaves every other entry as it was. */
  lemma SweepRemovesExactlyExpired(cache: map<string, OtpData>, now: nat, email: string)
    ensures email in Unexpired(cache, now) <==> email in cache && !Expired(cache[email], now)
    ensures email in Unexpired(cache, now) ==> Unexpired(cache, now)[email] == cache[email]
  {
  }

  /** A second sweep at the same time or earlier removes nothing more. */
  lemma SweepIdempotent(cache: map<string, OtpData>, now: nat, earlier: nat)
    requires earlier <= now
    ensures Unexpired(Unexpired(cache, now), earlier) == Unexpired(cache, now)
  {
  }

  /**
   * getTokens: an access token and a refresh token over the same claims,
   * signed with the two different secrets, issued in the current second.
   */
  function GetTokens(userId: UserId, email: string, role: Role, now: nat): (p: TokenPair)
    ensures p.accessToken.claims == p.refreshToken.claims == Claims(userId, email, role)
    ensures p.accessToken.kind == AccessToken && p.refreshToken.kind == RefreshToken
    ensures p.accessToken != p.refreshToken
  {
    var claims := Claims(userId, email, role);
    TokenPair(Jwt(claims, AccessToken, now / 1000), Jwt(claims, RefreshToken, now / 1000))
  }

  /**
   * Rotation issues a refresh token different from the old one exactly when
   * the clock has moved on to another second (a JWT carries its issue second).
   */
  lemma RotationChangesToken(userId: UserId, email: string, role: Role, before: nat, after: nat)
    ensures GetTokens(userId, email, role, before).refreshToken != GetTokens(userId, email, role, after).refreshToken
            <==> before / 1000 != after / 1000
  {
  }

  class AuthService {
    /** otpCache: pending registrations keyed by email. */
    var otpCache: map<string, OtpData>
    /** The users repository the service reads and writes. */
    var users: UserStore

    /**
     * The store is consistent, nobody holding an account has a pending
     * registration, and every stored code is six digits.
     */
    ghost predicate Valid()
      reads this
    {
      && users.Valid()
      && (forall email | email in otpCache :: email !in users.emails && IsOtpCode(otpCache[email].otp))
    }

    constructor (users: UserStore)
      requires users.Valid()
      ensures Valid() && otpCache == map[] && this.users == users
    {
      this.otpCache := map[];
      this.users := users;
    }

    /** cleanupExpiredOtps: walk the entries and delete each one whose deadline has passed. */
    method CleanupExpiredOtps(now: nat)
      requires Valid()
      modifies this
      ensures Valid() && users == old(users)
      ensures otpCache == Unexpired(old(otpCache), now)
    {
      var pending := otpCache.Keys;
      while pending != {}
        invariant Valid() && users == old(users)
        invariant pending <= old(otpCache).Keys
        invariant otpCache == map email | email in old(otpCache) && (email in pending || !Expired(old(otpCache)[email], now)) :: old(otpCache)[email]
        decreases pending
      {
        var email :| email in pending;
        pending := pending - {email};
        if now > otpCache[email].expiresAt {
          otpCache := otpCache - {email};
        }
      }
    }

    /**
     * sendOtp: refuse an email that already has an account; otherwise store
     * (or replace) the pending entry with a fresh code, the password's digest
     * and a ten-minute deadline, then mail the code, rolling the entry back if
     * the mail fails.
     */
    method SendOtp(email: string, password: string, code: nat, delivered: bool, now: nat)
      returns (r: Result<string, AuthError>)
      requires Valid()
      requires MinCode <= code <= MaxCode
      modifies this
      ensures Valid() && users == old(users)
      ensures old(users.FindByEmail(email)).Some? ==>
                r == Failure(Conflict(UserExistsMessage)) && otpCache == old(otpCache)
      ensures old(users.FindByEmail(email)).None? && delivered ==>
                && r == Success(OtpSentMessage)
                && otpCache == old(otpCache)[email := OtpData(Decimal(code), Hash(password), now + OtpLifetime)]
      ensures old(users.FindByEmail(email)).None? && !delivered ==>
                r == Failure(BadRequest(MailFailedMessage)) && otpCache == old(otpCache) - {email}
    {
      var existingUser := users.FindByEmail(email);
      if existingUser.Some? {
        return Failure(Conflict(UserExistsMessage));
      }
      var otp := Decimal(code);
      CodeIsSixDigits(code);
      var hashedPassword := Hash(password);
      var expiresAt := now + OtpLifetime;
      otpCache := otpCache[email := OtpData(otp, hashedPassword, expiresAt)];
      if !delivered {
        otpCache := otpCache - {email};
        return Failure(BadRequest(MailFailedMessage));
      }
      return Success(OtpSentMessage);
    }

    /**
     * verifyOtpAndRegister: NotFound without an entry; an expired entry is
     * deleted and refused; a wrong code is refused and the entry kept; the
     * right code creates the account with the stored digest, consumes the
     * entry, stores the new refresh token and returns the tokens and user.
     */
    method VerifyOtpAndRegister(email: string, otp: string, now: nat)
      returns (r: Result<AuthResponse, AuthError>)
      requires Valid()
      requires |otp| == 6
      modifies this
      ensures Valid()
      ensures email !in old(otpCache) ==>
                r == Failure(NotFound(OtpNotFoundMessage)) && otpCache == old(otpCache) && users == old(users)
      ensures email in old(otpCache) && Expired(old(otpCache)[email], now) ==>
                && r == Failure(BadRequest(OtpExpiredMessage))
                && otpCache == old(otpCache) - {email} && users == old(users)
      ensures email in old(otpCache) && !Expired(old(otpCache)[email], now) && old(otpCache)[email].otp != otp ==>
                r == Failure(BadRequest(InvalidOtpMessage)) && otpCache == old(otpCache) && users == old(users)
      ensures email in old(otpCache) && !Expired(old(otpCache)[email], now) && old(otpCache)[email].otp == otp ==>
                && r.Success?
                && otpCache == old(otpCache) - {email}
                && r.value.user == UserView(r.value.user.id, email, USER)
                && r.value.user.id !in old(users.byId)
                && TokenPair(r.value.accessToken, r.value.refreshToken) == GetTokens(r.value.user.id, email, USER, now)
                && users.byId == old(users.byId)[r.value.user.id :=
                     User(r.value.user.id, email, old(otpCache)[email].hashedPassword, USER, Some(r.value.refreshToken))]
    {
      if email !in otpCache {
        return Failure(NotFound(OtpNotFoundMessage));
      }
      var otpData := otpCache[email];
      if now > otpData.expiresAt {
        otpCache := otpCache - {email};
        return Failure(BadRequest(OtpExpiredMessage));
      }
      if otpData.otp != otp {
        return Failure(BadRequest(InvalidOtpMessage));
      }
      var created := users.CreateWithHashedPassword(email, otpData.hashedPassword);
      var user := created.1;
      users := created.0;
      otpCache := otpCache - {email};
      // the welcome mail is best effort: its failure is only logged
      var tokens := GetTokens(user.id, user.email, user.role, now);
      users := users.UpdateRefreshToken(user.id, Some(tokens.refreshToken));
      return Success(AuthResponse(tokens.accessToken, tokens.refreshToken, UserView(user.id, user.email, user.role)));
    }

    /**
     * login: the same Unauthorized error for an unknown email and a wrong
     * password; otherwise a fresh token pair whose refresh token is stored.
     */
    method Login(email: string, password: string, now: nat) returns (r: Result<AuthResponse, AuthError>)
      requires Valid()
      modifies this
      ensures Valid() && otpCache == old(otpCache)
      ensures r.Failure? <==> old(users.FindByEmail(email)).None? || !Compare(password, old(users.FindByEmail(email)).value.password)
      ensures r.Failure? ==> r.error == Unauthorized(InvalidCredentialsMessage) && users == old(users)
      ensures r.Success? ==>
                var user := old(users.FindByEmail(email)).value;
                var tokens := GetTokens(user.id, user.email, user.role, now);
                && r.value == AuthResponse(tokens.accessToken, tokens.refreshToken, UserView(user.id, user.email, user.role))
                && users == old(users).UpdateRefreshToken(user.id, Some(tokens.refreshToken))
    {
      var found := users.FindByEmail(email);
      if found.None? {
        return Failure(Unauthorized(InvalidCredentialsMessage));
      }
      var user := found.value;
      var isPasswordValid := Compare(password, user.password);
      if !isPasswordValid {
        return Failure(Unauthorized(InvalidCredentialsMessage));
      }
      var tokens := GetTokens(user.id, user.email, user.role, now);
      users := users.UpdateRefreshToken(user.id, Some(tokens.refreshToken));
      return Success(AuthResponse(tokens.accessToken, tokens.refreshToken, UserView(user.id, user.email, user.role)));
    }

    /**
     * refreshTokens: Access Denied when the user is missing, has no stored
     * token, or presents a different one; otherwise a new pair, whose refresh
     * token replaces the stored one.
     */
    method RefreshTokens(userId: UserId, refreshToken: Jwt, now: nat) returns (r: Result<TokenPair, AuthError>)
      requires Valid()
      modifies this
      ensures Valid() && otpCache == old(otpCache)
      ensures r.Failure? <==>
                || userId !in old(users.byId)
                || old(users.byId)[userId].refreshToken != Some(refreshToken)
      ensures r.Failure? ==> r.error == Unauthorized(AccessDeniedMessage) && users == old(users)
      ensures r.Success? ==>
                var user := old(users.byId)[userId];
                && r.value == GetTokens(userId, user.email, user.role, now)
                && users == old(users).UpdateRefreshToken(userId, Some(r.value.refreshToken))
    {
      var found := users.FindById(userId);
      if found.None? || found.value.refreshToken.None? {
        return Failure(Unauthorized(AccessDeniedMessage));
      }
      var user := found.value;
      // bcrypt.compare against what updateRefreshToken recorded
      var refreshTokenMatches := user.refreshToken.value == refreshToken;
      if !refreshTokenMatches {
        return Failure(Unauthorized(AccessDeniedMessage));
      }
      var tokens := GetTokens(user.id, user.email, user.role, now);
      users := users.UpdateRefreshToken(user.id, Some(tokens.refreshToken));
      return Success(tokens);
    }

    /** logout: clear the stored refresh token. */
    method Logout(userId: UserId)
      requires Valid()
      modifies this
      ensures Valid() && otpCache == old(otpCache)
      ensures users == old(users).UpdateRefreshToken(userId, None)
      ensures userId in users.byId ==> users.byId[userId].refreshToken == None
    {
      users := users.UpdateRefreshToken(userId, None);
    }
  }
}

/** The OTP signup and login flows of lib/DL/registration.py.

    Two document collections are kept per email: `users` (registered accounts)
    and `otp_verifications` (the outstanding one-time code, its expiry and, during
    signup, the staged password hash). Both are modelled as maps keyed by email,
    fields of `Ledger` that the four handlers update in place. The random draw, the
    clock, bcrypt, the token minting and the ObjectId that MongoDB assigns are
    parameters. */
module Registration {
  import opened Wrappers
  import opened Common

  /** `timedelta(minutes=5)` */
  const OTP_LIFETIME: int := 5 * MINUTE

  /** The `expires_at` a record issued at `now` holds once stored: five minutes
      later, cut to the millisecond. It is never later than `now + OTP_LIFETIME`
      and less than a millisecond earlier. */
  function Expiry(now: Instant): (e: Instant)
    ensures now + OTP_LIFETIME - MILLISECOND < e <= now + OTP_LIFETIME
  {
    Stored(now + OTP_LIFETIME)
  }
  /** The range of `random.randint(100000, 999999)`. */
  const OTP_LOW: nat := 100000
  const OTP_HIGH: nat := 999999

  const EMAIL_TAKEN: Failure := HttpError(400, "Email already registered")
  const INVALID_OTP: Failure := HttpError(400, "Invalid OTP")
  const OTP_EXPIRED: Failure := HttpError(400, "OTP expired")
  const BAD_CREDENTIALS: Failure := HttpError(400, "Invalid email or password")
  /** `record["password"]` on a record that has no such field. */
  const MISSING_PASSWORD: Failure := Unhandled("KeyError")
  /** `user["email"]` when `find_one` returned `None`. */
  const MISSING_USER: Failure := Unhandled("TypeError")

  /** A document of `otp_verifications`; `password` is only set by signup. */
  datatype OtpRecord = OtpRecord(code: string, expiresAt: Instant, password: Option<string>)

  /** A document of `users`: its ObjectId and its (optional) password hash. */
  datatype UserRecord = UserRecord(id: string, password: Option<string>)

  /** One call of `send_otp_email(receiver, otp)`. */
  datatype Mail = Mail(to: string, code: string)

  /** The successful responses of the four handlers. */
  datatype Reply =
    | SignupPending(email: string)
    | SignupDone
    | LoginPending(userId: string)
    | LoginDone(userId: string, accessToken: string)

  /** bcrypt: `hashpw(password, salt)` and `checkpw(password, hash)`. */
  datatype Hasher = Hasher(hashpw: (string, string) -> string, checkpw: (string, string) -> bool)

  /** What bcrypt promises: a hash is never empty, and a password matches every
      hash made from it. */
  ghost predicate Sound(h: Hasher) {
    forall pw, salt :: h.hashpw(pw, salt) != "" && h.checkpw(pw, h.hashpw(pw, salt))
  }

  // ---------------------------------------------------------------------
  // OTP codes: `str(random.randint(100000, 999999))`
  // ---------------------------------------------------------------------

  function DigitChar(d: nat): (c: char)
    requires d < 10
    ensures '0' <= c <= '9'
  {
    ('0' as int + d) as char
  }

  predicate IsDigits(s: string) {
    forall i :: 0 <= i < |s| ==> '0' <= s[i] <= '9'
  }

  /** `str(n)` for a natural number. */
  function Decimal(n: nat): (s: string)
    ensures |s| >= 1 && IsDigits(s)
  {
    if n < 10 then [DigitChar(n)] else Decimal(n / 10) + [DigitChar(n % 10)]
  }

  /** The number a string of decimal digits denotes (`int(s)`). */
  function DecimalValue(s: string): nat
    requires IsDigits(s)
  {
    if s == [] then 0 else 10 * DecimalValue(s[..|s| - 1]) + (s[|s| - 1] as int - '0' as int)
  }

  /** How many digits `str(n)` has. */
  function Width(n: nat): nat {
    if n < 10 then 1 else 1 + Width(n / 10)
  }

  function Pow10(k: nat): (p: nat)
    ensures p >= 1
  {
    if k == 0 then 1 else 10 * Pow10(k - 1)
  }

  /** `str` and `int` are inverse on naturals, `str(n)` has `Width(n)` digits
      and no leading zero unless `n` is 0. */
  lemma {:induction false} DecimalRoundTrip(n: nat)
    ensures DecimalValue(Decimal(n)) == n
    ensures |Decimal(n)| == Width(n)
    ensures n >= 10 ==> Decimal(n)[0] != '0'
  {
    if n >= 10 {
      DecimalRoundTrip(n / 10);
      var s := Decimal(n);
      assert s[..|s| - 1] == Decimal(n / 10);
      assert Decimal(n)[0] == Decimal(n / 10)[0];
    }
  }

  /** A number with `k` digits in base ten has width `k`. */
  lemma {:induction false} WidthOfRange(n: nat, k: nat)
    requires k >= 1 && Pow10(k - 1) <= n < Pow10(k)
    ensures Width(n) == k
  {
    if k > 1 {
      TenthInRange(n, k);
      WidthOfRange(n / 10, k - 1);
    }
  }

  lemma TenthInRange(n: nat, k: nat)
    requires k >= 2 && Pow10(k - 1) <= n < Pow10(k)
    ensures n >= 10 && Pow10(k - 2) <= n / 10 < Pow10(k - 1)
  {
    assert Pow10(k - 1) == 10 * Pow10(k - 2);
    assert Pow10(k) == 10 * Pow10(k - 1);
  }

  lemma SixDigitBounds()
    ensures Pow10(5) == 100000 && Pow10(6) == 1000000
  {
    assert Pow10(1) == 10;
    assert Pow10(2) == 100;
    assert Pow10(3) == 1000;
    assert Pow10(4) == 10000;
  }

  /** An OTP as the handlers generate it: six digits, the first not zero. */
  predicate IsOtpCode(s: string) {
    |s| == 6 && IsDigits(s) && s[0] != '0'
  }

  /** Every draw of `randint(100000, 999999)` prints as a six-digit code with no
      leading zero, and the code gives the draw back. */
  lemma OtpCodeShape(draw: nat)
    requires OTP_LOW <= draw <= OTP_HIGH
    ensures IsOtpCode(Decimal(draw)) && DecimalValue(Decimal(draw)) == draw
  {
    DecimalRoundTrip(draw);
    SixDigitBounds();
    WidthOfRange(draw, 6);
  }

  /** Different draws give different codes, so a reissued code differs from the
      previous one unless the two draws coincide. */
  lemma OtpCodeInjective(a: nat, b: nat)
    requires OTP_LOW <= a <= OTP_HIGH && OTP_LOW <= b <= OTP_HIGH
    ensures Decimal(a) == Decimal(b) <==> a == b
  {
    OtpCodeShape(a);
    OtpCodeShape(b);
  }

  // ---------------------------------------------------------------------
  // The verification check shared by signup_verify and login_verify
  // ---------------------------------------------------------------------

  function Lookup(otps: map<string, OtpRecord>, email: string): Option<OtpRecord> {
    if email in otps then Some(otps[email]) else None
  }

  /** `if not record or record["otp"] != otp: 400 "Invalid OTP"`, then
      `if utcnow() > record["expires_at"]: 400 "OTP expired"`. A missing record and
      a wrong code give the same error, the code is compared before the expiry,
      and a code presented exactly at its expiry is still accepted. */
  function CheckOtp(record: Option<OtpRecord>, code: string, now: Instant): (r: Outcome<Failure>)
    ensures r == Pass <==> record.Some? && record.value.code == code && now <= record.value.expiresAt
    ensures r == Fail(INVALID_OTP) <==> record.None? || record.value.code != code
    ensures r == Fail(OTP_EXPIRED) <==> record.Some? && record.value.code == code && now > record.value.expiresAt
  {
    if record.None? || record.value.code != code then Fail(INVALID_OTP)
    else if now > record.value.expiresAt then Fail(OTP_EXPIRED)
    else Pass
  }

  /** A record issued on a whole millisecond lives exactly five minutes. */
  lemma FullLifetimeOnWholeMillisecond(t: Instant)
    requires t % MILLISECOND == 0
    ensures Expiry(t) == t + OTP_LIFETIME
  {
    var k := t / MILLISECOND;
    assert t == k * MILLISECOND;
    assert t + OTP_LIFETIME == (k + OTP_LIFETIME / MILLISECOND) * MILLISECOND;
  }

  /** A record issued part-way through a millisecond is already expired when the
      right code arrives exactly five minutes later. */
  lemma LastMillisecondExpired(t: Instant, code: string, staged: Option<string>)
    requires t % MILLISECOND != 0
    ensures CheckOtp(Some(OtpRecord(code, Expiry(t), staged)), code, t + OTP_LIFETIME) == Fail(OTP_EXPIRED)
  {
    var k := t / MILLISECOND;
    var e := Expiry(t);
    assert e % MILLISECOND == 0;
    assert (t + OTP_LIFETIME) % MILLISECOND == t % MILLISECOND;
  }

  /** Once a record is replaced by a fresh issue, only the new code verifies: any
      other code, in particular any earlier one, is rejected as "Invalid OTP". */
  lemma StaleCodeRejected(draw: nat, issuedAt: Instant, staged: Option<string>, code: string, now: Instant)
    requires OTP_LOW <= draw <= OTP_HIGH
    requires code != Decimal(draw)
    ensures CheckOtp(Some(OtpRecord(Decimal(draw), Expiry(issuedAt), staged)), code, now) == Fail(INVALID_OTP)
  {
  }

  /** A code that is not six digits without a leading zero never verifies against
      a record issued by the handlers. */
  lemma MalformedCodeRejected(draw: nat, issuedAt: Instant, staged: Option<string>, code: string, now: Instant)
    requires OTP_LOW <= draw <= OTP_HIGH
    requires !IsOtpCode(code)
    ensures CheckOtp(Some(OtpRecord(Decimal(draw), Expiry(issuedAt), staged)), code, now) == Fail(INVALID_OTP)
  {
    OtpCodeShape(draw);
  }

  /** `login_request`'s credential test: the user exists, has a non-empty password
      hash, and bcrypt accepts the password against it. */
  predicate CredentialsAccepted(users: map<string, UserRecord>, email: string, password: string, h: Hasher) {
    email in users && users[email].password.Some? && users[email].password.value != "" &&
    h.checkpw(password, users[email].password.value)
  }

  // ---------------------------------------------------------------------
  // The two collections and the handlers
  // ---------------------------------------------------------------------

  class Ledger {
    /** `users_collection`, keyed by email. */
    var users: map<string, UserRecord>
    /** `otp_collection`, keyed by email (at most one live record per email). */
    var otps: map<string, OtpRecord>
    /** Every code handed to the mail transport, in order. */
    var outbox: seq<Mail>

    /** Every stored code has the shape the generator produces, and a staged
        password only ever sits beside an email that is not yet registered, so
        promoting it never overwrites an existing account. */
    ghost predicate Valid()
      reads this
    {
      (forall e :: e in otps ==> IsOtpCode(otps[e].code)) &&
      (forall e :: e in otps && otps[e].password.Some? ==> e !in users)
    }

    constructor ()
      ensures Valid()
      ensures users == map[] && otps == map[] && outbox == []
    {
      users, otps, outbox := map[], map[], [];
    }

    /** `generate_and_send_otp`: drop every pending record for the email, store a
        fresh code expiring five minutes from now, and mail it. Whether the mail
        was delivered is not looked at. */
    method IssueOtp(email: string, draw: nat, now: Instant)
      requires Valid()
      requires OTP_LOW <= draw <= OTP_HIGH
      modifies this
      ensures Valid()
      ensures otps == old(otps)[email := OtpRecord(Decimal(draw), Expiry(now), None)]
      ensures users == old(users)
      ensures outbox == old(outbox) + [Mail(email, Decimal(draw))]
    {
      var code := Decimal(draw);
      OtpCodeShape(draw);
      otps := otps - {email};
      otps := otps[email := OtpRecord(code, Expiry(now), None)];
      outbox := outbox + [Mail(email, code)];
    }

    /** `signup_request`: refuse a registered email with 400 before anything is
        issued; otherwise issue a code and stage the bcrypt hash of the password
        in the new record. */
    method SignupRequest(email: string, password: string, salt: string, h: Hasher, draw: nat, now: Instant)
      returns (r: Result<Reply, Failure>)
      requires Valid()
      requires OTP_LOW <= draw <= OTP_HIGH
      modifies this
      ensures Valid()
      ensures email in old(users) ==>
        r == Failure(EMAIL_TAKEN) && users == old(users) && otps == old(otps) && outbox == old(outbox)
      ensures email !in old(users) ==>
        && r == Success(SignupPending(email))
        && users == old(users)
        && otps == old(otps)[email := OtpRecord(Decimal(draw), Expiry(now), Some(h.hashpw(password, salt)))]
        && outbox == old(outbox) + [Mail(email, Decimal(draw))]
    {
      if email in users {
        return Failure(EMAIL_TAKEN);
      }
      IssueOtp(email, draw, now);
      var passwordHash := h.hashpw(password, salt);
      // update_one({"email": email}, {"$set": {"password": ...}}, upsert=True)
      otps := otps[email := otps[email].(password := Some(passwordHash))];
      r := Success(SignupPending(email));
    }

    /** `signup_verify`: on a matching, unexpired code, create the account with
        the staged hash and delete the record. A record issued by login has no
        staged hash: reading it raises before anything is written. */
    method SignupVerify(email: string, code: string, now: Instant, newId: string)
      returns (r: Result<Reply, Failure>)
      requires Valid()
      modifies this
      ensures Valid()
      ensures outbox == old(outbox)
      ensures var check := CheckOtp(Lookup(old(otps), email), code, now);
        check.Fail? ==> r == Failure(check.error) && users == old(users) && otps == old(otps)
      ensures var check := CheckOtp(Lookup(old(otps), email), code, now);
        check.Pass? && old(otps)[email].password.None? ==>
          r == Failure(MISSING_PASSWORD) && users == old(users) && otps == old(otps)
      ensures var check := CheckOtp(Lookup(old(otps), email), code, now);
        check.Pass? && old(otps)[email].password.Some? ==>
          && r == Success(SignupDone)
          && email !in old(users)
          && users == old(users)[email := UserRecord(newId, old(otps)[email].password)]
          && otps == old(otps) - {email}
    {
      var record := Lookup(otps, email);
      var check := CheckOtp(record, code, now);
      if check.Fail? {
        return Failure(check.error);
      }
      if record.value.password.None? {
        return Failure(MISSING_PASSWORD);
      }
      users := users[email := UserRecord(newId, record.value.password)];
      otps := otps - {email};
      r := Success(SignupDone);
    }

    /** `login_request`: an unknown email, an account without a password and a
        wrong password all give the same 400 and issue nothing; otherwise a code
        is issued and the account's id returned. */
    method LoginRequest(email: string, password: string, h: Hasher, draw: nat, now: Instant)
      returns (r: Result<Reply, Failure>)
      requires Valid()
      requires OTP_LOW <= draw <= OTP_HIGH
      modifies this
      ensures Valid()
      ensures users == old(users)
      ensures !CredentialsAccepted(old(users), email, password, h) ==>
        r == Failure(BAD_CREDENTIALS) && otps == old(otps) && outbox == old(outbox)
      ensures CredentialsAccepted(old(users), email, password, h) ==>
        && r == Success(LoginPending(old(users)[email].id))
        && otps == old(otps)[email := OtpRecord(Decimal(draw), Expiry(now), None)]
        && outbox == old(outbox) + [Mail(email, Decimal(draw))]
    {
      if email !in users || users[email].password.None? || users[email].password.value == "" {
        return Failure(BAD_CREDENTIALS);
      }
      var user := users[email];
      if !h.checkpw(password, user.password.value) {
        return Failure(BAD_CREDENTIALS);
      }
      IssueOtp(email, draw, now);
      r := Success(LoginPending(user.id));
    }

    /** `login_verify`: on a matching, unexpired code, delete the record and mint
        a token for the email. The record is deleted before the account is looked
        up, so a code staged by signup is consumed and the handler then fails. */
    method LoginVerify(email: string, code: string, now: Instant, mint: string -> string)
      returns (r: Result<Reply, Failure>)
      requires Valid()
      modifies this
      ensures Valid()
      ensures users == old(users) && outbox == old(outbox)
      ensures var check := CheckOtp(Lookup(old(otps), email), code, now);
        check.Fail? ==> r == Failure(check.error) && otps == old(otps)
      ensures var check := CheckOtp(Lookup(old(otps), email), code, now);
        check.Pass? ==>
          && otps == old(otps) - {email}
          && (email in users ==> r == Success(LoginDone(users[email].id, mint(email))))
          && (email !in users ==> r == Failure(MISSING_USER))
    {
      var record := Lookup(otps, email);
      var check := CheckOtp(record, code, now);
      if check.Fail? {
        return Failure(check.error);
      }
      otps := otps - {email};
      if email !in users {
        return Failure(MISSING_USER);
      }
      var user := users[email];
      r := Success(LoginDone(user.id, mint(email)));
    }
  }

  // ---------------------------------------------------------------------
  // Whole flows, as a client of the handlers sees them
  // ---------------------------------------------------------------------

  /** Signup, a wrong code, the right code at the last instant it is accepted,
      a replay of it, then a login with the same password and its verification. */
  method SignupThenLogin(email: string, password: string, salt: string, h: Hasher,
                         d1: nat, d2: nat, t: Instant, newId: string, mint: string -> string)
    returns (wrong: Result<Reply, Failure>, right: Result<Reply, Failure>, replay: Result<Reply, Failure>,
             login: Result<Reply, Failure>, token: Result<Reply, Failure>)
    requires Sound(h)
    requires OTP_LOW <= d1 <= OTP_HIGH && OTP_LOW <= d2 <= OTP_HIGH
    ensures wrong == Failure(INVALID_OTP)
    ensures right == Success(SignupDone)
    ensures replay == Failure(INVALID_OTP)
    ensures login == Success(LoginPending(newId))
    ensures token == Success(LoginDone(newId, mint(email)))
  {
    var ledger := new Ledger();
    var pending := ledger.SignupRequest(email, password, salt, h, d1, t);
    OtpCodeShape(d1);
    wrong := ledger.SignupVerify(email, "000000", t + SECOND, newId);
    right := ledger.SignupVerify(email, Decimal(d1), Expiry(t), newId);
    replay := ledger.SignupVerify(email, Decimal(d1), Expiry(t), newId);
    assert h.checkpw(password, h.hashpw(password, salt));
    login := ledger.LoginRequest(email, password, h, d2, t + 2 * OTP_LIFETIME);
    token := ledger.LoginVerify(email, Decimal(d2), t + 2 * OTP_LIFETIME + SECOND, mint);
  }

  /** A code presented after its five minutes is refused as expired, and the
      refusal leaves the pending signup in place; a fresh signup request then
      replaces it with a new code. */
  method ExpiredThenReissued(email: string, password: string, salt: string, h: Hasher,
                             d1: nat, d2: nat, t: Instant, newId: string)
    returns (late: Result<Reply, Failure>, stale: Result<Reply, Failure>, renewed: Result<Reply, Failure>)
    requires OTP_LOW <= d1 <= OTP_HIGH && OTP_LOW <= d2 <= OTP_HIGH && d1 != d2
    ensures late == Failure(OTP_EXPIRED)
    ensures stale == Failure(INVALID_OTP)
    ensures renewed == Success(SignupDone)
  {
    var ledger := new Ledger();
    var first := ledger.SignupRequest(email, password, salt, h, d1, t);
    late := ledger.SignupVerify(email, Decimal(d1), t + OTP_LIFETIME + 1, newId);
    var second := ledger.SignupRequest(email, password, salt, h, d2, t + OTP_LIFETIME + 2);
    OtpCodeInjective(d1, d2);
    stale := ledger.SignupVerify(email, Decimal(d1), t + OTP_LIFETIME + 3, newId);
    renewed := ledger.SignupVerify(email, Decimal(d2), t + OTP_LIFETIME + 3, newId);
  }

  /** The two flows share one record per email: a code issued by login cannot
      complete a signup (reading the staged hash raises), and a code staged by
      signup, verified through login, is consumed without logging anyone in. */
  method CrossFlowHazards(email: string, password: string, salt: string, h: Hasher,
                          d1: nat, d2: nat, t: Instant, newId: string, mint: string -> string)
    returns (signupWithLoginCode: Result<Reply, Failure>, loginWithSignupCode: Result<Reply, Failure>,
             retry: Result<Reply, Failure>)
    requires Sound(h)
    requires OTP_LOW <= d1 <= OTP_HIGH && OTP_LOW <= d2 <= OTP_HIGH
    ensures signupWithLoginCode == Failure(MISSING_PASSWORD)
    ensures loginWithSignupCode == Failure(MISSING_USER)
    ensures retry == Failure(INVALID_OTP)
  {
    // An account exists, and a login code is outstanding for it.
    var ledger := new Ledger();
    var a := ledger.SignupRequest(email, password, salt, h, d1, t);
    var b := ledger.SignupVerify(email, Decimal(d1), t, newId);
    assert h.checkpw(password, h.hashpw(password, salt));
    var c := ledger.LoginRequest(email, password, h, d2, t);
    signupWithLoginCode := ledger.SignupVerify(email, Decimal(d2), t, newId);

    // A signup code is outstanding for an email with no account.
    var other := new Ledger();
    var d := other.SignupRequest(email, password, salt, h, d1, t);
    loginWithSignupCode := other.LoginVerify(email, Decimal(d1), t, mint);
    retry := other.SignupVerify(email, Decimal(d1), t, newId);
  }
}

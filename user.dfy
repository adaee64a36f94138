/** What the account operations share: the request shapes and their field
    rules, the three error kinds, the bearer-token claims, the random string
    generator, the notification each operation hands to the mailer, and the
    configuration it reads. */
module UserDomain {
  import opened Schema

  /** Payload of a bearer token; the first four names are the registered claims
      of section 4.1 of RFC 7519 (issuer, audience, subject, expiration time). */
  datatype Claims = Claims(iss: string, aud: string, sub: string, exp: int, username: string, email: string)

  newtype int32 = x: int | -0x8000_0000 <= x < 0x8000_0000

  /** The configuration the core reads: issuer (`domain`), audience
      (`appName`), subject, signing secret, token lifetime in days, and the
      page a new account is sent to. */
  datatype Config = Config(
    appName: string,
    domain: string,
    secret: string,
    subject: string,
    tokenExp: int32,
    createPasswordUrl: string)

  // ---------------------------------------------------------------------------
  // Field rules

  /** One violated field rule: the field, the rule's code (`length` or
      `email`), the offending value and, for a length rule, its minimum. */
  datatype FieldError = FieldError(field: string, code: string, value: string, min: Option<nat>)

  /** Whether `errors` holds a violation of some rule of `field`. */
  predicate Reports(errors: seq<FieldError>, field: string) {
    exists e :: e in errors && e.field == field
  }

  /** The rule `length(min = ...)`. */
  function LengthRule(field: string, value: string, min: nat): (r: seq<FieldError>)
    ensures r == [] <==> |value| >= min
    ensures r != [] ==> r == [FieldError(field, "length", value, Some(min))]
  {
    if |value| < min then [FieldError(field, "length", value, Some(min))] else []
  }

  /** The rule `email`; the syntax check itself is the parameter `isEmail`. */
  function EmailRule(field: string, value: string, isEmail: string -> bool): (r: seq<FieldError>)
    ensures r == [] <==> isEmail(value)
    ensures r != [] ==> r == [FieldError(field, "email", value, None)]
  {
    if isEmail(value) then [] else [FieldError(field, "email", value, None)]
  }

  datatype SignUpWithoutPasswordDto = SignUpWithoutPasswordDto(username: string, email: string) {
    function Violations(isEmail: string -> bool): (r: seq<FieldError>)
      ensures Reports(r, "username") <==> |username| < 2
      ensures Reports(r, "email") <==> !isEmail(email)
      ensures r == [] <==> |username| >= 2 && isEmail(email)
    {
      var r := LengthRule("username", username, 2) + EmailRule("email", email, isEmail);
      assert Reports(r, "username") ==> |username| < 2 by {
        if Reports(r, "username") { var e :| e in r && e.field == "username"; assert e.field[0] == 'u'; }
      }
      r
    }
  }

  datatype SignUpDto = SignUpDto(username: string, email: string, password: string) {
    function Violations(isEmail: string -> bool): (r: seq<FieldError>)
      ensures Reports(r, "username") <==> |username| < 2
      ensures Reports(r, "email") <==> !isEmail(email)
      ensures Reports(r, "password") <==> |password| < 6
      ensures r == [] <==> |username| >= 2 && isEmail(email) && |password| >= 6
    {
      var r := LengthRule("username", username, 2) + EmailRule("email", email, isEmail)
        + LengthRule("password", password, 6);
      assert Reports(r, "username") ==> |username| < 2 by {
        if Reports(r, "username") { var e :| e in r && e.field == "username"; assert e.field[0] == 'u'; }
      }
      assert Reports(r, "password") ==> |password| < 6 by {
        if Reports(r, "password") { var e :| e in r && e.field == "password"; assert e.field[0] == 'p'; }
      }
      r
    }
  }

  datatype SignInDto = SignInDto(usernameOrEmail: string, password: string) {
    function Violations(): (r: seq<FieldError>)
      ensures Reports(r, "username_or_email") <==> |usernameOrEmail| < 1
      ensures Reports(r, "password") <==> |password| < 6
      ensures r == [] <==> |usernameOrEmail| >= 1 && |password| >= 6
    {
      var r := LengthRule("username_or_email", usernameOrEmail, 1) + LengthRule("password", password, 6);
      assert Reports(r, "password") ==> |password| < 6 by {
        if Reports(r, "password") { var e :| e in r && e.field == "password"; assert |e.field| == 8; }
      }
      r
    }
  }

  datatype AuthenticateDto = AuthenticateDto(token: string) {
    function Violations(): (r: seq<FieldError>)
      ensures Reports(r, "token") <==> |token| < 1
      ensures r == [] <==> |token| >= 1
    {
      LengthRule("token", token, 1)
    }
  }

  datatype UpdatePasswordDto = UpdatePasswordDto(token: string, password: string) {
    function Violations(): (r: seq<FieldError>)
      ensures Reports(r, "token") <==> |token| < 1
      ensures Reports(r, "password") <==> |password| < 6
      ensures r == [] <==> |token| >= 1 && |password| >= 6
    {
      var r := LengthRule("token", token, 1) + LengthRule("password", password, 6);
      assert Reports(r, "password") ==> |password| < 6 by {
        if Reports(r, "password") { var e :| e in r && e.field == "password"; assert |e.field| == 8; }
      }
      r
    }
  }

  datatype IdentityCheckDto = IdentityCheckDto(identity: string) {
    function Violations(): (r: seq<FieldError>)
      ensures Reports(r, "identity") <==> |identity| < 1
      ensures r == [] <==> |identity| >= 1
    {
      LengthRule("identity", identity, 1)
    }
  }

  datatype ForgotMyPasswordDto = ForgotMyPasswordDto(usernameOrEmail: string) {
    function Violations(): (r: seq<FieldError>)
      ensures Reports(r, "username_or_email") <==> |usernameOrEmail| < 1
      ensures r == [] <==> |usernameOrEmail| >= 1
    {
      LengthRule("username_or_email", usernameOrEmail, 1)
    }
  }

  /** Validation collects every violated rule, not the first one: a blank
      token and a five-character password are reported together. */
  lemma UpdatePasswordReportsEveryViolation()
    ensures UpdatePasswordDto("", "12312").Violations() ==
      [FieldError("token", "length", "", Some(1)), FieldError("password", "length", "12312", Some(6))]
  {
  }

  // ---------------------------------------------------------------------------
  // Errors

  /** Every failure is exactly one of these three kinds. */
  datatype DTOError =
    | ValidationError(errors: seq<FieldError>)
    | ApplicationError(message: string)
    | DatabaseError(message: string)

  datatype Result<+T> = Ok(value: T) | Err(error: DTOError)

  /** The variant name an error is serialised under. */
  function Tag(e: DTOError): (r: string)
    ensures r == "validation" <==> e.ValidationError?
    ensures r == "application" <==> e.ApplicationError?
    ensures r == "database" <==> e.DatabaseError?
  {
    match e
    case ValidationError(_) => "validation"
    case ApplicationError(_) => "application"
    case DatabaseError(_) => "database"
  }

  /** The tag tells the three kinds apart. */
  lemma TagIdentifiesKind(a: DTOError, b: DTOError)
    ensures Tag(a) == Tag(b) <==>
      (a.ValidationError? && b.ValidationError?) ||
      (a.ApplicationError? && b.ApplicationError?) ||
      (a.DatabaseError? && b.DatabaseError?)
  {
    assert "validation"[0] == 'v' && "application"[0] == 'a' && "database"[0] == 'd';
  }

  // ---------------------------------------------------------------------------
  // generate_random

  predicate IsAlphanumeric(c: char) {
    ('A' <= c <= 'Z') || ('a' <= c <= 'z') || ('0' <= c <= '9')
  }

  /** The `k`-th character of the alphabet `A-Z a-z 0-9`. */
  function AlphanumericAt(k: nat): (c: char)
    requires k < 62
    ensures IsAlphanumeric(c)
  {
    if k < 26 then ('A' as int + k) as char
    else if k < 52 then ('a' as int + (k - 26)) as char
    else ('0' as int + (k - 52)) as char
  }

  /** The position of `c` in that alphabet. */
  function AlphanumericIndex(c: char): nat {
    if 'A' <= c <= 'Z' then c as int - 'A' as int
    else if 'a' <= c <= 'z' then 26 + (c as int - 'a' as int)
    else if '0' <= c <= '9' then 52 + (c as int - '0' as int)
    else 0
  }

  /** `generate_random(count)`: `count` characters drawn from the alphanumeric
      alphabet; `rng` is the random number generator's output stream. */
  function GenerateRandom(count: nat, rng: nat -> nat): (s: string)
    ensures |s| == count
    ensures forall i :: 0 <= i < |s| ==> IsAlphanumeric(s[i])
  {
    var s := seq(count, i requires 0 <= i < count => AlphanumericAt(rng(i) % 62));
    assert forall i :: 0 <= i < count ==> s[i] == AlphanumericAt(rng(i) % 62);
    s
  }

  /** Every alphanumeric string of a given length is a possible outcome, so
      the alphabet and the length are all that the model fixes. */
  lemma GenerateRandomReachesAll(s: string)
    requires forall i :: 0 <= i < |s| ==> IsAlphanumeric(s[i])
    ensures exists rng: nat -> nat :: GenerateRandom(|s|, rng) == s
  {
    var rng := (i: nat) => if i < |s| then AlphanumericIndex(s[i]) else 0;
    var g := GenerateRandom(|s|, rng);
    forall i | 0 <= i < |s| ensures g[i] == s[i] {
      assert rng(i) == AlphanumericIndex(s[i]) < 62;
      assert g[i] == AlphanumericAt(rng(i) % 62);
    }
    assert g == s;
  }

  /** A reset token: what `generate_random(32)` produces. */
  predicate IsResetToken(t: string) {
    |t| == 32 && forall i :: 0 <= i < |t| ==> IsAlphanumeric(t[i])
  }

  /** A password salt: what `generate_random(4)` produces. */
  predicate IsSalt(s: string) {
    |s| == 4 && forall i :: 0 <= i < |s| ==> IsAlphanumeric(s[i])
  }

  // ---------------------------------------------------------------------------
  // Store-level invariant and the shared lookup

  /** The table constraints, plus: every stored token came from
      `generate_random(32)`. */
  predicate Invariant(db: Db) {
    db.Valid() && forall p :: p in db.passwordUpdates ==> IsResetToken(p.token)
  }

  /** `WHERE username = :identity OR email = :identity`. */
  predicate Matches(u: User, identity: string) {
    u.username == identity || u.email == identity
  }

  /** The first row answering to `identity`, with no `enabled` filter. */
  function FirstMatch(users: seq<User>, identity: string): Option<nat> {
    FirstWhere(users, (u: User) => Matches(u, identity))
  }

  // ---------------------------------------------------------------------------
  // Notification

  /** The `n` characters of `s` from position `i`. */
  function Window(s: string, i: nat, n: nat): string
    requires i + n <= |s|
  {
    s[i..i + n]
  }

  /** Whether `t` occurs in `s` as a contiguous piece. */
  predicate Contains(s: string, t: string) {
    exists i: nat :: i + |t| <= |s| && Window(s, i, |t|) == t
  }

  /** A string occurs in any string it ends. */
  lemma ContainsSuffix(s: string, t: string)
    requires |t| <= |s| && s[|s| - |t|..] == t
    ensures Contains(s, t)
  {
    assert Window(s, |s| - |t|, |t|) == t;
  }

  /** The arguments of one `send_email(config, to, username, message)` call. */
  datatype Mail = Mail(to: string, username: string, message: string)

  /** What a state-changing operation returns, the tables it leaves behind
      and the mail it hands to the notifier, if any. */
  datatype Response<+T> = Response(result: Result<T>, db: Db, mail: Option<Mail>)
}

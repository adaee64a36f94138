/** `sign_in::run`: look up an enabled account by username or email, check
    the salted password, and sign a bearer token for it. Reads the users
    table and changes nothing. */
module SignIn {
  import opened Schema
  import opened UserDomain
  import opened Crypto

  const IncorrectUsername := "Incorrect username."
  const IncorrectPassword := "Incorrect password."

  /** `SELECT username, email, salt, password FROM users WHERE (username =
      :identity OR email = :identity) AND enabled = 1 LIMIT 1`. */
  function CandidateIndex(users: seq<User>, identity: string): Option<nat> {
    FirstWhere(users, (u: User) => u.enabled && Matches(u, identity))
  }

  /** The row sign-in works with: the first enabled row answering to
      `identity`. Disabled rows are never candidates. */
  function Candidate(users: seq<User>, identity: string): (r: Option<User>)
    ensures r.Some? ==> r.value in users && r.value.enabled && Matches(r.value, identity)
    ensures r.Some? ==>
      exists i :: 0 <= i < |users| && users[i] == r.value &&
        forall j :: 0 <= j < i ==> !(users[j].enabled && Matches(users[j], identity))
    ensures r.None? <==> forall j :: 0 <= j < |users| ==> !(users[j].enabled && Matches(users[j], identity))
  {
    match CandidateIndex(users, identity)
    case None => None
    case Some(i) => Some(users[i])
  }

  predicate HasCredentials(u: User) {
    u.salt.Some? && u.password.Some?
  }

  /** The row the query returns is read as four strings, so salt and hash must
      be present in it (the source panics on NULL). */
  predicate CredentialsPresent(users: seq<User>, dto: SignInDto) {
    dto.Violations() == [] ==>
      match Candidate(users, dto.usernameOrEmail)
      case None => true
      case Some(u) => HasCredentials(u)
  }

  /** `verify(password + salt, stored_hash)`. */
  function Verification(hasher: Hasher, u: User, password: string): (r: VerifyResult)
    requires HasCredentials(u)
    ensures forall input :: Sound(hasher) && u.password.value == hasher.hash(input) ==>
      r == Verified(input == password + u.salt.value)
  {
    hasher.verify(password + u.salt.value, u.password.value)
  }

  /** Two's-complement wrap-around of an integer into 32 bits. */
  function WrapI32(x: int): (r: int)
    ensures -0x8000_0000 <= r < 0x8000_0000
    ensures (x - r) % 0x1_0000_0000 == 0
    ensures -0x8000_0000 <= x < 0x8000_0000 ==> r == x
  {
    (x + 0x8000_0000) % 0x1_0000_0000 - 0x8000_0000
  }

  /** The token lifetime in seconds, `86400 * config.token_exp`, computed in
      `i32` as written (the wrapping of a release build) before widening. */
  function ExpiryOffset(tokenExp: int32): (r: int)
    ensures -0x8000_0000 <= r < 0x8000_0000
    ensures 0 <= tokenExp <= 24855 ==> r == 86400 * tokenExp as int
  {
    WrapI32(86400 * tokenExp as int)
  }

  /** A lifetime of 24856 days overflows `i32`: the offset comes out negative,
      so every token is issued already expired. */
  lemma ExpiryOffsetOverflows()
    ensures ExpiryOffset(24856) == -2147408896 < 0
  {
  }

  /** The lifetime computed in `i64`, as evidently intended. */
  function ExpiryOffsetIntended(tokenExp: int32): (r: int)
    ensures r >= 0 <==> tokenExp >= 0
    ensures tokenExp > 0 ==> r >= 86400
  {
    86400 * tokenExp as int
  }

  /** The claims signed for `u` at time `now`. */
  function IssuedClaims(config: Config, u: User, now: int): (c: Claims)
    ensures c.iss == config.domain && c.aud == config.appName && c.sub == config.subject
    ensures c.username == u.username && c.email == u.email
    ensures 0 <= config.tokenExp <= 24855 ==> c.exp == now + 86400 * config.tokenExp as int
  {
    Claims(config.domain, config.appName, config.subject, now + ExpiryOffset(config.tokenExp), u.username, u.email)
  }

  /** `sign_in::run`. Any `Ok` from `verify` lets sign-in proceed, `Ok(false)`
      included; only a verify error is reported as an incorrect password. */
  function Run(config: Config, hasher: Hasher, signer: Signer, users: seq<User>, dto: SignInDto, now: int): (r: Result<string>)
    requires CredentialsPresent(users, dto)
    ensures r.Err? && r.error.ValidationError? <==> dto.Violations() != []
    ensures r.Err? && r.error.ValidationError? ==> r.error.errors == dto.Violations()
    ensures dto.Violations() == [] && Candidate(users, dto.usernameOrEmail).None? ==>
      r == Err(ApplicationError(IncorrectUsername))
    ensures var c := Candidate(users, dto.usernameOrEmail);
      r.Ok? <==> (dto.Violations() == [] && c.Some? &&
                  Verification(hasher, c.value, dto.password).Verified? &&
                  signer.encode(IssuedClaims(config, c.value, now), config.secret).Encoded?)
    ensures var c := Candidate(users, dto.usernameOrEmail);
      r.Ok? ==> c.Some? && signer.encode(IssuedClaims(config, c.value, now), config.secret) == Encoded(r.value)
    ensures var c := Candidate(users, dto.usernameOrEmail);
      dto.Violations() == [] && c.Some? && Verification(hasher, c.value, dto.password).VerifyFailed? ==>
        r == Err(ApplicationError(IncorrectPassword))
    ensures var c := Candidate(users, dto.usernameOrEmail);
      dto.Violations() == [] && c.Some? && Verification(hasher, c.value, dto.password).Verified? &&
      signer.encode(IssuedClaims(config, c.value, now), config.secret).EncodeFailed? ==>
        r == Err(ApplicationError(signer.encode(IssuedClaims(config, c.value, now), config.secret).message))
  {
    var violations := dto.Violations();
    if violations != [] then Err(ValidationError(violations))
    else match Candidate(users, dto.usernameOrEmail)
      case None => Err(ApplicationError(IncorrectUsername))
      case Some(u) =>
        match Verification(hasher, u, dto.password)
        case VerifyFailed(_) => Err(ApplicationError(IncorrectPassword))
        case Verified(_) =>
          match signer.encode(IssuedClaims(config, u, now), config.secret)
          case Encoded(token) => Ok(token)
          case EncodeFailed(message) => Err(ApplicationError(message))
  }

  /** Sign-in as evidently intended: a password that verifies as `Ok(false)`
      is rejected as incorrect too. */
  function RunIntended(config: Config, hasher: Hasher, signer: Signer, users: seq<User>, dto: SignInDto, now: int): (r: Result<string>)
    requires CredentialsPresent(users, dto)
    ensures var c := Candidate(users, dto.usernameOrEmail);
      r.Ok? ==> dto.Violations() == [] && c.Some? && Verification(hasher, c.value, dto.password) == Verified(true)
    ensures var c := Candidate(users, dto.usernameOrEmail);
      dto.Violations() == [] && c.Some? && Verification(hasher, c.value, dto.password).Verified? &&
      !Verification(hasher, c.value, dto.password).matches ==>
        r == Err(ApplicationError(IncorrectPassword))
  {
    var c := Candidate(users, dto.usernameOrEmail);
    if dto.Violations() == [] && c.Some? && Verification(hasher, c.value, dto.password) == Verified(false)
    then Err(ApplicationError(IncorrectPassword))
    else Run(config, hasher, signer, users, dto, now)
  }
}

/** Properties that span several operations: the account state machine and
    the reset-token lifecycle. */
module Lifecycle {
  import opened Schema
  import opened UserDomain
  import opened Crypto
  import SignUp
  import SignUpWithoutPassword
  import SignIn
  import Authenticate
  import ForgotMyPassword
  import UpdatePassword

  /** The row a successful sign-up appends. */
  function SignedUpRow(db: Db, hasher: Hasher, dto: SignUpDto, rng: nat -> nat): User {
    var salt := GenerateRandom(4, rng);
    User(db.nextUserId, dto.username, dto.email, Some(salt), Some(hasher.hash(dto.password + salt)), true)
  }

  /** When no enabled account already answers to `identity`, the account a
      sign-up creates is the one sign-in picks for it. */
  lemma SignedUpIsCandidate(db: Db, hasher: Hasher, isEmail: string -> bool, dto: SignUpDto, rng: nat -> nat, identity: string)
    requires dto.Violations(isEmail) == []
    requires Matches(SignedUpRow(db, hasher, dto, rng), identity)
    requires forall j :: 0 <= j < |db.users| ==> !(db.users[j].enabled && Matches(db.users[j], identity))
    ensures SignUp.Step(db, hasher, isEmail, dto, rng, Committed).db.users == db.users + [SignedUpRow(db, hasher, dto, rng)]
    ensures SignIn.Candidate(SignUp.Step(db, hasher, isEmail, dto, rng, Committed).db.users, identity) ==
      Some(SignedUpRow(db, hasher, dto, rng))
  {
    var after := SignUp.Step(db, hasher, isEmail, dto, rng, Committed).db;
    var row := SignedUpRow(db, hasher, dto, rng);
    assert after.users == db.users + [row];
    assert after.users[|db.users|] == row;
    var c := SignIn.CandidateIndex(after.users, identity);
    assert after.users[c.value] == row;
  }

  /** Sign-up followed by sign-in with the same password issues a token, as
      long as the token can be signed. */
  lemma SignUpThenSignIn(db: Db, config: Config, hasher: Hasher, signer: Signer, isEmail: string -> bool,
                         dto: SignUpDto, rng: nat -> nat, identity: string, now: int)
    requires Sound(hasher)
    requires dto.Violations(isEmail) == []
    requires identity == dto.username || (identity == dto.email && identity != "")
    requires forall j :: 0 <= j < |db.users| ==> !(db.users[j].enabled && Matches(db.users[j], identity))
    ensures var users := SignUp.Step(db, hasher, isEmail, dto, rng, Committed).db.users;
      var request := SignInDto(identity, dto.password);
      && SignIn.CredentialsPresent(users, request)
      && (SignIn.Run(config, hasher, signer, users, request, now).Ok? <==>
          signer.encode(SignIn.IssuedClaims(config, SignedUpRow(db, hasher, dto, rng), now), config.secret).Encoded?)
      && (SignIn.RunIntended(config, hasher, signer, users, request, now).Ok? <==>
          signer.encode(SignIn.IssuedClaims(config, SignedUpRow(db, hasher, dto, rng), now), config.secret).Encoded?)
  {
    SignedUpIsCandidate(db, hasher, isEmail, dto, rng, identity);
    var row := SignedUpRow(db, hasher, dto, rng);
    assert SignIn.Verification(hasher, row, dto.password) == Verified(true);
  }

  /** As written, sign-in issues a token for a WRONG password too: bcrypt's
      `Ok(false)` is treated as success. */
  lemma WrongPasswordSignsIn(db: Db, config: Config, hasher: Hasher, signer: Signer, isEmail: string -> bool,
                             dto: SignUpDto, rng: nat -> nat, identity: string, other: string, now: int)
    requires Sound(hasher)
    requires dto.Violations(isEmail) == []
    requires identity == dto.username || (identity == dto.email && identity != "")
    requires forall j :: 0 <= j < |db.users| ==> !(db.users[j].enabled && Matches(db.users[j], identity))
    requires |other| >= 6 && other != dto.password
    ensures var users := SignUp.Step(db, hasher, isEmail, dto, rng, Committed).db.users;
      var request := SignInDto(identity, other);
      && SignIn.CredentialsPresent(users, request)
      && (SignIn.Run(config, hasher, signer, users, request, now).Ok? <==>
          signer.encode(SignIn.IssuedClaims(config, SignedUpRow(db, hasher, dto, rng), now), config.secret).Encoded?)
  {
    SignedUpIsCandidate(db, hasher, isEmail, dto, rng, identity);
    var row := SignedUpRow(db, hasher, dto, rng);
    WrongInputDiffers(dto.password, other, row.salt.value);
    assert SignIn.Verification(hasher, row, other) == Verified(false);
  }

  /** With the intended check, a wrong password is refused. */
  lemma WrongPasswordRefusedIntended(db: Db, config: Config, hasher: Hasher, signer: Signer, isEmail: string -> bool,
                                     dto: SignUpDto, rng: nat -> nat, identity: string, other: string, now: int)
    requires Sound(hasher)
    requires dto.Violations(isEmail) == []
    requires identity == dto.username || (identity == dto.email && identity != "")
    requires forall j :: 0 <= j < |db.users| ==> !(db.users[j].enabled && Matches(db.users[j], identity))
    requires |other| >= 6 && other != dto.password
    ensures var users := SignUp.Step(db, hasher, isEmail, dto, rng, Committed).db.users;
      var request := SignInDto(identity, other);
      && SignIn.CredentialsPresent(users, request)
      && SignIn.RunIntended(config, hasher, signer, users, request, now) == Err(ApplicationError(SignIn.IncorrectPassword))
  {
    SignedUpIsCandidate(db, hasher, isEmail, dto, rng, identity);
    var row := SignedUpRow(db, hasher, dto, rng);
    WrongInputDiffers(dto.password, other, row.salt.value);
    assert SignIn.Verification(hasher, row, other) == Verified(false);
  }

  /** Appending the same salt keeps different passwords different. */
  lemma WrongInputDiffers(password: string, other: string, salt: string)
    requires password != other
    ensures password + salt != other + salt
  {
    assert (password + salt)[..|password|] == password;
    assert (other + salt)[..|other|] == other;
  }

  /** A token that sign-in issued is accepted by authenticate, under the same
      configuration, until its expiry. */
  lemma IssuedTokenAuthenticates(config: Config, hasher: Hasher, signer: Signer, users: seq<User>,
                                 dto: SignInDto, now: int, later: int)
    requires RoundTrips(signer)
    requires SignIn.CredentialsPresent(users, dto)
    requires SignIn.Run(config, hasher, signer, users, dto, now).Ok?
    requires later <= now + SignIn.ExpiryOffset(config.tokenExp)
    ensures Authenticate.Run(config, signer, AuthenticateDto(SignIn.Run(config, hasher, signer, users, dto, now).value), later) == Ok(true)
  {
    var token := SignIn.Run(config, hasher, signer, users, dto, now).value;
    var u := SignIn.Candidate(users, dto.usernameOrEmail).value;
    assert signer.encode(SignIn.IssuedClaims(config, u, now), config.secret) == Encoded(token);
    assert signer.decode(token, config.secret) == Some(SignIn.IssuedClaims(config, u, now));
  }

  /** With a lifetime of at most 24855 days the token is valid when issued. */
  lemma IssuedTokenValidAtIssue(config: Config, hasher: Hasher, signer: Signer, users: seq<User>, dto: SignInDto, now: int)
    requires RoundTrips(signer)
    requires 0 <= config.tokenExp <= 24855
    requires SignIn.CredentialsPresent(users, dto)
    requires SignIn.Run(config, hasher, signer, users, dto, now).Ok?
    ensures Authenticate.Run(config, signer, AuthenticateDto(SignIn.Run(config, hasher, signer, users, dto, now).value), now) == Ok(true)
  {
    IssuedTokenAuthenticates(config, hasher, signer, users, dto, now, now);
  }

  /** With a lifetime of 24856 days the `i32` product wraps and the token is
      already expired when issued. */
  lemma OverflowedTokenRejectedAtIssue(config: Config, hasher: Hasher, signer: Signer, users: seq<User>, dto: SignInDto, now: int)
    requires RoundTrips(signer)
    requires config.tokenExp == 24856
    requires SignIn.CredentialsPresent(users, dto)
    requires SignIn.Run(config, hasher, signer, users, dto, now).Ok?
    ensures Authenticate.Run(config, signer, AuthenticateDto(SignIn.Run(config, hasher, signer, users, dto, now).value), now)
      == Err(ApplicationError(Authenticate.IncorrectToken))
  {
    var token := SignIn.Run(config, hasher, signer, users, dto, now).value;
    var u := SignIn.Candidate(users, dto.usernameOrEmail).value;
    assert signer.decode(token, config.secret) == Some(SignIn.IssuedClaims(config, u, now));
    SignIn.ExpiryOffsetOverflows();
  }

  /** With the lifetime computed in `i64`, as evidently intended, claims
      issued at `now` pass authenticate's checks at `now` for every
      non-negative lifetime. */
  lemma IntendedExpiryValidAtIssue(config: Config, u: User, now: int)
    requires config.tokenExp >= 0
    ensures var c := SignIn.IssuedClaims(config, u, now).(exp := now + SignIn.ExpiryOffsetIntended(config.tokenExp));
      Authenticate.Accepts(config, c, now)
  {
  }

  /** A reset token held by one row only is single-use: once a password
      update with it has committed, the same token is refused and the store
      is left as it is. */
  lemma TokenIsSingleUse(db: Db, hasher: Hasher, dto: UpdatePasswordDto, rng: nat -> nat,
                         password: string, rng2: nat -> nat, commit2: Commit)
    requires Invariant(db)
    requires dto.Violations() == [] && UpdatePassword.TokenOwner(db, dto.token).Some?
    requires forall p, q :: p in db.passwordUpdates && q in db.passwordUpdates && p.token == dto.token && q.token == dto.token ==> p == q
    requires |password| >= 6
    ensures var after := UpdatePassword.Step(db, hasher, dto, rng, Committed).db;
      UpdatePassword.Step(after, hasher, UpdatePasswordDto(dto.token, password), rng2, commit2)
        == Response(Err(ApplicationError(UpdatePassword.IncorrectToken)), after, None)
  {
    var after := UpdatePassword.Step(db, hasher, dto, rng, Committed).db;
    var owner := UpdatePassword.TokenOwner(db, dto.token).value;
    var p :| p in db.passwordUpdates && p.token == dto.token && p.userId == owner.id;
  }

  /** A token carried by the last row only leads to that row's account, and
      no other row carries it. */
  lemma LastRowOwnsToken(db: Db, token: string)
    requires Invariant(db)
    requires |db.passwordUpdates| > 0
    requires db.passwordUpdates[|db.passwordUpdates| - 1].token == token
    requires forall i :: 0 <= i < |db.passwordUpdates| - 1 ==> db.passwordUpdates[i].token != token
    ensures UpdatePassword.TokenOwner(db, token).Some?
    ensures UpdatePassword.TokenOwner(db, token).value.id == db.passwordUpdates[|db.passwordUpdates| - 1].userId
    ensures forall p, q :: p in db.passwordUpdates && q in db.passwordUpdates && p.token == token && q.token == token ==> p == q
  {
    var last := db.passwordUpdates[|db.passwordUpdates| - 1];
    assert last in db.passwordUpdates;
    forall p | p in db.passwordUpdates && p.token == token ensures p == last {
      var i :| 0 <= i < |db.passwordUpdates| && db.passwordUpdates[i] == p;
    }
  }

  /** Rows of a table keyed by `id` are told apart by their id. */
  lemma RowById(db: Db, u: User, v: User)
    requires db.Valid()
    requires u in db.users && v in db.users && u.id == v.id
    ensures u == v
  {
    var i :| 0 <= i < |db.users| && db.users[i] == u;
    var j :| 0 <= j < |db.users| && db.users[j] == v;
    assert i == j;
  }

  /** The token a password-less sign-up stores, when it is fresh, is held by
      that one row and leads to the new account. */
  lemma NewAccountOwnsToken(db: Db, config: Config, isEmail: string -> bool, dto: SignUpWithoutPasswordDto, rng: nat -> nat)
    requires Invariant(db)
    requires dto.Violations(isEmail) == []
    requires forall p :: p in db.passwordUpdates ==> p.token != GenerateRandom(32, rng)
    ensures Invariant(SignUpWithoutPassword.Step(db, config, isEmail, dto, rng, Committed).db)
    ensures SignUpWithoutPassword.Step(db, config, isEmail, dto, rng, Committed).db.users ==
      db.users + [User(db.nextUserId, dto.username, dto.email, None, None, true)]
    ensures UpdatePassword.TokenOwner(SignUpWithoutPassword.Step(db, config, isEmail, dto, rng, Committed).db, GenerateRandom(32, rng)) ==
      Some(User(db.nextUserId, dto.username, dto.email, None, None, true))
    ensures var created := SignUpWithoutPassword.Step(db, config, isEmail, dto, rng, Committed).db;
      forall p, q ::
        (p in created.passwordUpdates && q in created.passwordUpdates &&
         p.token == GenerateRandom(32, rng) && q.token == GenerateRandom(32, rng)) ==> p == q
  {
    var token := GenerateRandom(32, rng);
    var created := SignUpWithoutPassword.Step(db, config, isEmail, dto, rng, Committed).db;
    var newUser := User(db.nextUserId, dto.username, dto.email, None, None, true);
    assert created.passwordUpdates == db.passwordUpdates + [PasswordUpdate(db.nextUpdateId, db.nextUserId, token)];
    forall i | 0 <= i < |created.passwordUpdates| - 1 ensures created.passwordUpdates[i].token != token {
      assert created.passwordUpdates[i] in db.passwordUpdates;
    }
    LastRowOwnsToken(created, token);
    assert created.users[|db.users|] == newUser;
    RowById(created, UpdatePassword.TokenOwner(created, token).value, newUser);
  }

  /** A committed password update with a valid token re-enables every row of
      the token's account with one fresh salt and the new hash, and deletes
      every token of that account. */
  lemma UpdateResetsOwner(db: Db, hasher: Hasher, dto: UpdatePasswordDto, rng: nat -> nat, ownerId: nat)
    requires dto.Violations() == []
    requires UpdatePassword.TokenOwner(db, dto.token).Some?
    requires UpdatePassword.TokenOwner(db, dto.token).value.id == ownerId
    ensures var r := UpdatePassword.Step(db, hasher, dto, rng, Committed);
      && r.result == Ok(true)
      && |r.db.users| == |db.users|
      && (exists salt :: IsSalt(salt) &&
            forall k :: 0 <= k < |db.users| && db.users[k].id == ownerId ==>
              r.db.users[k] == db.users[k].(enabled := true, salt := Some(salt),
                                             password := Some(hasher.hash(dto.password + salt))))
      && (forall p :: p in r.db.passwordUpdates ==> p.userId != ownerId)
  {
    var r := UpdatePassword.Step(db, hasher, dto, rng, Committed);
    var salt :| IsSalt(salt) &&
      forall k :: 0 <= k < |db.users| ==>
        r.db.users[k] == if db.users[k].id == ownerId
                         then db.users[k].(enabled := true, salt := Some(salt),
                                           password := Some(hasher.hash(dto.password + salt)))
                         else db.users[k];
  }

  /** A password-less sign-up, then a password update with the token it
      stored: the account gets credentials and stays enabled, and every token
      of the account is gone. */
  lemma SetPasswordAfterSignUp(db: Db, config: Config, hasher: Hasher, isEmail: string -> bool,
                               dto: SignUpWithoutPasswordDto, rng: nat -> nat, password: string, rng2: nat -> nat)
    requires Invariant(db)
    requires dto.Violations(isEmail) == []
    requires |password| >= 6
    requires forall p :: p in db.passwordUpdates ==> p.token != GenerateRandom(32, rng)
    ensures var created := SignUpWithoutPassword.Step(db, config, isEmail, dto, rng, Committed).db;
      var updated := UpdatePassword.Step(created, hasher, UpdatePasswordDto(GenerateRandom(32, rng), password), rng2, Committed);
      && created.users == db.users + [User(db.nextUserId, dto.username, dto.email, None, None, true)]
      && updated.result == Ok(true)
      && |updated.db.users| == |created.users|
      && (exists salt :: IsSalt(salt) &&
            updated.db.users[|db.users|] ==
              User(db.nextUserId, dto.username, dto.email, Some(salt), Some(hasher.hash(password + salt)), true))
      && (forall p :: p in updated.db.passwordUpdates ==> p.userId != db.nextUserId)
  {
    var created := SignUpWithoutPassword.Step(db, config, isEmail, dto, rng, Committed).db;
    NewAccountOwnsToken(db, config, isEmail, dto, rng);
    var request := UpdatePasswordDto(GenerateRandom(32, rng), password);
    UpdateResetsOwner(created, hasher, request, rng2, db.nextUserId);
    assert created.users[|db.users|].id == db.nextUserId;
  }

  /** The token of a password-less sign-up works once: replaying it after the
      password was set fails and leaves the store as it is. */
  lemma SignUpTokenSingleUse(db: Db, config: Config, hasher: Hasher, isEmail: string -> bool,
                             dto: SignUpWithoutPasswordDto, rng: nat -> nat,
                             password: string, rng2: nat -> nat, password2: string, rng3: nat -> nat, commit3: Commit)
    requires Invariant(db)
    requires dto.Violations(isEmail) == []
    requires |password| >= 6 && |password2| >= 6
    requires forall p :: p in db.passwordUpdates ==> p.token != GenerateRandom(32, rng)
    ensures var token := GenerateRandom(32, rng);
      var created := SignUpWithoutPassword.Step(db, config, isEmail, dto, rng, Committed).db;
      var updated := UpdatePassword.Step(created, hasher, UpdatePasswordDto(token, password), rng2, Committed).db;
      UpdatePassword.Step(updated, hasher, UpdatePasswordDto(token, password2), rng3, commit3)
        == Response(Err(ApplicationError(UpdatePassword.IncorrectToken)), updated, None)
  {
    var created := SignUpWithoutPassword.Step(db, config, isEmail, dto, rng, Committed).db;
    NewAccountOwnsToken(db, config, isEmail, dto, rng);
    TokenIsSingleUse(created, hasher, UpdatePasswordDto(GenerateRandom(32, rng), password), rng2, password2, rng3, commit3);
  }

  /** The link mailed at password-less sign-up carries "1234", which no stored
      token ever equals (stored tokens have 32 characters), so following it
      always fails. */
  lemma MailedTokenNeverMatches(db: Db, hasher: Hasher, password: string, rng: nat -> nat, commit: Commit)
    requires Invariant(db)
    requires |password| >= 6
    ensures UpdatePassword.Step(db, hasher, UpdatePasswordDto(SignUpWithoutPassword.PlaceholderToken, password), rng, commit)
      == Response(Err(ApplicationError(UpdatePassword.IncorrectToken)), db, None)
  {
    forall p | p in db.passwordUpdates ensures p.token != SignUpWithoutPassword.PlaceholderToken {
      assert IsResetToken(p.token);
    }
  }

  /** With the intended mail, the link ends with the stored token, and using
      that token completes the sign-up. */
  lemma IntendedLinkCompletesSignUp(db: Db, config: Config, hasher: Hasher, isEmail: string -> bool,
                                    dto: SignUpWithoutPasswordDto, rng: nat -> nat, password: string, rng2: nat -> nat)
    requires Invariant(db)
    requires dto.Violations(isEmail) == []
    requires |password| >= 6
    requires forall p :: p in db.passwordUpdates ==> p.token != GenerateRandom(32, rng)
    ensures var token := GenerateRandom(32, rng);
      var link := SignUpWithoutPassword.Link(config, token);
      var created := SignUpWithoutPassword.Step(db, config, isEmail, dto, rng, Committed).db;
      && SignUpWithoutPassword.IntendedMail(config, dto, token).message == SignUpWithoutPassword.Message(link)
      && Contains(SignUpWithoutPassword.IntendedMail(config, dto, token).message, token)
      && UpdatePassword.Step(created, hasher, UpdatePasswordDto(token, password), rng2, Committed).result == Ok(true)
  {
    var token := GenerateRandom(32, rng);
    var _ := SignUpWithoutPassword.IntendedMail(config, dto, token);
    SetPasswordAfterSignUp(db, config, hasher, isEmail, dto, rng, password, rng2);
  }

  /** Forgot-password disables the account it found: no sign-in can pick any
      row of that account until its password is updated, and the tokens
      issued before are all still there. */
  lemma ForgottenAccountCannotSignIn(db: Db, dto: ForgotMyPasswordDto, rng: nat -> nat)
    requires Invariant(db)
    requires dto.Violations() == [] && FirstMatch(db.users, dto.usernameOrEmail).Some?
    ensures ForgotMyPassword.Step(db, dto, rng, Committed).result == Ok(true)
    ensures var after := ForgotMyPassword.Step(db, dto, rng, Committed).db;
      var owner := db.users[FirstMatch(db.users, dto.usernameOrEmail).value];
      && (forall identity :: SignIn.Candidate(after.users, identity).Some? ==>
            SignIn.Candidate(after.users, identity).value.id != owner.id)
      && (forall p :: p in db.passwordUpdates ==> p in after.passwordUpdates)
  {
    var after := ForgotMyPassword.Step(db, dto, rng, Committed).db;
    var owner := db.users[FirstMatch(db.users, dto.usernameOrEmail).value];
    forall identity | SignIn.Candidate(after.users, identity).Some?
      ensures SignIn.Candidate(after.users, identity).value.id != owner.id
    {
      var u := SignIn.Candidate(after.users, identity).value;
      var i :| 0 <= i < |after.users| && after.users[i] == u;
    }
  }

  /** After forgot-password, the fresh token it stored leads to the account
      it disabled. */
  lemma ForgotOwnerHoldsToken(db: Db, dto: ForgotMyPasswordDto, rng: nat -> nat)
    requires Invariant(db)
    requires dto.Violations() == [] && FirstMatch(db.users, dto.usernameOrEmail).Some?
    requires forall p :: p in db.passwordUpdates ==> p.token != GenerateRandom(32, rng)
    ensures ForgotMyPassword.Step(db, dto, rng, Committed).result == Ok(true)
    ensures var after := ForgotMyPassword.Step(db, dto, rng, Committed).db;
      var found := UpdatePassword.TokenOwner(after, GenerateRandom(32, rng));
      && Invariant(after)
      && found.Some?
      && found.value.id == db.users[FirstMatch(db.users, dto.usernameOrEmail).value].id
  {
    var token := GenerateRandom(32, rng);
    var owner := db.users[FirstMatch(db.users, dto.usernameOrEmail).value];
    var after := ForgotMyPassword.Step(db, dto, rng, Committed).db;
    assert after.passwordUpdates == db.passwordUpdates + [PasswordUpdate(db.nextUpdateId, owner.id, token)];
    forall i | 0 <= i < |after.passwordUpdates| - 1 ensures after.passwordUpdates[i].token != token {
      assert after.passwordUpdates[i] in db.passwordUpdates;
    }
    LastRowOwnsToken(after, token);
  }

  /** A reset completes: after forgot-password with a fresh token, updating
      the password with that token re-enables every row of the account with
      the new credentials and deletes all its tokens, older ones included. */
  lemma ForgotThenUpdate(db: Db, hasher: Hasher, dto: ForgotMyPasswordDto, rng: nat -> nat,
                         password: string, rng2: nat -> nat)
    requires Invariant(db)
    requires dto.Violations() == [] && FirstMatch(db.users, dto.usernameOrEmail).Some?
    requires forall p :: p in db.passwordUpdates ==> p.token != GenerateRandom(32, rng)
    requires |password| >= 6
    ensures ForgotMyPassword.Step(db, dto, rng, Committed).result == Ok(true)
    ensures var owner := db.users[FirstMatch(db.users, dto.usernameOrEmail).value];
      var after := ForgotMyPassword.Step(db, dto, rng, Committed).db;
      var reset := UpdatePassword.Step(after, hasher, UpdatePasswordDto(GenerateRandom(32, rng), password), rng2, Committed);
      && reset.result == Ok(true)
      && |reset.db.users| == |db.users|
      && (exists salt :: IsSalt(salt) &&
            forall k :: 0 <= k < |db.users| && db.users[k].id == owner.id ==>
              reset.db.users[k] == db.users[k].(enabled := true, salt := Some(salt),
                                                 password := Some(hasher.hash(password + salt))))
      && (forall p :: p in reset.db.passwordUpdates ==> p.userId != owner.id)
  {
    ForgotOwnerHoldsToken(db, dto, rng);
    var owner := db.users[FirstMatch(db.users, dto.usernameOrEmail).value];
    var after := ForgotMyPassword.Step(db, dto, rng, Committed).db;
    var request := UpdatePasswordDto(GenerateRandom(32, rng), password);
    UpdateResetsOwner(after, hasher, request, rng2, owner.id);
    var reset := UpdatePassword.Step(after, hasher, request, rng2, Committed).db;
    var salt :| IsSalt(salt) &&
      forall k :: 0 <= k < |after.users| && after.users[k].id == owner.id ==>
        reset.users[k] == after.users[k].(enabled := true, salt := Some(salt),
                                          password := Some(hasher.hash(password + salt)));
    forall k | 0 <= k < |db.users| && db.users[k].id == owner.id
      ensures reset.users[k] == db.users[k].(enabled := true, salt := Some(salt),
                                             password := Some(hasher.hash(password + salt)))
    {
      assert after.users[k] == db.users[k].(enabled := false);
    }
  }

  /** With the intended reset mail, the account owner receives the token, and
      using it completes the reset. */
  lemma IntendedResetMailCompletesReset(db: Db, hasher: Hasher, dto: ForgotMyPasswordDto, rng: nat -> nat,
                                        password: string, rng2: nat -> nat)
    requires Invariant(db)
    requires dto.Violations() == [] && FirstMatch(db.users, dto.usernameOrEmail).Some?
    requires forall p :: p in db.passwordUpdates ==> p.token != GenerateRandom(32, rng)
    requires |password| >= 6
    ensures var owner := db.users[FirstMatch(db.users, dto.usernameOrEmail).value];
      var token := GenerateRandom(32, rng);
      var after := ForgotMyPassword.Step(db, dto, rng, Committed).db;
      && ForgotMyPassword.IntendedMail(owner, token).to == owner.email
      && Contains(ForgotMyPassword.IntendedMail(owner, token).message, token)
      && UpdatePassword.Step(after, hasher, UpdatePasswordDto(token, password), rng2, Committed).result == Ok(true)
  {
    ForgotThenUpdate(db, hasher, dto, rng, password, rng2);
  }
}

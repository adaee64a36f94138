/** `sign_up::run`: validate the request, salt and hash the password, and
    insert the account with a single statement. No lookup precedes the
    insert, so nothing here keeps usernames or emails unique. */
module SignUp {
  import opened Schema
  import opened UserDomain
  import opened Crypto

  const SignedUp := "Your sign up was successful."

  /** The effect of one call on the tables, given the random stream `rng`
      and the driver's answer `insert` to the INSERT statement. */
  function Step(db: Db, hasher: Hasher, isEmail: string -> bool, dto: SignUpDto, rng: nat -> nat, insert: Commit): (r: Response<bool>)
    ensures dto.Violations(isEmail) != [] ==> r == Response(Err(ValidationError(dto.Violations(isEmail))), db, None)
    ensures r.result.Ok? <==> dto.Violations(isEmail) == [] && insert.Committed?
    ensures dto.Violations(isEmail) == [] && insert.CommitFailed? ==> r.result == Err(DatabaseError(insert.message))
    ensures r.result.Err? ==> r.db == db && r.mail.None?
    ensures r.result.Ok? ==>
      && r.result.value
      && (exists salt :: IsSalt(salt) &&
            r.db.users == db.users + [User(db.nextUserId, dto.username, dto.email, Some(salt), Some(hasher.hash(dto.password + salt)), true)])
      && r.db.passwordUpdates == db.passwordUpdates
      && r.mail == Some(Mail(dto.email, dto.username, SignedUp))
    ensures Invariant(db) ==> Invariant(r.db)
  {
    var violations := dto.Violations(isEmail);
    if violations != [] then Response(Err(ValidationError(violations)), db, None)
    else
      var salt := GenerateRandom(4, rng);
      var hashed := hasher.hash(dto.password + salt);
      match insert
      case CommitFailed(message) => Response(Err(DatabaseError(message)), db, None)
      case Committed =>
        Response(Ok(true), db.InsertUser(dto.username, dto.email, Some(salt), Some(hashed)),
                 Some(Mail(dto.email, dto.username, SignedUp)))
  }

  /** No lookup precedes the insert: signing up under a username that is
      already taken succeeds, and the table then holds two rows with it. */
  lemma DuplicateUsernameAccepted(db: Db, hasher: Hasher, isEmail: string -> bool, dto: SignUpDto, rng: nat -> nat, k: nat)
    requires dto.Violations(isEmail) == []
    requires k < |db.users| && db.users[k].username == dto.username
    ensures Step(db, hasher, isEmail, dto, rng, Committed).result == Ok(true)
    ensures var users := Step(db, hasher, isEmail, dto, rng, Committed).db.users;
      k < |db.users| < |users| && users[k].username == dto.username && users[|db.users|].username == dto.username
  {
    var users := Step(db, hasher, isEmail, dto, rng, Committed).db.users;
    var salt :| IsSalt(salt) &&
      users == db.users + [User(db.nextUserId, dto.username, dto.email, Some(salt), Some(hasher.hash(dto.password + salt)), true)];
  }

  /** `sign_up::run` on the store; the mail is sent only after the insert. */
  method Run(store: Store, hasher: Hasher, isEmail: string -> bool, dto: SignUpDto, rng: nat -> nat, insert: Commit)
    returns (r: Result<bool>, mail: Option<Mail>)
    requires Invariant(store.Snapshot())
    modifies store
    ensures Response(r, store.Snapshot(), mail) == Step(old(store.Snapshot()), hasher, isEmail, dto, rng, insert)
    ensures Invariant(store.Snapshot())
  {
    var violations := dto.Violations(isEmail);
    if violations != [] {
      return Err(ValidationError(violations)), None;
    }
    var salt := GenerateRandom(4, rng);
    var hashed := hasher.hash(dto.password + salt);
    match insert {
      case CommitFailed(message) =>
        return Err(DatabaseError(message)), None;
      case Committed =>
        var _ := store.InsertUser(dto.username, dto.email, Some(salt), Some(hashed));
        return Ok(true), Some(Mail(dto.email, dto.username, SignedUp));
    }
  }
}

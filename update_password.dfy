/** `update_password::run`: find the account that owns a reset token, then in
    one transaction re-enable it with a new salt and hash and delete every
    reset token of that account. */
module UpdatePassword {
  import opened Schema
  import opened UserDomain
  import opened Crypto

  const IncorrectToken := "Incorrect password update token."
  const PasswordUpdated := "Your password has been updated."

  /** `SELECT u.id, username, email FROM users u INNER JOIN password_updates pu
      ON u.id = pu.user_id WHERE pu.token = :token`, first row: the owner of
      the first token row carrying `token`. */
  function TokenOwner(db: Db, token: string): (r: Option<User>)
    ensures r.Some? ==> r.value in db.users
    ensures r.Some? ==> exists p :: p in db.passwordUpdates && p.token == token && p.userId == r.value.id
    ensures r.None? <==> forall p :: p in db.passwordUpdates && p.token == token ==> p.userId !in UserIds(db.users)
  {
    match FirstWhere(db.passwordUpdates, (p: PasswordUpdate) => p.token == token && p.userId in UserIds(db.users))
    case None => None
    case Some(k) =>
      match UserIndex(db.users, db.passwordUpdates[k].userId)
      case None => None
      case Some(i) => Some(db.users[i])
  }

  /** The effect of one call, given the random stream `rng` and the
      transaction's commit outcome. */
  function Step(db: Db, hasher: Hasher, dto: UpdatePasswordDto, rng: nat -> nat, commit: Commit): (r: Response<bool>)
    ensures dto.Violations() != [] ==> r == Response(Err(ValidationError(dto.Violations())), db, None)
    ensures r.result == Err(ApplicationError(IncorrectToken)) <==>
      dto.Violations() == [] && TokenOwner(db, dto.token).None?
    ensures r.result.Ok? <==>
      dto.Violations() == [] && TokenOwner(db, dto.token).Some? && commit.Committed?
    ensures dto.Violations() == [] && TokenOwner(db, dto.token).Some? && commit.CommitFailed? ==>
      r.result == Err(DatabaseError(commit.message))
    ensures r.result.Err? ==> r.db == db && r.mail.None?
    ensures var o := TokenOwner(db, dto.token);
      r.result.Ok? ==>
        && o.Some?
        && r.result.value
        && (var owner := o.value;
            && |r.db.users| == |db.users|
            && (exists salt :: IsSalt(salt) &&
                  forall k :: 0 <= k < |db.users| ==>
                    r.db.users[k] == if db.users[k].id == owner.id
                                     then db.users[k].(enabled := true, salt := Some(salt),
                                                       password := Some(hasher.hash(dto.password + salt)))
                                     else db.users[k])
            && (forall p :: p in r.db.passwordUpdates <==> p in db.passwordUpdates && p.userId != owner.id)
            && r.mail == Some(Mail(owner.email, owner.username, PasswordUpdated)))
    ensures Invariant(db) ==> Invariant(r.db)
  {
    var violations := dto.Violations();
    if violations != [] then Response(Err(ValidationError(violations)), db, None)
    else match TokenOwner(db, dto.token)
      case None => Response(Err(ApplicationError(IncorrectToken)), db, None)
      case Some(owner) =>
        var salt := GenerateRandom(4, rng);
        var hashed := hasher.hash(dto.password + salt);
        var committed := db.UpdateUsers(owner.id, Reactivate(salt, hashed)).DeletePasswordUpdatesOf(owner.id);
        match commit
        case CommitFailed(message) => Response(Err(DatabaseError(message)), db, None)
        case Committed => Response(Ok(true), committed, Some(Mail(owner.email, owner.username, PasswordUpdated)))
  }

  /** `update_password::run` on the store: the UPDATE and the DELETE run
      inside one transaction, which is rolled back when the commit fails. */
  method Run(store: Store, hasher: Hasher, dto: UpdatePasswordDto, rng: nat -> nat, commit: Commit)
    returns (r: Result<bool>, mail: Option<Mail>)
    requires Invariant(store.Snapshot())
    modifies store
    ensures Response(r, store.Snapshot(), mail) == Step(old(store.Snapshot()), hasher, dto, rng, commit)
    ensures Invariant(store.Snapshot())
  {
    var violations := dto.Violations();
    if violations != [] {
      return Err(ValidationError(violations)), None;
    }
    var found := TokenOwner(store.Snapshot(), dto.token);
    if found.None? {
      return Err(ApplicationError(IncorrectToken)), None;
    }
    var owner := found.value;
    var saved := store.Snapshot();
    var salt := GenerateRandom(4, rng);
    var hashed := hasher.hash(dto.password + salt);
    store.UpdateUsers(owner.id, Reactivate(salt, hashed));
    store.DeletePasswordUpdatesOf(owner.id);
    match commit {
      case CommitFailed(message) =>
        store.Rollback(saved);
        return Err(DatabaseError(message)), None;
      case Committed =>
        return Ok(true), Some(Mail(owner.email, owner.username, PasswordUpdated));
    }
  }
}

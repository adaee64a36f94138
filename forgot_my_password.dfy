/** `forgot_my_password::run`: find the account by username or email (no
    `enabled` filter), then in one transaction disable it and store a fresh
    reset token. Tokens issued before are kept. */
module ForgotMyPassword {
  import opened Schema
  import opened UserDomain

  const NotFound := "Username or email not found."
  const ResetRequested := "A password reset token has been sent to your email."

  /** The effect of one call, given the random stream `rng` and the
      transaction's commit outcome. */
  function Step(db: Db, dto: ForgotMyPasswordDto, rng: nat -> nat, commit: Commit): (r: Response<bool>)
    ensures dto.Violations() != [] ==> r == Response(Err(ValidationError(dto.Violations())), db, None)
    ensures r.result == Err(ApplicationError(NotFound)) <==>
      dto.Violations() == [] && FirstMatch(db.users, dto.usernameOrEmail).None?
    ensures r.result.Ok? <==>
      dto.Violations() == [] && FirstMatch(db.users, dto.usernameOrEmail).Some? && commit.Committed?
    ensures dto.Violations() == [] && FirstMatch(db.users, dto.usernameOrEmail).Some? && commit.CommitFailed? ==>
      r.result == Err(DatabaseError(commit.message))
    ensures r.result.Err? ==> r.db == db && r.mail.None?
    ensures var m := FirstMatch(db.users, dto.usernameOrEmail);
      r.result.Ok? ==>
        && m.Some?
        && r.result.value
        && (var owner := db.users[m.value];
            && |r.db.users| == |db.users|
            && (forall k :: 0 <= k < |db.users| ==>
                  r.db.users[k] == if db.users[k].id == owner.id then db.users[k].(enabled := false) else db.users[k])
            && r.db.passwordUpdates == db.passwordUpdates + [PasswordUpdate(db.nextUpdateId, owner.id, GenerateRandom(32, rng))]
            && r.mail == Some(Mail(owner.email, owner.username, ResetRequested)))
    ensures Invariant(db) ==> Invariant(r.db)
  {
    var violations := dto.Violations();
    if violations != [] then Response(Err(ValidationError(violations)), db, None)
    else match FirstMatch(db.users, dto.usernameOrEmail)
      case None => Response(Err(ApplicationError(NotFound)), db, None)
      case Some(i) =>
        var owner := db.users[i];
        assert owner in db.users;
        var disabled := db.UpdateUsers(owner.id, Disable);
        var token := GenerateRandom(32, rng);
        var committed := disabled.InsertPasswordUpdate(owner.id, token);
        match commit
        case CommitFailed(message) => Response(Err(DatabaseError(message)), db, None)
        case Committed => Response(Ok(true), committed, Some(Mail(owner.email, owner.username, ResetRequested)))
  }

  /** The reset mail names no reset token: every 32-character window of the
      message covers the space at position 22, which no token holds. */
  lemma ResetMailCarriesNoToken(t: string)
    requires IsResetToken(t)
    ensures !Contains(ResetRequested, t)
  {
    assert |ResetRequested| == 51 && ResetRequested[22] == ' ';
    forall i: nat | i + |t| <= |ResetRequested| ensures Window(ResetRequested, i, |t|) != t {
      assert Window(ResetRequested, i, |t|)[22 - i] == ' ';
      assert IsAlphanumeric(t[22 - i]);
    }
  }

  /** As written, the mail that announces a reset token carries none of the
      stored tokens, the one just generated included. */
  lemma ResetMailOmitsToken(db: Db, dto: ForgotMyPasswordDto, rng: nat -> nat)
    requires Invariant(db)
    requires dto.Violations() == [] && FirstMatch(db.users, dto.usernameOrEmail).Some?
    ensures var r := Step(db, dto, rng, Committed);
      && r.mail.Some?
      && GenerateRandom(32, rng) in (set p | p in r.db.passwordUpdates :: p.token)
      && forall p :: p in r.db.passwordUpdates ==> !Contains(r.mail.value.message, p.token)
  {
    var r := Step(db, dto, rng, Committed);
    var owner := db.users[FirstMatch(db.users, dto.usernameOrEmail).value];
    assert PasswordUpdate(db.nextUpdateId, owner.id, GenerateRandom(32, rng)) in r.db.passwordUpdates;
    forall p | p in r.db.passwordUpdates ensures !Contains(r.mail.value.message, p.token) {
      ResetMailCarriesNoToken(p.token);
    }
  }

  /** The reset mail as evidently intended: it carries the generated token. */
  function IntendedMail(owner: User, token: string): (m: Mail)
    ensures m.to == owner.email && m.username == owner.username
    ensures Contains(m.message, token)
  {
    var message := ResetRequested + " Token: " + token;
    assert message == (ResetRequested + " Token: ") + token;
    ContainsSuffix(message, token);
    Mail(owner.email, owner.username, message)
  }

  /** `forgot_my_password::run` on the store: the UPDATE and the INSERT run
      inside one transaction, which is rolled back when the commit fails. */
  method Run(store: Store, dto: ForgotMyPasswordDto, rng: nat -> nat, commit: Commit)
    returns (r: Result<bool>, mail: Option<Mail>)
    requires Invariant(store.Snapshot())
    modifies store
    ensures Response(r, store.Snapshot(), mail) == Step(old(store.Snapshot()), dto, rng, commit)
    ensures Invariant(store.Snapshot())
  {
    var violations := dto.Violations();
    if violations != [] {
      return Err(ValidationError(violations)), None;
    }
    var found := FirstMatch(store.users, dto.usernameOrEmail);
    if found.None? {
      return Err(ApplicationError(NotFound)), None;
    }
    var owner := store.users[found.value];
    assert owner in store.users;
    var saved := store.Snapshot();
    store.UpdateUsers(owner.id, Disable);
    var token := GenerateRandom(32, rng);
    store.InsertPasswordUpdate(owner.id, token);
    match commit {
      case CommitFailed(message) =>
        store.Rollback(saved);
        return Err(DatabaseError(message)), None;
      case Committed =>
        return Ok(true), Some(Mail(owner.email, owner.username, ResetRequested));
    }
  }
}

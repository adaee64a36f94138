/** `sign_up_without_password::run`: validate, then in one transaction insert
    an account without salt or hash and a reset-token row for it, and mail
    the account a link to set its password. */
module SignUpWithoutPassword {
  import opened Schema
  import opened UserDomain

  /** The token the mailed link carries: a literal, not the generated one. */
  const PlaceholderToken := "1234"

  /** `format!("{}?token={}", config.create_password_url, token)`. */
  function Link(config: Config, token: string): (r: string)
    ensures |r| >= |config.createPasswordUrl| + |token|
    ensures r[..|config.createPasswordUrl|] == config.createPasswordUrl
    ensures r[|r| - |token|..] == token
  {
    var r := config.createPasswordUrl + "?token=" + token;
    assert r == config.createPasswordUrl + ("?token=" + token);
    assert r == (config.createPasswordUrl + "?token=") + token;
    r
  }

  /** The text of the message before the link. */
  const MessageHead := "Your sign up is almost complete. You just need to <a target=\"_blank\" href=\""

  /** The mailed message around a link (the `href` attribute is not closed
      with `>` in the source, and the model keeps that). */
  function Message(link: string): (r: string)
    ensures |r| > |MessageHead| + |link|
    ensures r[..|MessageHead|] == MessageHead
    ensures r[|MessageHead|..|MessageHead| + |link|] == link
    ensures Contains(r, link)
  {
    var r := MessageHead + link + "\"create a password.</a>";
    assert r == MessageHead + (link + "\"create a password.</a>");
    assert Window(r, |MessageHead|, |link|) == link;
    r
  }

  /** The effect of one call, given the random stream `rng` and the
      transaction's commit outcome. */
  function Step(db: Db, config: Config, isEmail: string -> bool, dto: SignUpWithoutPasswordDto, rng: nat -> nat, commit: Commit): (r: Response<bool>)
    ensures dto.Violations(isEmail) != [] ==> r == Response(Err(ValidationError(dto.Violations(isEmail))), db, None)
    ensures r.result.Ok? <==> dto.Violations(isEmail) == [] && commit.Committed?
    ensures dto.Violations(isEmail) == [] && commit.CommitFailed? ==> r.result == Err(DatabaseError(commit.message))
    ensures r.result.Err? ==> r.db == db && r.mail.None?
    ensures r.result.Ok? ==>
      && r.result.value
      && r.db.users == db.users + [User(db.nextUserId, dto.username, dto.email, None, None, true)]
      && r.db.passwordUpdates == db.passwordUpdates + [PasswordUpdate(db.nextUpdateId, db.nextUserId, GenerateRandom(32, rng))]
      && r.mail == Some(Mail(dto.email, dto.username, Message(Link(config, PlaceholderToken))))
    ensures Invariant(db) ==> Invariant(r.db)
  {
    var violations := dto.Violations(isEmail);
    if violations != [] then Response(Err(ValidationError(violations)), db, None)
    else
      var userId := db.nextUserId;
      var withUser := db.InsertUser(dto.username, dto.email, None, None);
      var token := GenerateRandom(32, rng);
      var committed := withUser.InsertPasswordUpdate(userId, token);
      match commit
      case CommitFailed(message) => Response(Err(DatabaseError(message)), db, None)
      case Committed =>
        Response(Ok(true), committed, Some(Mail(dto.email, dto.username, Message(Link(config, PlaceholderToken)))))
  }

  /** The mail as evidently intended: the link carries the generated token,
      so the message contains it. */
  function IntendedMail(config: Config, dto: SignUpWithoutPasswordDto, token: string): (m: Mail)
    ensures m.to == dto.email && m.username == dto.username
    ensures m.message == Message(Link(config, token))
    ensures Contains(m.message, token)
  {
    var link := Link(config, token);
    ContainsSuffix(link, token);
    var i: nat :| i + |token| <= |link| && Window(link, i, |token|) == token;
    var message := Message(link);
    assert Window(message, |MessageHead| + i, |token|) == Window(link, i, |token|);
    Mail(dto.email, dto.username, message)
  }

  /** `sign_up_without_password::run` on the store: the two inserts run inside
      one transaction, which is rolled back when the commit fails. */
  method Run(store: Store, config: Config, isEmail: string -> bool, dto: SignUpWithoutPasswordDto, rng: nat -> nat, commit: Commit)
    returns (r: Result<bool>, mail: Option<Mail>)
    requires Invariant(store.Snapshot())
    modifies store
    ensures Response(r, store.Snapshot(), mail) == Step(old(store.Snapshot()), config, isEmail, dto, rng, commit)
    ensures Invariant(store.Snapshot())
  {
    var violations := dto.Violations(isEmail);
    if violations != [] {
      return Err(ValidationError(violations)), None;
    }
    var saved := store.Snapshot();
    var userId := store.InsertUser(dto.username, dto.email, None, None);
    var token := GenerateRandom(32, rng);
    store.InsertPasswordUpdate(userId, token);
    match commit {
      case CommitFailed(message) =>
        store.Rollback(saved);
        return Err(DatabaseError(message)), None;
      case Committed =>
        return Ok(true), Some(Mail(dto.email, dto.username, Message(Link(config, PlaceholderToken))));
    }
  }
}

/** `identity_check::run`: report the username and email of the first
    account answering to an identity. Reads the users table, changes nothing,
    and does not validate its input. */
module IdentityCheck {
  import opened Schema
  import opened UserDomain

  const IdentityNotFound := "Identity not found."

  /** `SELECT username, email FROM users WHERE (username = :identity OR email
      = :identity) LIMIT 1`, no `enabled` filter. */
  function Query(users: seq<User>, identity: string): (rows: seq<(string, string)>)
    ensures |rows| <= 1
    ensures rows == [] <==> forall j :: 0 <= j < |users| ==> !Matches(users[j], identity)
    ensures rows != [] ==>
      exists i :: 0 <= i < |users| && Matches(users[i], identity) &&
        rows[0] == (users[i].username, users[i].email) &&
        forall j :: 0 <= j < i ==> !Matches(users[j], identity)
  {
    match FirstMatch(users, identity)
    case None => []
    case Some(i) => [(users[i].username, users[i].email)]
  }

  function Run(users: seq<User>, dto: IdentityCheckDto): (r: Result<seq<(string, string)>>)
    ensures r.Err? <==> forall j :: 0 <= j < |users| ==> !Matches(users[j], dto.identity)
    ensures r.Err? ==> r.error == ApplicationError(IdentityNotFound)
    ensures r.Ok? ==>
      |r.value| == 1 &&
      exists i :: 0 <= i < |users| && Matches(users[i], dto.identity) &&
        r.value[0] == (users[i].username, users[i].email) &&
        forall j :: 0 <= j < i ==> !Matches(users[j], dto.identity)
  {
    var rows := Query(users, dto.identity);
    if rows == [] then Err(ApplicationError(IdentityNotFound)) else Ok(rows)
  }

  /** No request rule is applied: every outcome is either `Ok` or the one
      application error, whatever the identity, the empty one included. */
  lemma NeverValidates(users: seq<User>, dto: IdentityCheckDto)
    ensures Run(users, dto).Ok? || Run(users, dto) == Err(ApplicationError(IdentityNotFound))
  {
  }
}

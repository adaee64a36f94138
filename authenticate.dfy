/** `authenticate::run`: accept a bearer token signed with the service secret
    whose issuer, subject and audience are the configured ones and whose
    expiry has not passed. It takes no store and does not validate its input. */
module Authenticate {
  import opened Schema
  import opened UserDomain
  import opened Crypto

  const IncorrectToken := "Incorrect token."

  /** The checks of the `Validation` built from the configuration: `iss` is
      `domain`, `sub` is `subject`, `aud` is `app_name`, and the default expiry
      check (rejected once `exp < now`, no leeway). */
  predicate Accepts(config: Config, c: Claims, now: int) {
    c.iss == config.domain && c.sub == config.subject && c.aud == config.appName && now <= c.exp
  }

  /** `authenticate::run`: every failure collapses into one message. */
  function Run(config: Config, signer: Signer, dto: AuthenticateDto, now: int): (r: Result<bool>)
    ensures r.Ok? ==> r.value
    ensures r.Err? ==> r.error == ApplicationError(IncorrectToken)
    ensures var d := signer.decode(dto.token, config.secret);
      r.Ok? <==> d.Some? && Accepts(config, d.value, now)
  {
    match signer.decode(dto.token, config.secret)
    case None => Err(ApplicationError(IncorrectToken))
    case Some(c) => if Accepts(config, c, now) then Ok(true) else Err(ApplicationError(IncorrectToken))
  }

  /** A wrong issuer, subject or audience, or an elapsed expiry, each gives the
      same error as a bad signature. */
  lemma RejectsEachMismatch(config: Config, signer: Signer, dto: AuthenticateDto, now: int, c: Claims)
    requires signer.decode(dto.token, config.secret) == Some(c)
    requires c.iss != config.domain || c.sub != config.subject || c.aud != config.appName || c.exp < now
    ensures Run(config, signer, dto, now) == Err(ApplicationError(IncorrectToken))
  {
  }

  /** The token rule of the request is not applied: an empty token is handed
      to the decoder, and fails there rather than as a validation error. */
  lemma EmptyTokenReachesDecoder(config: Config, signer: Signer, now: int)
    requires RejectsEmpty(signer)
    ensures AuthenticateDto("").Violations() != []
    ensures Run(config, signer, AuthenticateDto(""), now) == Err(ApplicationError(IncorrectToken))
  {
  }
}

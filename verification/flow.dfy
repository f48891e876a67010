/** The login and the middleware together: a token issued by `Login` is
    accepted by the middleware until 24 hours after the login's second. The JWT library
    is the pair of oracles `sign` and `decode`; the assumption connecting
    them is that decoding reads back the claims the signer wrote. */
module AuthFlow {
  import opened Wrappers
  import opened Clock
  import UserService
  import BearerAuth

  /** The claims `generateAuthResponse` signs, as the parser reports them. */
  function IssuedClaims(id: nat, exp: int): map<string, BearerAuth.Claim>
  {
    map["user_id" := BearerAuth.Number(id), "exp" := BearerAuth.Number(exp)]
  }

  /** A successful login yields a token that the middleware accepts until
      the instant `exp = Unix(now) + 24h` seconds begins; from then on the
      JWT library refuses it as expired. */
  lemma IssuedTokenAcceptedUntilExpiry<U>(s: UserService.Service, email: string, password: string, now: Instant,
                                          check: (string, string) -> bool, sign: (nat, int) -> Result<string, string>,
                                          decode: string -> BearerAuth.Parsed, lookup: int -> Result<U, string>,
                                          user: U, t: Instant)
    requires UserService.Login(s, email, password, now, check, sign).result.Ok?
    requires UnixSeconds(now) + UserService.TokenLifetimeSeconds != 0
    requires var resp := UserService.Login(s, email, password, now, check, sign).result.value;
      && resp.token != "" && ' ' !in resp.token
      && decode(resp.token) == BearerAuth.Token(true, Some(IssuedClaims(resp.user.id, UnixSeconds(now) + UserService.TokenLifetimeSeconds)))
      && lookup(resp.user.id) == Ok(user)
    ensures var resp := UserService.Login(s, email, password, now, check, sign).result.value;
      var exp := UnixSeconds(now) + UserService.TokenLifetimeSeconds;
      var verdict := BearerAuth.Authenticate("Bearer " + resp.token, t, decode, lookup);
      && (t < exp * Second ==> verdict == BearerAuth.Next(user))
      && (t >= exp * Second ==> verdict == BearerAuth.Abort(BearerAuth.InvalidToken(BearerAuth.ExpiredError)))
  {
    var resp := UserService.Login(s, email, password, now, check, sign).result.value;
    var header := "Bearer " + resp.token;
    BearerAuth.WellFormedIff(header);
    assert header[..7] == "Bearer " && header[7..] == resp.token;
    BearerAuth.BeforeExpiry(t, UnixSeconds(now) + UserService.TokenLifetimeSeconds);
  }
}

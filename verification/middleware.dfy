/** The bearer-token middleware: an ordered list of checks on the
    `Authorization` header, each of which aborts the request with 401 and
    its own message, ending with a user lookup; the next handler runs only
    when every check has passed.

    `jwt.Parse` (golang-jwt v5) is split in two: decoding the token and
    checking its signature, which does not depend on the clock, is an oracle
    (`decode`); the library's default claim validation, which compares `exp`
    with the clock, is modelled (`Validate`). The user lookup is an oracle
    too (`lookup`, the user service's `GetUserByID`). JSON numbers in the
    claims, which Go decodes as `float64`, are modelled as integers. */
module BearerAuth {
  import opened Wrappers
  import opened Clock
  import GoStrings

  /** A claim value as decoded from the token's JSON payload. */
  datatype Claim = Number(n: int) | Text(s: string) | Other

  /** What `jwt.Parse` returns: an error, or a token with its validity flag
      and its claims (`None` when they are not `jwt.MapClaims`). */
  datatype Parsed = ParseError(message: string) | Token(valid: bool, claims: Option<map<string, Claim>>)

  /** Why a request was refused, in the order the checks run. */
  datatype Rejection =
    | MissingHeader             // Authorization header is required
    | BadFormat                 // Authorization header format must be Bearer {token}
    | MissingToken              // Token is required
    | InvalidToken(err: string) // Invalid token: <err>
    | NotValid                  // Invalid token
    | BadClaims                 // Invalid token claims
    | BadUserId                 // Invalid user_id in token
    | BadExpiry                 // Invalid expiration time in token
    | Expired                   // Token has expired
    | UnknownUser(err: string)  // User not found: <err>

  /** The error golang-jwt v5 reports for a token whose `exp` has passed. */
  const ExpiredError := "token has invalid claims: token is expired"

  /** The error golang-jwt v5 reports for an `exp` claim that is not a number. */
  const BadExpError := "token has invalid claims: invalid type for claim: exp is invalid"

  /** The `error` field of the 401 response for each rejection. */
  function Message(r: Rejection): string
  {
    match r
    case MissingHeader => "Authorization header is required"
    case BadFormat => "Authorization header format must be Bearer {token}"
    case MissingToken => "Token is required"
    case InvalidToken(err) => "Invalid token: " + err
    case NotValid => "Invalid token"
    case BadClaims => "Invalid token claims"
    case BadUserId => "Invalid user_id in token"
    case BadExpiry => "Invalid expiration time in token"
    case Expired => "Token has expired"
    case UnknownUser(err) => "User not found: " + err
  }

  /** The middleware's decision: call `Next` with the user, or abort. */
  datatype Verdict<U> = Next(user: U) | Abort(reason: Rejection)

  /** The scheme word the header must start with, case-sensitively. */
  const Scheme := "Bearer"

  /** `parts := strings.Split(header, " ")` passes the format check. */
  predicate WellFormed(header: string)
  {
    var parts := GoStrings.Split(header, ' ');
    |parts| == 2 && parts[0] == Scheme
  }

  /** The token: the second part of the header. */
  function TokenOf(header: string): string
    requires WellFormed(header)
  {
    GoStrings.Split(header, ' ')[1]
  }

  /** The claim `key`, if it is a number. */
  function NumberClaim(claims: map<string, Claim>, key: string): Option<int>
  {
    if key in claims && claims[key].Number? then Some(claims[key].n) else None
  }

  /** The claim validation `jwt.Parse` runs by default once the token has
      decoded and its signature checked: a numeric `exp` must lie strictly
      after `now` (`now.Before(exp)`, no leeway), an `exp` of another type is
      an error, and a missing `exp` is allowed. The library reads an `exp` of
      exactly `0` as no `exp` at all, so such a token is not checked here. */
  function Validate(p: Parsed, now: Instant): (p': Parsed)
    ensures p'.Token? ==> p' == p
    ensures p.ParseError? || (p.Token? && (!p.valid || p.claims.None?)) ==> p' == p
    ensures p.Token? && p.valid && p.claims.Some? && NumberClaim(p.claims.value, "exp").Some? ==>
      (p' == p <==> NumberClaim(p.claims.value, "exp").value == 0 || now < NumberClaim(p.claims.value, "exp").value * Second)
      && (p' != p ==> p' == ParseError(ExpiredError))
    ensures p.Token? && p.valid && p.claims.Some? && "exp" in p.claims.value && !p.claims.value["exp"].Number? ==>
      p' == ParseError(BadExpError)
    ensures p.Token? && p.claims.Some? && "exp" !in p.claims.value ==> p' == p
  {
    match p
    case ParseError(_) => p
    case Token(valid, claims) =>
      if !valid || claims.None? || "exp" !in claims.value then p
      else match claims.value["exp"]
        case Number(exp) => if exp == 0 || now < exp * Second then p else ParseError(ExpiredError)
        case _ => ParseError(BadExpError)
  }

  /** The claim checks on a parsed, valid token, then the expiry check.
      On its own `now > exp` would still accept a token in its `exp` second;
      `Validate` has refused such a token before this runs, unless its `exp` is `0`. */
  function CheckClaims<U>(claims: Option<map<string, Claim>>, nowUnix: int, lookup: int -> Result<U, string>): (v: Verdict<U>)
    ensures claims.None? ==> v == Abort(BadClaims)
    ensures claims.Some? && NumberClaim(claims.value, "user_id").None? ==> v == Abort(BadUserId)
    ensures claims.Some? && NumberClaim(claims.value, "user_id").Some? && NumberClaim(claims.value, "exp").None? ==>
      v == Abort(BadExpiry)
    ensures (&& claims.Some? && NumberClaim(claims.value, "user_id").Some? && NumberClaim(claims.value, "exp").Some?
             && nowUnix <= NumberClaim(claims.value, "exp").value
             && lookup(NumberClaim(claims.value, "user_id").value).Err?) ==>
      v == Abort(UnknownUser(lookup(NumberClaim(claims.value, "user_id").value).error))
    ensures v == Abort(Expired) <==>
      claims.Some? && NumberClaim(claims.value, "user_id").Some? && NumberClaim(claims.value, "exp").Some?
      && nowUnix > NumberClaim(claims.value, "exp").value
    ensures v.Next? <==>
      && claims.Some? && NumberClaim(claims.value, "user_id").Some? && NumberClaim(claims.value, "exp").Some?
      && nowUnix <= NumberClaim(claims.value, "exp").value
      && lookup(NumberClaim(claims.value, "user_id").value).Ok?
    ensures v.Next? ==> v.user == lookup(NumberClaim(claims.value, "user_id").value).value
  {
    match claims
    case None => Abort(BadClaims)
    case Some(cs) =>
      match NumberClaim(cs, "user_id")
      case None => Abort(BadUserId)
      case Some(userId) =>
        match NumberClaim(cs, "exp")
        case None => Abort(BadExpiry)
        case Some(exp) =>
          if nowUnix > exp then Abort(Expired)
          else match lookup(userId)
            case Err(e) => Abort(UnknownUser(e))
            case Ok(u) => Next(u)
  }

  /** `TokenAuthMiddleware`'s handler for one request at instant `now`:
      `jwt.Parse` and the expiry check both read the clock. */
  function Authenticate<U>(header: string, now: Instant, decode: string -> Parsed, lookup: int -> Result<U, string>): (v: Verdict<U>)
    ensures header == "" <==> v == Abort(MissingHeader)
    ensures header != "" && !WellFormed(header) <==> v == Abort(BadFormat)
    ensures v == Abort(MissingToken) <==> WellFormed(header) && TokenOf(header) == ""
    ensures WellFormed(header) && TokenOf(header) != "" ==>
      match Validate(decode(TokenOf(header)), now)
      case ParseError(m) => v == Abort(InvalidToken(m))
      case Token(valid, claims) => v == if valid then CheckClaims(claims, UnixSeconds(now), lookup) else Abort(NotValid)
  {
    if header == "" then Abort(MissingHeader)
    else if !WellFormed(header) then Abort(BadFormat)
    else
      var token := TokenOf(header);
      if token == "" then Abort(MissingToken)
      else match Validate(decode(token), now)
        case ParseError(m) => Abort(InvalidToken(m))
        case Token(valid, claims) =>
          if !valid then Abort(NotValid) else CheckClaims(claims, UnixSeconds(now), lookup)
  }

  // ---------------------------------------------------------------------
  // Properties
  // ---------------------------------------------------------------------

  /** The format check in plain terms: the header is `Bearer`, one space,
      and a token with no space in it; the token is everything after that space. */
  lemma WellFormedIff(header: string)
    ensures WellFormed(header) <==> |header| >= 7 && header[..7] == "Bearer " && ' ' !in header[7..]
    ensures WellFormed(header) ==> TokenOf(header) == header[7..]
  {
    var parts := GoStrings.Split(header, ' ');
    if WellFormed(header) {
      GoStrings.JoinSplit(header, ' ');
      assert GoStrings.Join(parts, ' ') == parts[0] + [' '] + parts[1];
      assert header == "Bearer " + parts[1];
    }
    if |header| >= 7 && header[..7] == "Bearer " && ' ' !in header[7..] {
      var t := header[7..];
      assert ' ' !in Scheme;
      GoStrings.SplitJoin([Scheme, t], ' ');
      assert GoStrings.Join([Scheme, t], ' ') == header;
    }
  }

  /** Case matters: `bearer t` is refused as badly formatted. */
  lemma SchemeIsCaseSensitive()
    ensures !WellFormed("bearer t")
  {
    WellFormedIff("bearer t");
    assert "bearer t"[..7] != "Bearer ";
  }

  /** Extra spaces matter: `Bearer  t` and `Bearer t x` are refused as badly formatted. */
  lemma ExtraSpacesRefused()
    ensures !WellFormed("Bearer  t")
    ensures !WellFormed("Bearer t x")
  {
    WellFormedIff("Bearer  t");
    assert "Bearer  t"[7..][0] == ' ';
    WellFormedIff("Bearer t x");
    assert "Bearer t x"[7..][1] == ' ';
  }

  /** `Bearer ` passes the format check and is refused for its empty token. */
  lemma EmptyTokenRefused<U>(now: Instant, decode: string -> Parsed, lookup: int -> Result<U, string>)
    ensures Authenticate("Bearer ", now, decode, lookup) == Abort(MissingToken)
  {
    WellFormedIff("Bearer ");
    assert "Bearer "[..7] == "Bearer ";
    assert "Bearer "[7..] == "";
  }

  /** The token is never parsed unless the header is well formed and the
      token non-empty: with any other decoder the verdict is the same. */
  lemma ParseOnlyAfterFormat<U>(header: string, now: Instant, decode: string -> Parsed, decode': string -> Parsed,
                                lookup: int -> Result<U, string>)
    requires !WellFormed(header) || TokenOf(header) == ""
    ensures Authenticate(header, now, decode, lookup) == Authenticate(header, now, decode', lookup)
  {
  }

  /** A token that fails to decode or is not valid is refused before any
      claim is looked at: the clock and the lookup do not matter. */
  lemma InvalidBeforeClaims<U>(header: string, now: Instant, decode: string -> Parsed, lookup: int -> Result<U, string>)
    requires WellFormed(header) && TokenOf(header) != ""
    requires decode(TokenOf(header)).ParseError? || !decode(TokenOf(header)).valid
    ensures Authenticate(header, now, decode, lookup).Abort?
    ensures Authenticate(header, now, decode, lookup).reason.InvalidToken? || Authenticate(header, now, decode, lookup).reason == NotValid
    ensures forall now': Instant, lookup': int -> Result<U, string> ::
      Authenticate(header, now', decode, lookup') == Authenticate(header, now, decode, lookup)
  {
  }

  /** The user is looked up only after every other check passed; the next
      handler is reached only if the lookup succeeds too. */
  lemma LookupOnlyAfterAllChecks<U>(header: string, now: Instant, decode: string -> Parsed,
                                    lookup: int -> Result<U, string>, lookup': int -> Result<U, string>)
    requires Authenticate(header, now, decode, lookup) != Authenticate(header, now, decode, lookup')
      || Authenticate(header, now, decode, lookup).Next?
    ensures WellFormed(header) && TokenOf(header) != ""
    ensures decode(TokenOf(header)).Token? && decode(TokenOf(header)).valid
    ensures var claims := decode(TokenOf(header)).claims;
      && claims.Some?
      && NumberClaim(claims.value, "user_id").Some?
      && NumberClaim(claims.value, "exp").Some?
      && (NumberClaim(claims.value, "exp").value == 0 || now < NumberClaim(claims.value, "exp").value * Second)
      && UnixSeconds(now) <= NumberClaim(claims.value, "exp").value
  {
  }

  /** Whole seconds before `exp` are exactly the instants before `exp`'s first nanosecond. */
  lemma BeforeExpiry(now: Instant, exp: int)
    ensures now < exp * Second <==> UnixSeconds(now) < exp
  {
    var s := UnixSeconds(now);
    if s < exp {
      assert (s + 1) * Second <= exp * Second;
    } else {
      assert exp * Second <= s * Second;
    }
  }

  /** The expiry boundary: a token is accepted up to the last nanosecond
      before its `exp` second begins; from that instant on the library
      itself refuses it. */
  lemma ExpiryBoundary<U>(header: string, exp: int, userId: int, user: U, decode: string -> Parsed, lookup: int -> Result<U, string>)
    requires exp != 0
    requires WellFormed(header) && TokenOf(header) != ""
    requires decode(TokenOf(header)) == Token(true, Some(map["user_id" := Number(userId), "exp" := Number(exp)]))
    requires lookup(userId) == Ok(user)
    ensures Authenticate(header, exp * Second - 1, decode, lookup) == Next(user)
    ensures Authenticate(header, exp * Second, decode, lookup) == Abort(InvalidToken(ExpiredError))
  {
    BeforeExpiry(exp * Second - 1, exp);
  }

  /** An `exp` of `0` gets past `jwt.Parse` unchecked; the middleware's own
      check then refuses the token once the clock is past the epoch's first
      second, and accepts it before that. */
  lemma ZeroExpiry<U>(header: string, now: Instant, userId: int, user: U, decode: string -> Parsed, lookup: int -> Result<U, string>)
    requires WellFormed(header) && TokenOf(header) != ""
    requires decode(TokenOf(header)) == Token(true, Some(map["user_id" := Number(userId), "exp" := Number(0)]))
    requires lookup(userId) == Ok(user)
    ensures UnixSeconds(now) > 0 ==> Authenticate(header, now, decode, lookup) == Abort(Expired)
    ensures UnixSeconds(now) <= 0 ==> Authenticate(header, now, decode, lookup) == Next(user)
  {
  }

  /** The middleware's own expiry check fires only for an `exp` of `0`: any
      other numeric `exp` that has passed is already refused by `jwt.Parse`,
      and a token that gets past it has `Unix() < exp`. */
  lemma ExpiredOnlyForZeroExpiry<U>(header: string, now: Instant, decode: string -> Parsed, lookup: int -> Result<U, string>)
    ensures Authenticate(header, now, decode, lookup) == Abort(Expired) <==>
      && WellFormed(header) && TokenOf(header) != ""
      && decode(TokenOf(header)).Token? && decode(TokenOf(header)).valid && decode(TokenOf(header)).claims.Some?
      && NumberClaim(decode(TokenOf(header)).claims.value, "user_id").Some?
      && NumberClaim(decode(TokenOf(header)).claims.value, "exp") == Some(0)
      && UnixSeconds(now) > 0
  {
    if WellFormed(header) && TokenOf(header) != "" {
      var p := decode(TokenOf(header));
      if p.Token? && p.valid && p.claims.Some? && NumberClaim(p.claims.value, "exp").Some? {
        BeforeExpiry(now, NumberClaim(p.claims.value, "exp").value);
      }
    }
  }
}

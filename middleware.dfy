/**
 * The `authenticate` middleware (controllers/accounts/middleware.js): reads the bearer token
 * from the Authorization header, has it verified, looks the account up with its access-token
 * secret, and either answers with an error or attaches `req.auth` and calls `next()` once.
 *
 * `jwt.verify` refuses an absent or empty token outright ("jwt must be provided"), which the
 * middleware answers as bad credentials; on a present token it is an abstract `verify` function
 * to its outcome; `formatAccountDatas`, which the routes' services provide
 * but which is not part of this model, is an abstract `format` function.
 */
module Middleware {
  import opened Wrappers
  import opened JsText
  import opened Store
  import opened AccountServices
  import opened Http

  /** What `req.auth` holds: the formatted account, the presented JWT and the expiry in seconds. */
  datatype Auth = Auth(account: Clean, token: Option<string>, expires: int)

  datatype Decision = Reject(code: int, message: string) | Accept(auth: Auth)

  /** `authHeader.split(" ")[1]`, which is `undefined` when the header has no space. */
  function BearerToken(header: string): Option<string> {
    var fields := Split(header, ' ');
    if |fields| >= 2 then Some(fields[1]) else None
  }

  /** For a header `scheme token` with no other space, the token is the second field. */
  lemma BearerTokenOf(scheme: string, token: string)
    requires ' ' !in scheme && ' ' !in token
    ensures BearerToken(scheme + " " + token) == Some(token)
  {
    SplitJoin([scheme, token], ' ');
    assert Join([scheme, token], ' ') == scheme + " " + token by {
      assert Join([scheme, token][1..], ' ') == token;
    }
  }

  /** A header without a space presents no token at all. */
  lemma {:induction false} BearerTokenNeedsSpace(header: string)
    requires ' ' !in header
    ensures BearerToken(header) == None
  {
    SplitJoin([header], ' ');
  }

  /** A second header field that is present and non-empty: the only tokens `jwt.verify` looks at. */
  predicate Presented(jwtToken: Option<string>) {
    jwtToken.Some? && jwtToken.value != ""
  }

  /** The whole cascade of `authenticate`, as the decision it takes. */
  function Decide(rows: seq<Account>, authorization: Option<string>, verify: Option<string> -> Verified,
                  format: Clean -> Clean, now: int): Decision
  {
    if authorization.None? || authorization.value == "" then Reject(403, "Unauthorized.")
    else
      var jwtToken := BearerToken(authorization.value);
      if !Presented(jwtToken) then Reject(403, "Bad credentials.")
      else match verify(jwtToken)
      case Expired => Reject(401, "Session expired.")
      case Malformed => Reject(403, "Bad credentials.")
      case Valid(email, token, exp) =>
        match GetAccount(rows, email, Some(SlotMatches(AccessToken, token)), false)
        case Failure(code, message) => Reject(code, message)
        case Found(account) => Accept(Auth(format(account), jwtToken, if exp != 0 then exp else now))
  }

  /** The request and response objects the middleware sees, reduced to what it reads and writes. */
  class Exchange {
    const authorization: Option<string>
    var auth: Option<Auth>
    var response: Option<Response>
    var nextCalls: nat

    constructor (authorization: Option<string>)
      ensures this.authorization == authorization
      ensures auth.None? && response.None? && nextCalls == 0
    {
      this.authorization := authorization;
      auth, response, nextCalls := None, None, 0;
    }
  }

  /** `authenticate(req, res, next)`: answers a rejection, or sets `req.auth` and calls `next()`. */
  method Authenticate(ex: Exchange, db: Db, verify: Option<string> -> Verified, format: Clean -> Clean, now: int)
    modifies ex
    ensures var d := Decide(old(db.accounts), ex.authorization, verify, format, now);
      && (d.Reject? ==> ex.response == Some(Fail(d.code, d.message)) && ex.auth == old(ex.auth)
                           && ex.nextCalls == old(ex.nextCalls))
      && (d.Accept? ==> ex.auth == Some(d.auth) && ex.response == old(ex.response)
                           && ex.nextCalls == old(ex.nextCalls) + 1)
  {
    if ex.authorization.None? || ex.authorization.value == "" {
      ex.response := Some(Fail(403, "Unauthorized."));
      return;
    }
    var jwtToken := BearerToken(ex.authorization.value);
    if !Presented(jwtToken) {
      ex.response := Some(Fail(403, "Bad credentials."));
      return;
    }
    var verified := verify(jwtToken);
    if verified.Expired? {
      ex.response := Some(Fail(401, "Session expired."));
      return;
    }
    if verified.Malformed? {
      ex.response := Some(Fail(403, "Bad credentials."));
      return;
    }
    var lookup := GetAccount(db.accounts, verified.email, Some(SlotMatches(AccessToken, verified.token)), false);
    if lookup.Failure? {
      ex.response := Some(Fail(lookup.code, lookup.message));
      return;
    }
    var exp := if verified.exp != 0 then verified.exp else now;
    ex.auth := Some(Auth(format(lookup.account), jwtToken, exp));
    ex.nextCalls := ex.nextCalls + 1;
  }

  /** Without an Authorization header (or with an empty one) the answer is 403, whatever the verifier says. */
  lemma NoHeaderIsUnauthorized(rows: seq<Account>, authorization: Option<string>, verify: Option<string> -> Verified,
                               format: Clean -> Clean, now: int)
    requires authorization.None? || authorization == Some("")
    ensures Decide(rows, authorization, verify, format, now) == Reject(403, "Unauthorized.")
  {
  }

  /**
   * A header with no second field, or an empty one, gives 403 "Bad credentials." whatever the
   * verifier would say; for a presented token, an expired envelope gives 401 "Session expired."
   * and any other verification error 403 "Bad credentials.".
   */
  lemma VerificationErrors(rows: seq<Account>, header: string, verify: Option<string> -> Verified,
                           format: Clean -> Clean, now: int)
    requires header != ""
    ensures !Presented(BearerToken(header)) ==>
      Decide(rows, Some(header), verify, format, now) == Reject(403, "Bad credentials.")
    ensures Presented(BearerToken(header)) && verify(BearerToken(header)).Expired? ==>
      Decide(rows, Some(header), verify, format, now) == Reject(401, "Session expired.")
    ensures Presented(BearerToken(header)) && verify(BearerToken(header)).Malformed? ==>
      Decide(rows, Some(header), verify, format, now) == Reject(403, "Bad credentials.")
  {
  }

  /** A header holding only the scheme, such as "Bearer", presents no token: 403 "Bad credentials.". */
  lemma SchemeOnlyIsBadCredentials(rows: seq<Account>, verify: Option<string> -> Verified, format: Clean -> Clean, now: int)
    ensures Decide(rows, Some("Bearer"), verify, format, now) == Reject(403, "Bad credentials.")
  {
    BearerTokenNeedsSpace("Bearer");
  }

  /**
   * For a valid envelope, a missing account gives 404 and an inactive one 403, whatever secret the
   * envelope carries; an active account whose access token differs from the secret gives 401.
   */
  lemma AccountChecksBeforeSecret(rows: seq<Account>, header: string, verify: Option<string> -> Verified,
                                  format: Clean -> Clean, now: int)
    requires header != "" && Presented(BearerToken(header)) && verify(BearerToken(header)).Valid?
    ensures var v := verify(BearerToken(header));
      var d := Decide(rows, Some(header), verify, format, now);
      && ((!exists i :: OnlyAt(rows, HasEmail(v.email), i)) ==> d == Reject(404, "Account not found."))
      && (forall i :: OnlyAt(rows, HasEmail(v.email), i) && rows[i].active == 0 ==>
            d == Reject(403, "Account is not yet activated."))
      && (forall i :: (OnlyAt(rows, HasEmail(v.email), i) && rows[i].active != 0
                        && rows[i].profile.accessToken != v.token) ==> d == Reject(401, "Unauthorized."))
  {
    var v := verify(BearerToken(header));
    GetAccountCascade(rows, v.email, Some(SlotMatches(AccessToken, v.token)), false);
  }

  /**
   * Acceptance means: a non-empty header whose second field is present, non-empty and verifies,
   * the unique active account with that email holding the envelope's secret as access token,
   * `req.auth.token` the presented JWT, and the expiry the envelope's (or now when it has none).
   */
  lemma AcceptedMeans(rows: seq<Account>, authorization: Option<string>, verify: Option<string> -> Verified,
                      format: Clean -> Clean, now: int)
    requires Decide(rows, authorization, verify, format, now).Accept?
    ensures var auth := Decide(rows, authorization, verify, format, now).auth;
      && authorization.Some? && authorization.value != ""
      && auth.token == BearerToken(authorization.value) && Presented(auth.token)
      && var v := verify(auth.token);
      && v.Valid?
      && auth.expires == (if v.exp != 0 then v.exp else now)
      && exists i :: && OnlyAt(rows, HasEmail(v.email), i) && rows[i].active != 0
                     && rows[i].profile.accessToken == v.token
                     && auth.account == format(CleanAccount(rows[i]))
  {
    var v := verify(BearerToken(authorization.value));
    GetAccountCascade(rows, v.email, Some(SlotMatches(AccessToken, v.token)), false);
    var i :| OnlyAt(rows, HasEmail(v.email), i);
  }
}

/** The two request gates of backend/middleware/auth.js: `authMiddleware`
    (token from the Authorization header, verified, identity attached to the
    request) and `checkLimits` (company status and minutes quota). */
module Middleware {
  import opened Wrappers
  import opened Records

  // ---------------------------------------------------------------------
  // Splitting the header on ' '
  // ---------------------------------------------------------------------

  /** JavaScript `s.split(' ')`: the fields between single spaces, so two
      adjacent spaces give an empty field and the empty string gives `['']`. */
  function Split(s: string): (fields: seq<string>)
    ensures |fields| >= 1
    ensures forall i :: 0 <= i < |fields| ==> ' ' !in fields[i]
    ensures |fields| == 1 <==> ' ' !in s
  {
    if |s| == 0 then [""]
    else
      var rest := Split(s[1..]);
      assert ' ' in s <==> s[0] == ' ' || ' ' in s[1..];
      if s[0] == ' ' then [""] + rest
      else [[s[0]] + rest[0]] + rest[1..]
  }

  /** JavaScript `fields.join(' ')`. */
  function Join(fields: seq<string>): string
  {
    if |fields| == 0 then ""
    else if |fields| == 1 then fields[0]
    else fields[0] + " " + Join(fields[1..])
  }

  /** Splitting loses nothing: joining the fields gives the header back. */
  lemma {:induction false} JoinSplit(s: string)
    ensures Join(Split(s)) == s
  {
    if |s| > 0 {
      var rest := Split(s[1..]);
      JoinSplit(s[1..]);
      if s[0] != ' ' && |rest| > 1 {
        var fields := Split(s);
        assert fields[1..] == rest[1..];
        assert Join(fields) == ([s[0]] + rest[0]) + " " + Join(rest[1..]);
        assert Join(rest) == rest[0] + " " + Join(rest[1..]);
        assert s == [s[0]] + s[1..];
      } else if s[0] == ' ' {
        var fields := Split(s);
        assert fields[1..] == rest;
        assert s == " " + s[1..];
      } else {
        assert s == [s[0]] + s[1..];
      }
    }
  }

  /** A word without spaces is a single field. */
  lemma {:induction false} SplitWord(w: string)
    requires ' ' !in w
    ensures Split(w) == [w]
  {
    if |w| > 0 {
      SplitWord(w[1..]);
      assert [w[0]] + w[1..] == w;
    }
  }

  /** A space-free word followed by a space is the first field, and the
      rest of the header is split on its own. */
  lemma {:induction false} SplitAfterWord(w: string, r: string)
    requires ' ' !in w
    ensures Split(w + " " + r) == [w] + Split(r)
  {
    if |w| == 0 {
      assert (w + " " + r)[1..] == r;
    } else {
      assert (w + " " + r)[1..] == w[1..] + " " + r;
      SplitAfterWord(w[1..], r);
      assert [w[0]] + w[1..] == w;
    }
  }

  /** Joining space-free fields and splitting again gives the fields back. */
  lemma {:induction false} SplitJoin(fields: seq<string>)
    requires |fields| >= 1
    requires forall i :: 0 <= i < |fields| ==> ' ' !in fields[i]
    ensures Split(Join(fields)) == fields
  {
    if |fields| == 1 {
      SplitWord(fields[0]);
    } else {
      SplitJoin(fields[1..]);
      SplitAfterWord(fields[0], Join(fields[1..]));
      assert [fields[0]] + fields[1..] == fields;
    }
  }

  // ---------------------------------------------------------------------
  // authMiddleware
  // ---------------------------------------------------------------------

  /** `req.headers.authorization?.split(' ')[1]`: the second space-separated
      field of the header, or nothing when the header is missing or has no
      space. The first field (the scheme word) is not looked at. */
  function TokenField(header: Option<string>): (token: Option<string>)
    ensures token.None? <==> header.None? || ' ' !in header.value
    ensures token.Some? ==> ' ' !in token.value
  {
    match header
    case None => None
    case Some(h) =>
      var fields := Split(h);
      if |fields| >= 2 then Some(fields[1]) else None
  }

  /** The token is the text between the first and the second space, or
      between the first space and the end of the header. */
  lemma {:induction false} TokenIsSecondField(scheme: string, token: string, rest: string)
    requires ' ' !in scheme && ' ' !in token
    ensures TokenField(Some(scheme + " " + token)) == Some(token)
    ensures TokenField(Some(scheme + " " + token + " " + rest)) == Some(token)
  {
    SplitAfterWord(scheme, token);
    SplitWord(token);
    SplitAfterWord(scheme, token + " " + rest);
    SplitAfterWord(token, rest);
    assert scheme + " " + token + " " + rest == scheme + " " + (token + " " + rest);
  }

  /** The scheme word never matters: any two space-free first fields give
      the same token. */
  lemma {:induction false} SchemeNotInspected(scheme1: string, scheme2: string, rest: string)
    requires ' ' !in scheme1 && ' ' !in scheme2
    ensures TokenField(Some(scheme1 + " " + rest)) == TokenField(Some(scheme2 + " " + rest))
  {
    SplitAfterWord(scheme1, rest);
    SplitAfterWord(scheme2, rest);
  }

  /** The decision of `authMiddleware`: reject when the token field is
      falsy, reject when the codec does not accept the token, and otherwise
      yield the decoded claims. `verify` is the token codec (signature and
      expiry checked against the server's secret and clock). */
  function Authenticate(header: Option<string>, verify: string -> Option<Claims>): (r: Result<Claims, ErrorKind>)
    ensures r == Failure(AuthorizationRequired) <==> !Truthy(TokenField(header))
    ensures r == Failure(InvalidToken) <==> Truthy(TokenField(header)) && verify(TokenField(header).value).None?
    ensures r.Success? <==> Truthy(TokenField(header)) && verify(TokenField(header).value).Some?
    ensures r.Success? ==> Some(r.value) == verify(TokenField(header).value)
  {
    var token := TokenField(header);
    if !Truthy(token) then
      Failure(AuthorizationRequired)
    else
      match verify(token.value)
      case None => Failure(InvalidToken)
      case Some(decoded) => Success(decoded)
  }

  /** A missing header, or one without a space, asks for authorization
      whatever the codec would say. */
  lemma NoSecondFieldRejected(header: Option<string>, verify: string -> Option<Claims>)
    requires header.None? || ' ' !in header.value
    ensures Authenticate(header, verify) == Failure(AuthorizationRequired)
  {
  }

  /** `Bearer ` followed by nothing yields the empty token, which is
      rejected as missing. */
  lemma EmptyBearerRejected(verify: string -> Option<Claims>)
    ensures TokenField(Some("Bearer ")) == Some("")
    ensures Authenticate(Some("Bearer "), verify) == Failure(AuthorizationRequired)
  {
  }

  /** A well-formed `Bearer <token>` header passes the token to the codec
      and nothing else. */
  lemma {:induction false} BearerTokenVerified(token: string, verify: string -> Option<Claims>)
    requires token != "" && ' ' !in token
    ensures Authenticate(Some("Bearer " + token), verify)
         == (match verify(token) case Some(c) => Success(c) case None => Failure(InvalidToken))
  {
    TokenIsSecondField("Bearer", token, "");
    assert "Bearer" + " " + token == "Bearer " + token;
  }

  /** The header's scheme word is not checked: `Basic <token>` or any other
      space-free word authenticates exactly like `Bearer <token>`. */
  lemma {:induction false} AnySchemeAccepted(scheme: string, token: string, verify: string -> Option<Claims>)
    requires ' ' !in scheme
    ensures Authenticate(Some(scheme + " " + token), verify) == Authenticate(Some("Bearer " + token), verify)
  {
    SchemeNotInspected(scheme, "Bearer", token);
    assert "Bearer" + " " + token == "Bearer " + token;
  }

  /** The request object as far as the gates use it: the Authorization
      header, and the identity fields `authMiddleware` assigns. */
  class Request {
    const authorization: Option<string>
    var userId: Option<Id>
    var companyId: Option<Id>
    var userEmail: Option<string>

    constructor (authorization: Option<string>)
      ensures this.authorization == authorization
      ensures userId == None && companyId == None && userEmail == None
    {
      this.authorization := authorization;
      userId, companyId, userEmail := None, None, None;
    }
  }

  /** `authMiddleware(req, res, next)`. `Next` means `next()` is called
      (once); `Halt` carries the 401 answer. The request's identity fields
      are assigned only on success, and then from the decoded claims. */
  method AuthMiddleware(req: Request, verify: string -> Option<Claims>) returns (g: GateResult)
    modifies req
    ensures match Authenticate(req.authorization, verify)
      case Success(c) =>
        && g == Next
        && req.userId == Some(c.userId)
        && req.companyId == Some(c.companyId)
        && req.userEmail == Some(c.email)
      case Failure(e) =>
        && g == Halt(Fail(e))
        && unchanged(req)
    ensures g.Halt? ==> g.response.status == 401
  {
    var token := TokenField(req.authorization);
    if !Truthy(token) {
      return Halt(Fail(AuthorizationRequired));
    }
    var decoded := verify(token.value);
    if decoded.None? {
      return Halt(Fail(InvalidToken));
    }
    req.userId := Some(decoded.value.userId);
    req.companyId := Some(decoded.value.companyId);
    req.userEmail := Some(decoded.value.email);
    g := Next;
  }

  // ---------------------------------------------------------------------
  // checkLimits
  // ---------------------------------------------------------------------

  /** `checkLimits(req, res, next)` over the companies table and the
      request's `companyId`: a missing company is 404, then a suspended one
      403, then an exhausted quota (used >= limit) 403 with both counts, and
      only otherwise `next()`. */
  function CheckLimits(companies: map<Id, Company>, companyId: Option<Id>): (r: GateResult)
    ensures r == Next <==>
      && companyId.Some? && companyId.value in companies
      && companies[companyId.value].status != Suspended
      && companies[companyId.value].minutesUsed < companies[companyId.value].minutesLimit
    ensures companyId.None? || companyId.value !in companies ==> r == Halt(Fail(CompanyNotFound))
    ensures companyId.Some? && companyId.value in companies && companies[companyId.value].status == Suspended
            ==> r == Halt(Fail(SubscriptionSuspended))
    ensures companyId.Some? && companyId.value in companies && companies[companyId.value].status != Suspended
            && companies[companyId.value].minutesUsed >= companies[companyId.value].minutesLimit
            ==> r == Halt(Response(403, LimitBody(MinutesExhausted,
                                                  companies[companyId.value].minutesUsed,
                                                  companies[companyId.value].minutesLimit)))
  {
    if companyId.None? || companyId.value !in companies then
      Halt(Fail(CompanyNotFound))
    else
      var company := companies[companyId.value];
      if company.status == Suspended then
        Halt(Fail(SubscriptionSuspended))
      else if company.minutesUsed >= company.minutesLimit then
        Halt(Response(StatusOf(MinutesExhausted), LimitBody(MinutesExhausted, company.minutesUsed, company.minutesLimit)))
      else
        Next
  }

  /** A suspended company is refused with the same answer whatever its
      minute counts, so the status check comes before the quota check. */
  lemma SuspensionPrecedesQuota(companies: map<Id, Company>, id: Id, used: int, limit: int)
    requires id in companies && companies[id].status == Suspended
    ensures CheckLimits(companies, Some(id))
         == CheckLimits(companies[id := companies[id].(minutesUsed := used, minutesLimit := limit)], Some(id))
         == Halt(Fail(SubscriptionSuspended))
  {
  }

  /** Using exactly the limit counts as exhausted; one minute less passes. */
  lemma QuotaBoundary(companies: map<Id, Company>, id: Id)
    requires id in companies && companies[id].status != Suspended
    ensures CheckLimits(companies[id := companies[id].(minutesUsed := companies[id].minutesLimit)], Some(id)).Halt?
    ensures CheckLimits(companies[id := companies[id].(minutesUsed := companies[id].minutesLimit - 1)], Some(id)) == Next
  {
  }
}

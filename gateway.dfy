/** The auth gateway that every request passes before its handler: CORS preflight, the
    allow-list, the bearer header (section 2.1 of RFC 6750), token verification and the admin
    namespace. Token verification belongs to a signing library and is a parameter here:
    `verify(token)` is the decoded claim set, or None when the library rejects the token. */
module Gateway {
  import opened Schema

  /** Exact paths that need no token. */
  const WHITE_LIST: seq<string> := [
    "/api/auth/login",
    "/api/auth/register",
    "/login.html",
    "/register.html",
    "/css/style.css",
    "/js/api.js",
    "/js/auth.js",
    "/"
  ]

  const ADMIN_PREFIX: string := "/api/admin/"
  const BEARER_PREFIX: string := "Bearer "
  const LOGIN_PAGE: string := "/login.html"
  const ALLOW_ORIGIN: string := "Access-Control-Allow-Origin"

  const PREFLIGHT_HEADERS: map<string, string> := map[
    ALLOW_ORIGIN := "*",
    "Access-Control-Allow-Methods" := "GET, POST, PUT, DELETE, OPTIONS",
    "Access-Control-Allow-Headers" := "Content-Type, Authorization",
    "Access-Control-Max-Age" := "86400"
  ]

  const MSG_NOT_LOGGED_IN: string := "未登录，请先登录"
  const MSG_INVALID_TOKEN: string := "令牌无效，请重新登录"
  const MSG_NOT_ADMIN: string := "无管理员权限"

  datatype Request = Request(verb: string, path: string, authorization: Option<string>)

  datatype Body = NoBody | Json(code: int, message: string) | Content(text: string)

  datatype Response = Response(status: int, headers: map<string, string>, body: Body)

  /** What the gateway does with one request. `NotAdmin` and `Dispatch` carry the verified
      claims, which have been stored as `data.user` in both cases. */
  datatype Decision =
    | Preflight
    | PassThrough
    | RedirectToLogin
    | Unauthenticated
    | InvalidToken
    | NotAdmin(user: Claims)
    | Dispatch(user: Claims)

  predicate StartsWith(s: string, prefix: string)
  {
    |prefix| <= |s| && s[..|prefix|] == prefix
  }

  /** Allow-listed paths and static assets. */
  predicate Bypassed(path: string)
  {
    path in WHITE_LIST || StartsWith(path, "/js/") || StartsWith(path, "/css/")
  }

  /** `authHeader && authHeader.startsWith('Bearer ')`. */
  predicate HasBearer(authorization: Option<string>)
  {
    authorization.Some? && StartsWith(authorization.value, BEARER_PREFIX)
  }

  /** The HTML entry pages that redirect to the login page instead of answering 401. */
  predicate IsEntryPage(path: string)
  {
    path == "/index.html" || path == "/admin.html"
  }

  /** A request that is neither a preflight nor bypassed, so it needs a token. */
  predicate Guarded(req: Request)
  {
    req.verb != "OPTIONS" && !Bypassed(req.path)
  }

  /** `s.split(sep)`. */
  function Split(s: string, sep: char): (fields: seq<string>)
    ensures |fields| >= 1
    ensures forall i :: 0 <= i < |fields| ==> sep !in fields[i]
  {
    if s == [] then [""]
    else
      var rest := Split(s[1..], sep);
      if s[0] == sep then [""] + rest
      else [[s[0]] + rest[0]] + rest[1..]
  }

  /** `fields.join(sep)`. */
  function JoinFields(fields: seq<string>, sep: char): string
    requires |fields| >= 1
  {
    if |fields| == 1 then fields[0] else fields[0] + [sep] + JoinFields(fields[1..], sep)
  }

  /** Splitting loses nothing: joining the fields back gives the header again. */
  lemma {:induction false} JoinFieldsSplit(s: string, sep: char)
    ensures JoinFields(Split(s, sep), sep) == s
  {
    if s != [] {
      var rest := Split(s[1..], sep);
      JoinFieldsSplit(s[1..], sep);
      if s[0] == sep {
        assert Split(s, sep)[1..] == rest;
      } else {
        var fields := Split(s, sep);
        assert fields[0] == [s[0]] + rest[0];
        if |rest| == 1 {
          assert JoinFields(fields, sep) == [s[0]] + rest[0];
        } else {
          assert fields[1..] == rest[1..];
          assert JoinFields(rest, sep) == rest[0] + [sep] + JoinFields(rest[1..], sep);
        }
        assert s == [s[0]] + s[1..];
      }
    }
  }

  /** A field without the separator, then the separator: the field comes first. */
  lemma {:induction false} SplitAfterField(w: string, sep: char, rest: string)
    requires sep !in w
    ensures Split(w + [sep] + rest, sep) == [w] + Split(rest, sep)
  {
    if w != [] {
      SplitAfterField(w[1..], sep, rest);
      assert (w + [sep] + rest)[1..] == w[1..] + [sep] + rest;
      assert [w[0]] + w[1..] == w;
    } else {
      assert ([sep] + rest)[1..] == rest;
    }
  }

  lemma {:induction false} SplitNoSeparator(s: string, sep: char)
    requires sep !in s
    ensures Split(s, sep) == [s]
  {
    if s != [] {
      SplitNoSeparator(s[1..], sep);
      assert [s[0]] + s[1..] == s;
    }
  }

  /** `authHeader.split(' ')[1]`; None where the array has no second element. */
  function BearerToken(header: string): Option<string>
  {
    var fields := Split(header, ' ');
    if |fields| >= 2 then Some(fields[1]) else None
  }

  /** The token of a bearer header is the text after "Bearer " up to the next space; for a
      header "Bearer " + t with no space in t, it is exactly t. */
  lemma BearerTokenIsSecondField(header: string)
    requires StartsWith(header, BEARER_PREFIX)
    ensures BearerToken(header) == Some(Split(header[|BEARER_PREFIX|..], ' ')[0])
    ensures forall t :: header == BEARER_PREFIX + t && ' ' !in t ==> BearerToken(header) == Some(t)
  {
    var rest := header[|BEARER_PREFIX|..];
    assert header == "Bearer" + [' '] + rest;
    SplitAfterField("Bearer", ' ', rest);
    forall t | header == BEARER_PREFIX + t && ' ' !in t
      ensures BearerToken(header) == Some(t)
    {
      assert rest == t;
      SplitNoSeparator(t, ' ');
    }
  }

  /** The claims the signing library returns for the request's bearer token, if any. */
  function VerifiedClaims(req: Request, verify: string -> Option<Claims>): Option<Claims>
    requires req.authorization.Some?
  {
    match BearerToken(req.authorization.value)
    case None => None
    case Some(token) => verify(token)
  }

  /** The gateway's decision, in the order the checks run: preflight, allow-list, header,
      verification, admin namespace. */
  function Decide(req: Request, verify: string -> Option<Claims>): (d: Decision)
    ensures req.verb == "OPTIONS" <==> d == Preflight
    ensures d == PassThrough <==> req.verb != "OPTIONS" && Bypassed(req.path)
    ensures d == RedirectToLogin <==> Guarded(req) && !HasBearer(req.authorization) && IsEntryPage(req.path)
    ensures d == Unauthenticated <==> Guarded(req) && !HasBearer(req.authorization) && !IsEntryPage(req.path)
    ensures d == InvalidToken <==>
      Guarded(req) && HasBearer(req.authorization) && VerifiedClaims(req, verify).None?
    ensures d.NotAdmin? <==>
      && Guarded(req) && HasBearer(req.authorization) && VerifiedClaims(req, verify).Some?
      && StartsWith(req.path, ADMIN_PREFIX) && VerifiedClaims(req, verify).value.isAdmin == 0
    ensures d.NotAdmin? || d.Dispatch? ==>
      HasBearer(req.authorization) && VerifiedClaims(req, verify) == Some(d.user)
  {
    if req.verb == "OPTIONS" then Preflight
    else if Bypassed(req.path) then PassThrough
    else if !HasBearer(req.authorization) then
      if IsEntryPage(req.path) then RedirectToLogin else Unauthenticated
    else
      match VerifiedClaims(req, verify)
      case None => InvalidToken
      case Some(claims) =>
        if StartsWith(req.path, ADMIN_PREFIX) && claims.isAdmin == 0 then NotAdmin(claims)
        else Dispatch(claims)
  }

  /** Requests that never reach verification are decided the same whatever the verifier says:
      the allow-list and the missing header need no token check. */
  lemma NoTokenCheckBeforeHeader(req: Request, verify1: string -> Option<Claims>, verify2: string -> Option<Claims>)
    requires !Guarded(req) || !HasBearer(req.authorization)
    ensures Decide(req, verify1) == Decide(req, verify2)
    ensures Decide(req, verify1) in {Preflight, PassThrough, RedirectToLogin, Unauthenticated}
  {
  }

  function ErrorResponse(code: int, message: string): (resp: Response)
    ensures resp.status == code && resp.body == Json(code, message)
    ensures ALLOW_ORIGIN in resp.headers && resp.headers[ALLOW_ORIGIN] == "*"
  {
    Response(code, map["Content-Type" := "application/json", ALLOW_ORIGIN := "*"], Json(code, message))
  }

  /** The bypass response as written: `new Response(response.body, { ...response, headers })`.
      Spreading a Response copies none of its accessor properties, so the status falls back
      to the default 200. */
  function PassThroughAsWritten(downstream: Response): (resp: Response)
    ensures resp.status == 200
    ensures resp.body == downstream.body
    ensures resp.headers == downstream.headers[ALLOW_ORIGIN := "*"]
  {
    Response(200, downstream.headers[ALLOW_ORIGIN := "*"], downstream.body)
  }

  /** An allow-listed handler's 400 reaches the client with status 200. */
  lemma PassThroughAsWrittenDropsStatus()
    ensures var downstream := Response(400, map[], Json(400, "用户名或密码错误"));
            PassThroughAsWritten(downstream).status != downstream.status
  {
  }

  /** The bypass response as intended: the handler's response with the CORS header added and
      nothing else changed. */
  function WithAllowOrigin(downstream: Response): (resp: Response)
    ensures resp.status == downstream.status && resp.body == downstream.body
    ensures ALLOW_ORIGIN in resp.headers && resp.headers[ALLOW_ORIGIN] == "*"
    ensures resp.headers.Keys == downstream.headers.Keys + {ALLOW_ORIGIN}
    ensures forall h :: h in downstream.headers && h != ALLOW_ORIGIN ==> resp.headers[h] == downstream.headers[h]
  {
    downstream.(headers := downstream.headers[ALLOW_ORIGIN := "*"])
  }

  /** The response the client receives for a decision; `downstream` is the response of the
      next handler in the chain, used only where the gateway calls it. */
  function Respond(d: Decision, downstream: Response): (resp: Response)
    ensures d.Preflight? ==> resp.status == 200 && resp.headers == PREFLIGHT_HEADERS && resp.body == NoBody
    ensures d.PassThrough? ==> resp == WithAllowOrigin(downstream)
    ensures d.RedirectToLogin? ==> resp.status == 302 && "Location" in resp.headers && resp.headers["Location"] == LOGIN_PAGE
    ensures d.Unauthenticated? ==> resp.status == 401 && resp.body == Json(401, MSG_NOT_LOGGED_IN)
    ensures d.InvalidToken? ==> resp.status == 401 && resp.body == Json(401, MSG_INVALID_TOKEN)
    ensures d.NotAdmin? ==> resp.status == 403 && resp.body == Json(403, MSG_NOT_ADMIN)
    ensures d.Dispatch? ==> resp == downstream
  {
    match d
    case Preflight => Response(200, PREFLIGHT_HEADERS, NoBody)
    case PassThrough => WithAllowOrigin(downstream)
    case RedirectToLogin => Response(302, map["Location" := LOGIN_PAGE], NoBody)
    case Unauthenticated => ErrorResponse(401, MSG_NOT_LOGGED_IN)
    case InvalidToken => ErrorResponse(401, MSG_INVALID_TOKEN)
    case NotAdmin(_) => ErrorResponse(403, MSG_NOT_ADMIN)
    case Dispatch(_) => downstream
  }

  /** The request-scoped `data` object that handlers read the caller from. */
  class Context {
    var user: Option<Claims>

    constructor ()
      ensures user == None
    {
      user := None;
    }
  }

  /** One pass of the gateway: the response, whether the next handler was called, and the
      caller's claims written to `data.user` once the token verifies. */
  method OnRequest(ctx: Context, req: Request, verify: string -> Option<Claims>, downstream: Response)
    returns (resp: Response, nextCalled: bool)
    modifies ctx
    ensures resp == Respond(Decide(req, verify), downstream)
    ensures nextCalled <==> Decide(req, verify) == PassThrough || Decide(req, verify).Dispatch?
    ensures Decide(req, verify).NotAdmin? || Decide(req, verify).Dispatch? ==>
      ctx.user == Some(Decide(req, verify).user)
    ensures !(Decide(req, verify).NotAdmin? || Decide(req, verify).Dispatch?) ==> ctx.user == old(ctx.user)
  {
    if req.verb == "OPTIONS" {
      return Response(200, PREFLIGHT_HEADERS, NoBody), false;
    }
    if Bypassed(req.path) {
      return WithAllowOrigin(downstream), true;
    }
    var authHeader := req.authorization;
    if !HasBearer(authHeader) {
      if IsEntryPage(req.path) {
        return Response(302, map["Location" := LOGIN_PAGE], NoBody), false;
      }
      return ErrorResponse(401, MSG_NOT_LOGGED_IN), false;
    }
    var token := BearerToken(authHeader.value);
    var decoded := if token.Some? then verify(token.value) else None;
    if decoded.None? {
      return ErrorResponse(401, MSG_INVALID_TOKEN), false;
    }
    ctx.user := decoded;
    if StartsWith(req.path, ADMIN_PREFIX) && decoded.value.isAdmin == 0 {
      return ErrorResponse(403, MSG_NOT_ADMIN), false;
    }
    return downstream, true;
  }
}

/** The two Express middlewares: Bearer-token authentication and the admin
    gate. Token verification (signature and expiry) is a parameter. */
module Middleware {
  import opened Basics
  import opened Types

  const BEARER: string := "Bearer "
  const MSG_NO_TOKEN: string := "未登录或token缺失"
  const MSG_BAD_TOKEN: string := "token无效或已过期"
  const MSG_NOT_LOGGED_IN: string := "未登录"
  const MSG_NOT_ADMIN: string := "权限不足，仅管理员可以访问此接口"

  /** What a middleware does with the request: answer it with an error, or
      call `next()` (for the auth middleware, with `req.user` set). */
  datatype Decision<+T> = Reject(status: int, message: string) | Next(user: T)

  /** The token of an Authorization header: everything after the first
      seven characters, when the header starts with exactly "Bearer ". */
  function BearerToken(header: Option<string>): (r: Option<string>)
    ensures r.Some? <==> header.Some? && StartsWith(header.value, BEARER)
    ensures r.Some? ==> header.value == BEARER + r.value
  {
    if header.Some? && header.value != "" && StartsWith(header.value, BEARER)
    then Some(header.value[7..])
    else None
  }

  lemma {:induction false} BearerTokenOfPrefixed(t: string)
    ensures BearerToken(Some(BEARER + t)) == Some(t)
  {
    assert (BEARER + t)[..|BEARER|] == BEARER;
    assert (BEARER + t)[7..] == t;
  }

  /** authMiddleware: 401 without a Bearer header, 401 when `verify`
      rejects the token, otherwise `next()` with the verified payload. */
  function AuthMiddleware(header: Option<string>, verify: string -> Option<Payload>): (d: Decision<Payload>)
    ensures d.Reject? ==> d.status == 401
    ensures BearerToken(header).None? ==> d == Reject(401, MSG_NO_TOKEN)
    ensures BearerToken(header).Some? && verify(BearerToken(header).value).None? ==>
              d == Reject(401, MSG_BAD_TOKEN)
    ensures d.Next? <==> BearerToken(header).Some? && verify(BearerToken(header).value).Some?
    ensures d.Next? ==> d.user == verify(BearerToken(header).value).value
  {
    match BearerToken(header)
    case None => Reject(401, MSG_NO_TOKEN)
    case Some(token) =>
      match verify(token)
      case None => Reject(401, MSG_BAD_TOKEN)
      case Some(payload) => Next(payload)
  }

  /** adminMiddleware: 401 without `req.user`, 403 for a non-admin, else `next()`. */
  function AdminMiddleware(user: Option<Payload>): (d: Decision<Payload>)
    ensures user.None? ==> d == Reject(401, MSG_NOT_LOGGED_IN)
    ensures user.Some? && user.value.role != AdminRole ==> d == Reject(403, MSG_NOT_ADMIN)
    ensures d.Next? <==> user.Some? && user.value.role == AdminRole
    ensures d.Next? ==> d.user == user.value
  {
    if user.None? then Reject(401, MSG_NOT_LOGGED_IN)
    else if user.value.role != AdminRole then Reject(403, MSG_NOT_ADMIN)
    else Next(user.value)
  }

  /** The chain `authMiddleware, adminMiddleware` that guards admin routes. */
  function AdminChain(header: Option<string>, verify: string -> Option<Payload>): Decision<Payload> {
    match AuthMiddleware(header, verify)
    case Reject(s, m) => Reject(s, m)
    case Next(p) => AdminMiddleware(Some(p))
  }

  /** An admin route is reached exactly with "Bearer " + a token that
      verifies to an admin payload. */
  lemma {:induction false} AdminChainReachedIff(t: string, verify: string -> Option<Payload>)
    ensures AdminChain(Some(BEARER + t), verify).Next? <==>
              verify(t).Some? && verify(t).value.role == AdminRole
    ensures verify(t).Some? && verify(t).value.role != AdminRole ==>
              AdminChain(Some(BEARER + t), verify) == Reject(403, MSG_NOT_ADMIN)
  {
    BearerTokenOfPrefixed(t);
  }
}

/** `Middleware.AuthMiddleware`: the `Authorization: Bearer <token>` header
    of section 2.1 of RFC 6750, the HMAC-only algorithm gate (the HS256,
    HS384 and HS512 algorithms of section 3.2 of RFC 7518), and the user id
    the downstream handler finds in the request context. Decoding a JWT and
    checking its signature and time claims (RFC 7519) is the job of
    `jwt.ParseWithClaims`; here it is a parser supplied by the caller. */
module Middleware {
  import opened Wrappers
  import opened GoStd

  /** What the JWT library makes of a token string: not a JWT at all, or a
      token with its header's algorithm, the `user_id` claim, and whether
      the signature checks out under the server key and the time claims
      hold. */
  datatype Parsed =
    | Unparseable
    | Token(alg: string, userId: int, genuine: bool)

  type Parser = string -> Parsed

  /** The algorithms `jwt.SigningMethodHMAC` implements. */
  predicate IsHmac(alg: string) {
    alg == "HS256" || alg == "HS384" || alg == "HS512"
  }

  /** Values stored in a request context. */
  datatype CtxValue = IntValue(i: int) | TextValue(s: string)

  /** A request context, keyed by string keys. */
  type Context = map<string, CtxValue>

  const UserKey := "token_user_id"

  /** A handler's two-value type assertion on the context entry: the int
      stored under the key, if there is one. */
  function TokenUser(ctx: Context): (r: Option<int>)
    ensures r.Some? <==> UserKey in ctx && ctx[UserKey].IntValue?
    ensures r.Some? ==> ctx[UserKey] == IntValue(r.value)
  {
    if UserKey in ctx && ctx[UserKey].IntValue? then Some(ctx[UserKey].i) else None
  }

  /** The middleware's verdict: a 401 with its message, or the request
      forwarded with a new context. */
  datatype Verdict = Reject(code: int, message: string) | Forward(ctx: Context)

  const Bearer := "Bearer "

  /** The token check: a parse failure, a non-HMAC algorithm (refused by
      the key function) and a bad signature or expired token all give the
      same 401; a good token puts its user id in the context. */
  function CheckToken(parsed: Parsed, ctx: Context): (v: Verdict)
    ensures v.Forward? <==> parsed.Token? && IsHmac(parsed.alg) && parsed.genuine
    ensures v.Reject? ==> v == Reject(401, "Invalid or expired token")
    ensures v.Forward? ==> TokenUser(v.ctx) == Some(parsed.userId)
    ensures v.Forward? ==> forall k :: k != UserKey ==> (k in v.ctx <==> k in ctx) && (k in ctx ==> v.ctx[k] == ctx[k])
  {
    match parsed
    case Unparseable => Reject(401, "Invalid or expired token")
    case Token(alg, userId, genuine) =>
      if !IsHmac(alg) || !genuine then Reject(401, "Invalid or expired token")
      else Forward(ctx[UserKey := IntValue(userId)])
  }

  /** `AuthMiddleware`: reject an empty header; strip one leading "Bearer "
      and reject the header if that changed nothing; then check the token. */
  function Authenticate(header: string, parse: Parser, ctx: Context): (v: Verdict)
    ensures v.Reject? ==> v.code == 401
    ensures header == "" ==> v == Reject(401, "Missing Authorization header")
    ensures header != "" && !HasPrefix(header, Bearer) ==> v == Reject(401, "Invalid token format")
    ensures HasPrefix(header, Bearer) ==> v == CheckToken(parse(header[|Bearer|..]), ctx)
  {
    if header == "" then Reject(401, "Missing Authorization header")
    else
      var token := TrimPrefix(header, Bearer);
      TrimPrefixUnchangedIff(header, Bearer);
      if token == header then Reject(401, "Invalid token format")
      else CheckToken(parse(token), ctx)
  }

  /** Whatever follows the one "Bearer " prefix is the token, even when it
      is empty or itself starts with "Bearer ". */
  lemma TokenIsRemainder(token: string, parse: Parser, ctx: Context)
    ensures Authenticate(Bearer + token, parse, ctx) == CheckToken(parse(token), ctx)
  {
    assert (Bearer + token)[..|Bearer|] == Bearer;
    assert (Bearer + token)[|Bearer|..] == token;
  }

  /** A forwarded request carries exactly the token's user id, and nothing
      else in the context changed. */
  lemma ForwardInjectsUserId(header: string, parse: Parser, ctx: Context)
    requires Authenticate(header, parse, ctx).Forward?
    ensures HasPrefix(header, Bearer)
    ensures var p := parse(header[|Bearer|..]);
      && p.Token? && IsHmac(p.alg) && p.genuine
      && TokenUser(Authenticate(header, parse, ctx).ctx) == Some(p.userId)
  {
  }

  /** The prefix is case-sensitive and needs its space; the token after it
      is not trimmed. */
  lemma PrefixIsExact(parse: Parser, ctx: Context)
    ensures Authenticate("bearer abc", parse, ctx) == Reject(401, "Invalid token format")
    ensures Authenticate("Bearer", parse, ctx) == Reject(401, "Invalid token format")
    ensures Authenticate("Bearer ", parse, ctx) == CheckToken(parse(""), ctx)
    ensures Authenticate("Bearer  abc", parse, ctx) == CheckToken(parse(" abc"), ctx)
  {
    assert "bearer abc"[..7] != Bearer by { assert "bearer abc"[0] != Bearer[0]; }
    TokenIsRemainder("", parse, ctx);
    TokenIsRemainder(" abc", parse, ctx);
  }
}

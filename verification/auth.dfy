/** The authentication gate: token issue and verification, resolving the
    `Authorization` header to a user, and the `requireAuth` / `requireRole`
    handler wrappers. Signing and verifying a JWT are parameters: `sign`
    stands for `jwt.sign` with the process secret and 7-day expiry, and
    `verify` for `jwt.verify`, whose thrown error is a Failure. */
module Auth {
  import opened Wrappers
  import opened JsString
  import opened ObjectId
  import opened UserModel
  import opened Http

  /** The claims a token carries. */
  datatype Payload = Payload(userId: string, email: string, role: string)

  type Signer = Payload -> string
  type Verifier = string -> Result<Payload, string>

  /** A request as the gate sees it: the value `req.headers.get('authorization')`
      returns, if any, and whatever else the wrapped handler reads. That value
      is the header as received, with surrounding whitespace already stripped
      by the Fetch `Headers` class, so a sent `"Bearer "` arrives as
      `"Bearer"`; it yields the token `"Bearer"`, which fails verification. */
  datatype Request<B> = Request(authorization: Option<string>, body: B)

  const BearerPrefix := "Bearer "
  const AuthenticationRequired := "Authentication required"
  const InsufficientPermissions := "Insufficient permissions"

  /** The claims issued for a user. */
  function TokenPayload(u: User): Payload {
    Payload(ToString(u.id), u.email, RoleName(u.role))
  }

  /** `generateToken(user)`: the signature of claims that name the user. */
  function GenerateToken(sign: Signer, u: User): (token: string)
    ensures exists p: Payload :: sign(p) == token && Cast(p.userId) == Some(u.id)
              && p.email == u.email && p.role == RoleName(u.role)
  {
    TokenPayloadNamesUser(u);
    sign(TokenPayload(u))
  }

  /** The claims of a token identify its user: its `userId` casts back to
      the user's id, and its email and role are the user's at issue time. */
  lemma TokenPayloadNamesUser(u: User)
    ensures Cast(TokenPayload(u).userId) == Some(u.id)
    ensures TokenPayload(u).email == u.email
    ensures TokenPayload(u).role == RoleName(u.role)
  {
    CastToString(u.id);
  }

  /** `verifyToken(token)`: never fails; any verification error is None. */
  function VerifyToken(verify: Verifier, token: string): (r: Option<Payload>)
    ensures r.None? <==> verify(token).Failure?
    ensures r.Some? ==> verify(token) == Success(r.value)
  {
    match verify(token)
    case Success(payload) => Some(payload)
    case Failure(_) => None
  }

  /** The token of an `Authorization` header: the header with the first
      `"Bearer "` removed, wherever it occurs; None when the header is
      missing or nothing is left. */
  function ExtractToken(header: Option<string>): (r: Option<string>)
    ensures header.None? ==> r.None?
    ensures r.Some? ==> r.value != ""
    ensures header.Some? && IndexOf(header.value, BearerPrefix).None? ==>
              r == (if header.value == "" then None else header)
    ensures header.Some? && IndexOf(header.value, BearerPrefix).Some? ==>
              (r.None? <==> header.value == BearerPrefix)
    ensures header.Some? ==>
              r == if RemoveFirst(header.value, BearerPrefix) == "" then None
                   else Some(RemoveFirst(header.value, BearerPrefix))
  {
    match header
    case None => None
    case Some(h) =>
      var token := RemoveFirst(h, BearerPrefix);
      if token == "" then None else Some(token)
  }

  /** `getCurrentUser(req)`: the stored user named by the verified token,
      without its password. A missing or empty token, a failed
      verification, a `userId` that does not cast to an ObjectId (the
      thrown cast error) and an unknown id all give None. The user comes
      from the store, never from the claims. */
  function GetCurrentUser(header: Option<string>, verify: Verifier, store: Store)
    : (r: Option<PublicUser>)
    ensures r.Some? <==>
              && ExtractToken(header).Some?
              && verify(ExtractToken(header).value).Success?
              && Cast(verify(ExtractToken(header).value).value.userId).Some?
              && Cast(verify(ExtractToken(header).value).value.userId).value in store
    ensures r.Some? ==>
              r.value == Public(store[Cast(verify(ExtractToken(header).value).value.userId).value])
  {
    match ExtractToken(header)
    case None => None
    case Some(token) =>
      match VerifyToken(verify, token)
      case None => None
      case Some(payload) =>
        match Cast(payload.userId)
        case None => None
        case Some(id) => if id in store then Some(Public(store[id])) else None
  }

  function Unauthenticated<T>(): Response<T> {
    Error(Unauthorized, AuthenticationRequired)
  }

  /** `requireAuth(handler)` applied to a request: 401 without a user,
      otherwise the handler's own response for that user. */
  function RequireAuth<B, T>(
    handler: (Request<B>, PublicUser) -> Response<T>,
    verify: Verifier, store: Store, req: Request<B>): (r: Response<T>)
    ensures GetCurrentUser(req.authorization, verify, store).None? ==>
              r == Error(Unauthorized, AuthenticationRequired)
    ensures GetCurrentUser(req.authorization, verify, store).Some? ==>
              r == handler(req, GetCurrentUser(req.authorization, verify, store).value)
  {
    match GetCurrentUser(req.authorization, verify, store)
    case None => Unauthenticated()
    case Some(user) => handler(req, user)
  }

  /** The role test of `requireRole(role)`: the role itself or admin. */
  predicate HasRole(user: PublicUser, role: Role) {
    user.role == role || user.role == AdminRole
  }

  /** `requireRole(role)(handler)` applied to a request: `requireAuth`
      around a role check that answers 403. */
  function RequireRole<B, T>(
    role: Role, handler: (Request<B>, PublicUser) -> Response<T>,
    verify: Verifier, store: Store, req: Request<B>): (r: Response<T>)
    ensures GetCurrentUser(req.authorization, verify, store).None? ==>
              r == Error(Unauthorized, AuthenticationRequired)
    ensures GetCurrentUser(req.authorization, verify, store).Some? ==>
              var user := GetCurrentUser(req.authorization, verify, store).value;
              && (HasRole(user, role) ==> r == handler(req, user))
              && (!HasRole(user, role) ==> r == Error(Forbidden, InsufficientPermissions))
  {
    RequireAuth(
      (rq: Request<B>, user: PublicUser) =>
        if user.role != role && user.role != AdminRole
        then Error(Forbidden, InsufficientPermissions)
        else handler(rq, user),
      verify, store, req)
  }

  /** A request without an `Authorization` header is answered 401. */
  lemma MissingHeaderRejected<B, T>(
    handler: (Request<B>, PublicUser) -> Response<T>, verify: Verifier, store: Store, body: B)
    ensures RequireAuth(handler, verify, store, Request(None, body))
            == Error(Unauthorized, AuthenticationRequired)
  {
  }

  /** A header that is exactly `"Bearer "` leaves an empty token and is
      answered 401 without consulting the verifier. */
  lemma BareBearerRejected<B, T>(
    handler: (Request<B>, PublicUser) -> Response<T>, verify: Verifier, store: Store, body: B)
    ensures ExtractToken(Some(BearerPrefix)).None?
    ensures RequireAuth(handler, verify, store, Request(Some(BearerPrefix), body))
            == Error(Unauthorized, AuthenticationRequired)
  {
    RemoveFirstOfPrefixed(BearerPrefix, "");
    assert BearerPrefix + "" == BearerPrefix;
  }

  /** `requireRole` authenticates first: without a user the answer is 401,
      never 403, and the handler is not consulted. */
  lemma RequireRoleAuthenticatesFirst<B, T>(
    role: Role, handler: (Request<B>, PublicUser) -> Response<T>,
    verify: Verifier, store: Store, req: Request<B>)
    requires GetCurrentUser(req.authorization, verify, store).None?
    ensures RequireRole(role, handler, verify, store, req)
            == Error(Unauthorized, AuthenticationRequired)
  {
  }

  /** With a user, `requireRole(role)` hands over to the handler exactly
      when the user has the role or is an admin, and answers 403 otherwise. */
  lemma RequireRoleDecision<B, T>(
    role: Role, handler: (Request<B>, PublicUser) -> Response<T>,
    verify: Verifier, store: Store, req: Request<B>)
    requires GetCurrentUser(req.authorization, verify, store).Some?
    ensures var user := GetCurrentUser(req.authorization, verify, store).value;
            && (HasRole(user, role) ==> RequireRole(role, handler, verify, store, req) == handler(req, user))
            && (!HasRole(user, role) ==>
                  RequireRole(role, handler, verify, store, req) == Error(Forbidden, InsufficientPermissions))
  {
  }

  /** `requireRole('user')` admits every authenticated user, and
      `requireRole('admin')` admits exactly the admins. */
  lemma RolesAdmitted(user: PublicUser)
    ensures HasRole(user, UserRole)
    ensures HasRole(user, AdminRole) <==> user.role == AdminRole
  {
  }

  /** A token issued for a stored user, sent as `"Bearer " + token`,
      resolves to that user's current record, provided the verifier
      accepts what the signer produced and the token is not empty. */
  lemma IssuedTokenAuthenticates(sign: Signer, verify: Verifier, store: Store, u: User)
    requires WellFormed(store) && u.id in store && store[u.id] == u
    requires verify(GenerateToken(sign, u)) == Success(TokenPayload(u))
    requires GenerateToken(sign, u) != ""
    ensures GetCurrentUser(Some(BearerPrefix + GenerateToken(sign, u)), verify, store)
            == Some(Public(u))
  {
    RemoveFirstOfPrefixed(BearerPrefix, GenerateToken(sign, u));
    TokenPayloadNamesUser(u);
  }

  /** The resolved user is the stored record at the time of the request:
      two tokens naming the same `userId` resolve alike, whatever email and
      role they were issued with. */
  lemma StaleClaimsIgnored(h1: string, h2: string, verify: Verifier, store: Store)
    requires ExtractToken(Some(h1)).Some? && ExtractToken(Some(h2)).Some?
    requires verify(ExtractToken(Some(h1)).value).Success?
    requires verify(ExtractToken(Some(h2)).value).Success?
    requires verify(ExtractToken(Some(h1)).value).value.userId
             == verify(ExtractToken(Some(h2)).value).value.userId
    ensures GetCurrentUser(Some(h1), verify, store) == GetCurrentUser(Some(h2), verify, store)
  {
  }

  /** A token for a user no longer in the store is answered 401. */
  lemma DeletedUserRejected<B, T>(
    handler: (Request<B>, PublicUser) -> Response<T>,
    sign: Signer, verify: Verifier, store: Store, u: User, body: B)
    requires u.id !in store
    requires verify(GenerateToken(sign, u)) == Success(TokenPayload(u))
    ensures RequireAuth(handler, verify, store, Request(Some(BearerPrefix + GenerateToken(sign, u)), body))
            == Error(Unauthorized, AuthenticationRequired)
  {
    RemoveFirstOfPrefixed(BearerPrefix, GenerateToken(sign, u));
    TokenPayloadNamesUser(u);
  }
}

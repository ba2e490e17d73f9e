/** The guards of `middlewares/auth.js`. `authenticate` takes the token from a
    `Bearer` authorization header, verifies it, loads the user it names and
    checks that the password was not changed after the token was issued, each
    failure ending the request with a 401; on success it attaches the user to
    the request. `authorize(...roles)` answers 403 to a user whose role is not
    listed. JWT verification and the user lookup are functions passed in. */
module Auth {
  import opened Runtime
  import opened UserModel

  // ---------------------------------------------------------------------------
  // The bearer token

  predicate StartsWith(s: string, prefix: string) {
    |prefix| <= |s| && s[..|prefix|] == prefix
  }

  /** The token of an `Authorization` header: present only when the header is set,
      non-empty and begins with `Bearer`; then the second space-separated field,
      if there is one, which holds no space. */
  function ExtractToken(authorization: Option<string>): (token: Option<string>)
    ensures token.Some? ==> authorization.Some? && StartsWith(authorization.value, "Bearer")
    ensures token.Some? ==> ' ' !in token.value
  {
    if authorization.Some? && authorization.value != "" && StartsWith(authorization.value, "Bearer") then
      var fields := Split(authorization.value, ' ');
      if |fields| >= 2 then Some(fields[1]) else None
    else None
  }

  /** `!token`: no token, or the empty one. */
  predicate MissingToken(token: Option<string>) {
    token.None? || token.value == ""
  }

  /** A well-formed `Bearer <token>` header yields the token. */
  lemma BearerHeaderYieldsToken(token: string)
    requires ' ' !in token
    ensures ExtractToken(Some("Bearer " + token)) == Some(token)
  {
    var header := "Bearer " + token;
    assert header == "Bearer" + [' '] + token;
    assert header[..6] == "Bearer";
    SplitAfterHead("Bearer", ' ', token);
    SplitWithoutSeparator(token, ' ');
  }

  /** `Bearer` with nothing after it yields no token. */
  lemma BareBearerYieldsNothing()
    ensures ExtractToken(Some("Bearer")) == None
  {
    SplitWithoutSeparator("Bearer", ' ');
  }

  /** The second space-separated field of `h`, read off by position: the text
      after the first space up to the next space or the end; none when `h` has
      no space. */
  function SecondField(h: string): Option<string> {
    var i := IndexOf(h, ' ');
    if i == |h| then None
    else
      var after := h[i + 1..];
      Some(after[..IndexOf(after, ' ')])
  }

  /** The token is the header's second field, for a header that begins with
      `Bearer`, and there is none otherwise. */
  lemma ExtractTokenIsSecondField(authorization: Option<string>)
    ensures ExtractToken(authorization) ==
              if authorization.Some? && StartsWith(authorization.value, "Bearer")
              then SecondField(authorization.value) else None
  {
    if authorization.Some? && StartsWith(authorization.value, "Bearer") {
      var h := authorization.value;
      var i := IndexOf(h, ' ');
      SplitFirstPiece(h, ' ');
      if i < |h| {
        var after := h[i + 1..];
        SplitFirstPiece(after, ' ');
        assert Split(h, ' ')[1] == Split(h, ' ')[1..][0];
      }
    }
  }

  // ---------------------------------------------------------------------------
  // authenticate

  /** The `user` claim of a verified token: absent, or an object whose `id` may be
      absent. */
  datatype Subject = NoUserClaim | UserClaim(id: Option<string>)

  /** A verified token's payload: its subject and `iat`, in seconds. */
  datatype Claims = Claims(subject: Subject, iat: int)

  /** `User.findById(id)`: a user, none, or a thrown error (an id that is not an
      ObjectId, a database failure). */
  datatype Lookup = Found(user: UserRecord) | NotFound | LookupFailed

  const NoToken := Rejected(401, "Acesss denied, No authorization token")
  const InvalidToken := Rejected(401, "Invalid token")
  const UserGone := Rejected(401, "Acesss denied, User with the token might have been deleted or deactivated")
  const StalePassword := Rejected(401, "You recently changed you password,Please re-login and  try again")

  /** How the stale-password guard `!user.checkIfUserChangedPasswordAfterJWTToken(iat)`
      reads. `AsWritten`: the helper is `async`, so the call is a Promise, which is
      truthy, and the guard never fires. `SynchronousHelper`: the same guard were
      the helper synchronous, which fires exactly for the tokens that are not
      stale. `Intended`: reject a token issued before the password change. */
  datatype GuardReading = AsWritten | SynchronousHelper | Intended

  function StaleGuardFires(reading: GuardReading, changedAfter: bool): bool {
    match reading
    case AsWritten => false
    case SynchronousHelper => !changedAfter
    case Intended => changedAfter
  }

  /** The header carries a token that verifies, whose `user` claim has an id, and
      the lookup of that id finds `user`. */
  predicate TokenNames(authorization: Option<string>, verify: string -> Option<Claims>,
                       findById: string -> Lookup, user: UserRecord)
  {
    var token := ExtractToken(authorization);
    && !MissingToken(token)
    && var claims := verify(token.value);
       && claims.Some? && claims.value.subject.UserClaim? && claims.value.subject.id.Some?
       && findById(claims.value.subject.id.value) == Found(user)
  }

  /** The `iat` of the header's token, for a header that carries a verified one. */
  function IssuedAt(authorization: Option<string>, verify: string -> Option<Claims>): int
    requires !MissingToken(ExtractToken(authorization)) && verify(ExtractToken(authorization).value).Some?
  {
    verify(ExtractToken(authorization).value).value.iat
  }

  /** The decision chain of `authenticate`, in order: a missing token, a token that
      does not verify, a payload without a `user`, a lookup that throws, no such
      user, the stale-password guard; otherwise the user is attached. Whatever the
      guard's reading, a request without a token gets the missing-token 401, an
      accepted request carries a token naming the user attached, and only a guard
      that fires gives the stale-password answer. */
  function AuthenticateWith(reading: GuardReading, authorization: Option<string>,
                            verify: string -> Option<Claims>, findById: string -> Lookup)
    : (r: Result<UserRecord, RouteError>)
    ensures MissingToken(ExtractToken(authorization)) ==> r == Err(NoToken)
    ensures r.Err? ==> r.error in {NoToken, InvalidToken, UserGone, StalePassword}
    ensures r.Ok? ==> TokenNames(authorization, verify, findById, r.value)
    ensures r == Err(StalePassword) ==> reading != AsWritten
  {
    var token := ExtractToken(authorization);
    if MissingToken(token) then Err(NoToken)
    else
      var claims := verify(token.value);
      if claims.None? || claims.value.subject.NoUserClaim? then Err(InvalidToken)
      else
        var lookup := if claims.value.subject.id.None? then NotFound else findById(claims.value.subject.id.value);
        if lookup.LookupFailed? then Err(InvalidToken)
        else if lookup.NotFound? then Err(UserGone)
        else if StaleGuardFires(reading, ChangedPasswordAfter(lookup.user.passwordChangedAt, claims.value.iat))
        then Err(StalePassword)
        else Ok(lookup.user)
  }

  /** `authenticate` as the code is written: it never gives the stale-password
      answer. */
  function AuthenticateAsWritten(authorization: Option<string>, verify: string -> Option<Claims>,
                                 findById: string -> Lookup): (r: Result<UserRecord, RouteError>)
    ensures r != Err(StalePassword)
  {
    AuthenticateWith(AsWritten, authorization, verify, findById)
  }

  /** `authenticate` with the stale-password guard as its comment describes it: an
      accepted token was issued no earlier than the user's last password change. */
  function Authenticate(authorization: Option<string>, verify: string -> Option<Claims>,
                        findById: string -> Lookup): (r: Result<UserRecord, RouteError>)
    ensures r.Ok? ==> TokenNames(authorization, verify, findById, r.value) &&
                      !ChangedPasswordAfter(r.value.passwordChangedAt, IssuedAt(authorization, verify))
  {
    AuthenticateWith(Intended, authorization, verify, findById)
  }

  /** Without a token the answer is the 401 for a missing token, whatever the
      verifier and the users collection would say. */
  lemma NoTokenDecidedFirst(reading: GuardReading, authorization: Option<string>,
                            verify: string -> Option<Claims>, findById: string -> Lookup)
    requires MissingToken(ExtractToken(authorization))
    ensures AuthenticateWith(reading, authorization, verify, findById) == Err(NoToken)
  {
  }

  /** A token that does not verify is answered "Invalid token" before any lookup. */
  lemma UnverifiedTokenInvalid(reading: GuardReading, authorization: Option<string>,
                               verify: string -> Option<Claims>, findById: string -> Lookup)
    requires !MissingToken(ExtractToken(authorization))
    requires verify(ExtractToken(authorization).value).None?
    ensures AuthenticateWith(reading, authorization, verify, findById) == Err(InvalidToken)
  {
  }

  /** The corrected guard accepts a request exactly when it carries a token that
      verifies, names a user that exists, and was issued no earlier than that
      user's last password change; the user is then the one attached. */
  lemma AuthenticateAcceptsIff(authorization: Option<string>, verify: string -> Option<Claims>,
                               findById: string -> Lookup)
    ensures Authenticate(authorization, verify, findById).Ok? <==>
              var token := ExtractToken(authorization);
              && !MissingToken(token)
              && var claims := verify(token.value);
                 && claims.Some? && claims.value.subject.UserClaim? && claims.value.subject.id.Some?
                 && findById(claims.value.subject.id.value).Found?
                 && !ChangedPasswordAfter(findById(claims.value.subject.id.value).user.passwordChangedAt,
                                          claims.value.iat)
    ensures Authenticate(authorization, verify, findById).Ok? ==>
              var claims := verify(ExtractToken(authorization).value);
              Authenticate(authorization, verify, findById).value == findById(claims.value.subject.id.value).user
  {
  }

  /** The code as written accepts a request exactly when it carries a token that
      verifies and names a user that exists, however long ago the token was
      issued; that user is the one attached. */
  lemma AuthenticateAsWrittenAcceptsIff(authorization: Option<string>, verify: string -> Option<Claims>,
                                        findById: string -> Lookup)
    ensures AuthenticateAsWritten(authorization, verify, findById).Ok? <==>
              var token := ExtractToken(authorization);
              && !MissingToken(token)
              && var claims := verify(token.value);
                 && claims.Some? && claims.value.subject.UserClaim? && claims.value.subject.id.Some?
                 && findById(claims.value.subject.id.value).Found?
    ensures AuthenticateAsWritten(authorization, verify, findById).Ok? ==>
              var claims := verify(ExtractToken(authorization).value);
              AuthenticateAsWritten(authorization, verify, findById).value == findById(claims.value.subject.id.value).user
  {
  }

  /** The two readings differ only in the stale-password case: where the corrected
      guard rejects, the code as written lets the request through. */
  lemma AsWrittenAdmitsStaleTokens(authorization: Option<string>, verify: string -> Option<Claims>,
                                   findById: string -> Lookup)
    ensures Authenticate(authorization, verify, findById) == Err(StalePassword) ==>
              AuthenticateAsWritten(authorization, verify, findById).Ok?
    ensures Authenticate(authorization, verify, findById) != Err(StalePassword) ==>
              AuthenticateAsWritten(authorization, verify, findById) == Authenticate(authorization, verify, findById)
  {
  }

  /** Read synchronously, the guard would invert the check: for a request whose
      token names an existing user, it answers the stale-password 401 exactly
      when the token is NOT stale and admits exactly the stale tokens, while the
      corrected guard rejects exactly the stale ones. */
  lemma SynchronousGuardInverted(authorization: Option<string>, verify: string -> Option<Claims>,
                                 findById: string -> Lookup, user: UserRecord)
    requires TokenNames(authorization, verify, findById, user)
    ensures var stale := ChangedPasswordAfter(user.passwordChangedAt, IssuedAt(authorization, verify));
            && (AuthenticateWith(SynchronousHelper, authorization, verify, findById) == Err(StalePassword) <==> !stale)
            && (AuthenticateWith(SynchronousHelper, authorization, verify, findById) == Ok(user) <==> stale)
            && (Authenticate(authorization, verify, findById) == Err(StalePassword) <==> stale)
            && (Authenticate(authorization, verify, findById) == Ok(user) <==> !stale)
  {
  }

  /** A concrete request: a user whose password changed at 10,000,000 ms (second
      10,000) presents a token issued at second 5,000. The code as written admits
      it; the corrected guard rejects it. */
  lemma StaleTokenAdmittedExample(token: string, user: UserRecord, verify: string -> Option<Claims>,
                                  findById: string -> Lookup)
    requires token != "" && ' ' !in token
    requires user.passwordChangedAt == Some(10000000)
    requires verify(token) == Some(Claims(UserClaim(Some(user.id)), 5000))
    requires findById(user.id) == Found(user)
    ensures AuthenticateAsWritten(Some("Bearer " + token), verify, findById) == Ok(user)
    ensures Authenticate(Some("Bearer " + token), verify, findById) == Err(StalePassword)
  {
    BearerHeaderYieldsToken(token);
    assert SecondsOf(10000000) == 10000;
  }

  /** A request as far as the guards see it: its `Authorization` header and the
      user `authenticate` attaches. */
  class Request {
    const authorization: Option<string>
    var user: Option<UserRecord>

    constructor (authorization: Option<string>)
      ensures this.authorization == authorization && user.None?
    {
      this.authorization := authorization;
      user := None;
    }

    /** `authenticate(req, res, next)` with the stale-password guard read as
        `reading` (`AsWritten` is the code as it stands): on success the user is
        attached and `next` is called; otherwise the 401 is the answer and the
        request is left as it was. */
    method AuthenticateRequest(reading: GuardReading, verify: string -> Option<Claims>, findById: string -> Lookup)
      returns (r: Result<UserRecord, RouteError>)
      modifies this
      ensures r == AuthenticateWith(reading, authorization, verify, findById)
      ensures user == if r.Ok? then Some(r.value) else old(user)
    {
      r := AuthenticateWith(reading, authorization, verify, findById);
      if r.Ok? {
        user := Some(r.value);
      }
    }
  }

  // ---------------------------------------------------------------------------
  // authorize

  const Forbidden := Rejected(403, "Sorry you are fobidden to carry out this operation")

  /** `authorize(...roles)` for an authenticated user: a 403 unless the user's role
      is listed; the request is otherwise passed on unchanged. */
  function Authorize(roles: seq<string>, user: UserRecord): (r: Result<UserRecord, RouteError>)
    ensures r.Ok? <==> RoleName(user.role) in roles
    ensures r.Ok? ==> r.value == user
    ensures r.Err? ==> r.error == Forbidden
  {
    if RoleName(user.role) in roles then Ok(user) else Err(Forbidden)
  }

  /** The user listing (`authorize('admin', 'developer')`) admits administrators and
      developers and refuses plain users. */
  lemma ListingRolesAdmit(user: UserRecord)
    ensures Authorize(["admin", "developer"], user).Ok? <==> user.role != UserRole
  {
    assert RoleName(UserRole) == "user";
  }
}

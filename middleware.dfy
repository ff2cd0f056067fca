/** `authMiddleware` and `optionalAuth`: the bearer-header check, the token oracle's outcomes
    and their mapping to replies, and the user lookup that marks the caller online. */
module Middleware {
  import opened Common
  import opened Text
  import opened Db

  /** What `jwt.verify` does with a token: decodes it to a user id, or throws a
      JsonWebTokenError (malformed or badly signed), a TokenExpiredError, or any other error. */
  datatype JwtOutcome = Decoded(userId: UserId) | Malformed | Expired | OtherFailure

  const Bearer := "Bearer "

  /** The token of an `Authorization` header: present only when the header starts with
      "Bearer ", and then everything after those seven characters. */
  function BearerToken(header: Option<string>): (t: Option<string>)
    ensures t.Some? <==> header.Some? && StartsWith(header.value, Bearer)
    ensures t.Some? ==> |header.value| >= 7 && t.value == header.value[7..]
  {
    if header.Some? && StartsWith(header.value, Bearer) then
      StripPrefix(header.value, Bearer);
      Some(ReplaceFirst(header.value, Bearer, ""))
    else None
  }

  /** `req.user`: the columns the middleware selects. `email_verified` is not among them. */
  datatype ReqUser = ReqUser(
    id: UserId, email: string, name: string, age: Option<int>, bio: Option<string>, location: Option<string>,
    profilePicture: string, userType: string, isVerified: bool, isOnline: bool, privacy: Option<Privacy>)

  const MiddlewareColumns: set<string> := {
    "id", "email", "name", "age", "bio", "location", "profile_picture", "user_type", "is_verified",
    "is_online", "privacy_settings" }

  function Selected(u: User): ReqUser {
    ReqUser(u.id, u.email, u.name, u.age, u.bio, u.location, u.profilePicture, u.userType, u.isVerified,
            u.isOnline, u.privacy)
  }

  datatype AuthResult = Authenticated(user: ReqUser) | Rejected(status: nat, error: string)

  /** The reply for a token the oracle refused: 401 for a bad or expired token, 500 otherwise. */
  function TokenError(o: JwtOutcome): (r: AuthResult)
    requires !o.Decoded?
    ensures r.Rejected?
    ensures o.Malformed? <==> r == Rejected(401, "Invalid token")
    ensures o.Expired? <==> r == Rejected(401, "Token expired")
    ensures o.OtherFailure? <==> r.status == 500
  {
    match o
    case Malformed => Rejected(401, "Invalid token")
    case Expired => Rejected(401, "Token expired")
    case OtherFailure => Rejected(500, "Authentication failed")
  }

  /** `authMiddleware` with `verify` standing for `jwt.verify` and `now` for the clock. Without
      a bearer header nothing else happens (401). A decoded id that names no single user is
      401. On success the user's row is marked online and active, and `req.user` holds the
      selected columns as they were read, before that update. */
  method Authenticate(db: Database, header: Option<string>, verify: string -> JwtOutcome, now: int)
    returns (r: AuthResult)
    modifies db`users
    ensures BearerToken(header).None? ==>
              r == Rejected(401, "No authentication token provided") && db.users == old(db.users)
    ensures BearerToken(header).Some? && !verify(BearerToken(header).value).Decoded? ==>
              r == TokenError(verify(BearerToken(header).value)) && db.users == old(db.users)
    ensures BearerToken(header).Some? && verify(BearerToken(header).value).Decoded?
            && UserById(old(db.users), verify(BearerToken(header).value).userId).None? ==>
              r == Rejected(401, "User not found or token invalid") && db.users == old(db.users)
    ensures r.Authenticated? <==>
              && BearerToken(header).Some? && verify(BearerToken(header).value).Decoded?
              && UserById(old(db.users), verify(BearerToken(header).value).userId).Some?
    ensures r.Authenticated? ==>
              var u := UserById(old(db.users), verify(BearerToken(header).value).userId).value;
              && r.user == Selected(u)
              && db.users == UpdateUser(old(db.users), u.id, Online(now))
  {
    var token := BearerToken(header);
    if token.None? {
      return Rejected(401, "No authentication token provided");
    }
    var decoded := verify(token.value);
    if !decoded.Decoded? {
      return TokenError(decoded);
    }
    var user := UserById(db.users, decoded.userId);
    if user.None? {
      return Rejected(401, "User not found or token invalid");
    }
    db.users := UpdateUser(db.users, user.value.id, Online(now));
    r := Authenticated(Selected(user.value));
  }

  /** The columns `optionalAuth` selects. */
  datatype OptionalUser = OptionalUser(id: UserId, email: string, name: string, profilePicture: string)

  /** `optionalAuth`: it never rejects; `req.user` is set only for a bearer token the oracle
      decodes to the id of a single user, and every failure just leaves it unset. */
  function OptionalAuth(users: seq<User>, header: Option<string>, verify: string -> JwtOutcome): (r: Option<OptionalUser>)
    ensures r.Some? <==>
              && BearerToken(header).Some? && verify(BearerToken(header).value).Decoded?
              && UserById(users, verify(BearerToken(header).value).userId).Some?
    ensures r.Some? ==>
              var u := UserById(users, verify(BearerToken(header).value).userId).value;
              r.value == OptionalUser(u.id, u.email, u.name, u.profilePicture)
  {
    match BearerToken(header)
    case None => None
    case Some(token) =>
      match verify(token)
      case Decoded(id) =>
        (match UserById(users, id)
         case Some(u) => Some(OptionalUser(u.id, u.email, u.name, u.profilePicture))
         case None => None)
      case _ => None
  }
}

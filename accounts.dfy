/** The account routes: registration, login, and the life cycle of the e-mail verification
    and password reset tokens. Hashing, token generation and the clock are parameters:
    `hashed` stands for `bcrypt.hash(password)`, `matches` for `bcrypt.compare`, `token` for a
    fresh `uuidv4()` and `now` for `Date.now()` in milliseconds. */
module Accounts {
  import opened Common
  import opened Seqs
  import opened Text
  import opened Db
  import Middleware

  /** A verification token lives 24 hours. */
  const VerificationTtl := 24 * 60 * 60 * 1000
  /** A reset token lives one hour. */
  const ResetTtl := 60 * 60 * 1000

  const AvatarPrefix := "https://api.dicebear.com/7.x/avataaars/svg?seed="

  const InvalidLogin := "Invalid email or password"
  const GoogleOnly := "This account uses Google Sign-In. Please login with Google."
  const ResetNotice := "If an account with that email exists, we have sent a password reset link."

  function EmailHolder(email: string): User -> bool {
    (u: User) => u.email == email
  }

  function VerificationHolder(token: string): User -> bool {
    (u: User) => u.verificationToken == Some(token)
  }

  function ResetHolder(token: string): User -> bool {
    (u: User) => u.resetToken == Some(token)
  }

  /** `.eq('email', email.toLowerCase()).single()`. */
  function ByEmail(users: seq<User>, email: string): (r: Option<User>)
    ensures r.Some? ==> r.value in users && r.value.email == Lower(email)
  {
    Single(users, EmailHolder(Lower(email)))
  }

  /** No two rows share an e-mail address (the unique key of the column). */
  ghost predicate EmailsUnique(users: seq<User>) {
    forall i, j :: 0 <= i < j < |users| ==> users[i].email != users[j].email
  }

  /** With unique e-mails, the lookup by any letter case of a stored (lower-case) address
      finds its row. */
  lemma FindByEmail(users: seq<User>, i: nat, email: string)
    requires EmailsUnique(users) && i < |users| && users[i].email == Lower(email)
    ensures ByEmail(users, email) == Some(users[i])
  {
    SingleFinds(users, EmailHolder(Lower(email)), i);
  }

  /** `new Date(expires) < new Date()`: a missing expiry reads as time 0. */
  predicate Expired(expires: Option<int>, now: int) {
    (if expires.Some? then expires.value else 0) < now
  }

  // ---------------------------------------------------------------------------------------
  // POST /register

  datatype RegisterReply =
    | Registered(id: UserId, name: string, email: string, userType: string, isVerified: bool, emailVerified: bool)
    | RegisterFailed(status: nat, error: string)

  /** `age || null`: an age of 0 is stored as null. */
  function AgeOrNull(age: Option<int>): (r: Option<int>)
    ensures r.Some? <==> age.Some? && age.value != 0
    ensures r.Some? ==> r == age
  {
    if age.Some? && age.value != 0 then age else None
  }

  /** The default picture: the name with all white space removed, as the avatar seed. */
  function Avatar(name: string): (url: string)
    ensures StartsWith(url, AvatarPrefix)
    ensures forall i :: |AvatarPrefix| <= i < |url| ==> !IsSpace(url[i])
    ensures url[|AvatarPrefix|..] == Filter(name, NotSpace)
  {
    AvatarPrefix + RemoveSpaces(name)
  }

  /** The row the insert stores. Columns the insert does not name take their defaults: no
      Google id, bio or reset token, not verified, offline, no privacy settings. */
  function NewUser(id: UserId, name: string, email: string, hashed: string, age: Option<int>,
                   location: Option<string>, userType: Option<string>, token: string, now: int): User
  {
    User(id, Lower(email), name, Some(hashed), None, AgeOrNull(age), None, OrNull(location), Avatar(name),
         if Present(userType) then userType.value else "student",
         false, false, Some(token), Some(now + VerificationTtl), None, None, false, now, None)
  }

  /** `POST /register`. An address already held (compared lower-cased) is refused with 400;
      an insert that would repeat a key (the id, or an e-mail held twice so that the lookup
      missed it) fails with 500. Otherwise the user is stored with a verification token that
      expires 24 hours later, and linked to the named interests. */
  method Register(db: Database, newId: UserId, name: string, email: string, hashed: string, age: Option<int>,
                  interests: seq<string>, location: Option<string>, userType: Option<string>, token: string, now: int)
    returns (r: RegisterReply)
    modifies db`users, db`userInterests
    ensures ByEmail(old(db.users), email).Some? ==>
              r == RegisterFailed(400, "User already exists with this email") && unchanged(db)
    ensures ByEmail(old(db.users), email).None?
            && (exists i :: 0 <= i < |old(db.users)| && (old(db.users)[i].id == newId || old(db.users)[i].email == Lower(email))) ==>
              r == RegisterFailed(500, "Failed to create user") && unchanged(db)
    ensures r.Registered? ==>
              var u := NewUser(newId, name, email, hashed, age, location, userType, token, now);
              && db.users == old(db.users) + [u]
              && db.userInterests == old(db.userInterests) + (if |interests| > 0 then Links(newId, Named(db.interests, interests)) else [])
              && r == Registered(newId, name, Lower(email), u.userType, false, false)
    ensures r.Registered? <==> forall i :: 0 <= i < |old(db.users)| ==> old(db.users)[i].id != newId && old(db.users)[i].email != Lower(email)
    ensures EmailsUnique(old(db.users)) ==> EmailsUnique(db.users)
    ensures r.Registered? && EmailsUnique(old(db.users)) ==> ByEmail(db.users, email) == Some(db.users[|db.users| - 1])
  {
    var existing := ByEmail(db.users, email);
    if existing.Some? {
      return RegisterFailed(400, "User already exists with this email");
    }
    var lower := Lower(email);
    var i := 0;
    while i < |db.users|
      invariant 0 <= i <= |db.users|
      invariant forall j :: 0 <= j < i ==> db.users[j].id != newId && db.users[j].email != lower
    {
      if db.users[i].id == newId || db.users[i].email == lower {
        return RegisterFailed(500, "Failed to create user");
      }
      i := i + 1;
    }
    var u := NewUser(newId, name, email, hashed, age, location, userType, token, now);
    db.users := db.users + [u];
    if |interests| > 0 {
      db.userInterests := db.userInterests + Links(newId, Named(db.interests, interests));
    }
    r := Registered(newId, name, lower, u.userType, false, false);
    AppendedFound(old(db.users), u, email);
  }

  /** Appending a row with an address no row holds keeps the addresses unique, and the
      lookup then finds the new row. */
  lemma AppendedFound(users: seq<User>, u: User, email: string)
    requires u.email == Lower(email)
    requires forall i :: 0 <= i < |users| ==> users[i].email != Lower(email)
    ensures EmailsUnique(users) ==> EmailsUnique(users + [u])
    ensures EmailsUnique(users) ==> ByEmail(users + [u], email) == Some(u)
  {
    if EmailsUnique(users) {
      FindByEmail(users + [u], |users|, email);
    }
  }

  // ---------------------------------------------------------------------------------------
  // POST /login

  datatype LoginReply = LoggedIn(user: User) | LoginFailed(status: nat, error: string)

  /** `POST /login`. An unknown address and a wrong password get the same answer, so the reply
      does not tell whether the account exists; an account without a password hash is told
      to use Google. On success the user is marked online and active, and the reply carries
      the row as it was read. */
  method Login(db: Database, email: string, password: string, matches: (string, string) -> bool, now: int)
    returns (r: LoginReply)
    modifies db`users
    ensures ByEmail(old(db.users), email).None? ==> r == LoginFailed(400, InvalidLogin)
    ensures ByEmail(old(db.users), email).Some? ==>
              var u := ByEmail(old(db.users), email).value;
              && (!Present(u.passwordHash) ==> r == LoginFailed(400, GoogleOnly))
              && (Present(u.passwordHash) && !matches(password, u.passwordHash.value) ==> r == LoginFailed(400, InvalidLogin))
              && (Present(u.passwordHash) && matches(password, u.passwordHash.value) ==>
                    r == LoggedIn(u)
                    && db.users == UpdateUser(old(db.users), u.id, Online(now)))
    ensures r.LoginFailed? ==> db.users == old(db.users)
  {
    var user := ByEmail(db.users, email);
    if user.None? {
      return LoginFailed(400, InvalidLogin);
    }
    var u := user.value;
    if !Present(u.passwordHash) {
      return LoginFailed(400, GoogleOnly);
    }
    if !matches(password, u.passwordHash.value) {
      return LoginFailed(400, InvalidLogin);
    }
    db.users := UpdateUser(db.users, u.id, Online(now));
    r := LoggedIn(u);
  }

  // ---------------------------------------------------------------------------------------
  // GET /verify-email/:token

  function Verified(u: User): User {
    u.(emailVerified := true, isVerified := true, verificationToken := None, verificationExpires := None)
  }

  /** `GET /verify-email/:token`. A token held by no single user is refused, an expired one
      too; otherwise its holder becomes verified and the token is spent: afterwards no row
      holds it, so it cannot be used a second time. */
  method VerifyEmail(db: Database, token: string, now: int) returns (r: Reply)
    modifies db`users
    ensures Single(old(db.users), VerificationHolder(token)).None? ==>
              r == Fail(400, "Invalid or expired verification token") && db.users == old(db.users)
    ensures Single(old(db.users), VerificationHolder(token)).Some? ==>
              var u := Single(old(db.users), VerificationHolder(token)).value;
              && (Expired(u.verificationExpires, now) ==> r == Fail(400, "Verification token has expired") && db.users == old(db.users))
              && (!Expired(u.verificationExpires, now) ==>
                    r == Ok("Email verified successfully! You can now access all features.")
                    && db.users == UpdateUser(old(db.users), u.id, Verified))
    ensures r.Ok? ==> forall i :: 0 <= i < |db.users| ==> db.users[i].verificationToken != Some(token)
    ensures r.Ok? ==> Single(db.users, VerificationHolder(token)).None?
  {
    var user := Single(db.users, VerificationHolder(token));
    if user.None? {
      return Fail(400, "Invalid or expired verification token");
    }
    var u := user.value;
    if Expired(u.verificationExpires, now) {
      return Fail(400, "Verification token has expired");
    }
    ghost var before := db.users;
    db.users := UpdateUser(db.users, u.id, Verified);
    forall i | 0 <= i < |db.users| ensures db.users[i].verificationToken != Some(token) {
      assert VerificationHolder(token)(before[i]) ==> before[i] == u;
    }
    FilterNone(db.users, VerificationHolder(token));
    r := Ok("Email verified successfully! You can now access all features.");
  }

  // ---------------------------------------------------------------------------------------
  // POST /resend-verification

  const ResendNotice := "Verification email sent! Please check your inbox."
  const AlreadyVerified := Fail(400, "Email is already verified")

  /** The new token and expiry, written to every row with the caller's id. */
  function Reissue(users: seq<User>, id: UserId, token: string, now: int): seq<User> {
    UpdateUser(users, id, (v: User) => v.(verificationToken := Some(token), verificationExpires := Some(now + VerificationTtl)))
  }

  /** After the update the handler reads the caller's full row to address the e-mail; with no
      single such row that read fails and the handler answers 500. */
  function ReissueReply(users: seq<User>, id: UserId): Reply {
    if UserById(users, id).Some? then Ok(ResendNotice) else Fail(500, "Failed to resend verification email")
  }

  /** `req.user.email_verified` as the handler reads it: the middleware's select list has no
      `email_verified`, so the property is undefined. */
  function SelectedEmailVerified(caller: Middleware.ReqUser): (v: Option<bool>)
    ensures "email_verified" !in Middleware.MiddlewareColumns
    ensures v.None?
  {
    None
  }

  /** `POST /resend-verification` as written: the already-verified guard tests the property
      of `req.user`, which is never set, so the guard never fires. Returns the reply and the
      new users table. */
  function ResendAsWritten(users: seq<User>, caller: Middleware.ReqUser, token: string, now: int): (Reply, seq<User>) {
    if SelectedEmailVerified(caller) == Some(true) then (AlreadyVerified, users)
    else (ReissueReply(users, caller.id), Reissue(users, caller.id, token, now))
  }

  /** The discrepancy: a user whose address is already verified still gets a new token, and
      the handler reports that a verification e-mail was sent. */
  lemma ResendAsWrittenReissues(users: seq<User>, u: User, token: string, now: int)
    requires UserById(users, u.id) == Some(u) && u.emailVerified
    ensures ResendAsWritten(users, Middleware.Selected(u), token, now).0 == Ok(ResendNotice)
    ensures UserById(ResendAsWritten(users, Middleware.Selected(u), token, now).1, u.id).Some?
    ensures UserById(ResendAsWritten(users, Middleware.Selected(u), token, now).1, u.id).value.verificationToken == Some(token)
  {
    var after := ResendAsWritten(users, Middleware.Selected(u), token, now).1;
    var i :| 0 <= i < |users| && users[i] == u;
    SingleAt(users, (v: User) => v.id == u.id, i);
    SingleFinds(after, (v: User) => v.id == u.id, i);
  }

  /** The outcome of resend-verification as intended: the guard reads the caller's full row. */
  function Resend(users: seq<User>, me: UserId, token: string, now: int): (out: (Reply, seq<User>))
    ensures UserById(users, me).Some? && UserById(users, me).value.emailVerified ==>
              out == (Fail(400, "Email is already verified"), users)
    ensures UserById(users, me).Some? && !UserById(users, me).value.emailVerified ==>
              out.0 == Ok(ResendNotice)
              && forall i :: 0 <= i < |out.1| && out.1[i].id == me ==>
                   out.1[i].verificationToken == Some(token) && out.1[i].verificationExpires == Some(now + VerificationTtl)
    ensures forall i :: 0 <= i < |users| && users[i].id != me ==> i < |out.1| && out.1[i] == users[i]
  {
    var full := UserById(users, me);
    if full.Some? && full.value.emailVerified then (AlreadyVerified, users)
    else (ReissueReply(users, me), Reissue(users, me, token, now))
  }

  /** The guard of the intended handler does fire for a verified user. */
  lemma ResendRefusesVerified(users: seq<User>, u: User, token: string, now: int)
    requires UserById(users, u.id) == Some(u) && u.emailVerified
    ensures Resend(users, u.id, token, now) == (Fail(400, "Email is already verified"), users)
    ensures Resend(users, u.id, token, now) != ResendAsWritten(users, Middleware.Selected(u), token, now)
  {
    ResendAsWrittenReissues(users, u, token, now);
  }

  /** `POST /resend-verification` with the intended guard. */
  method ResendVerification(db: Database, me: UserId, token: string, now: int) returns (r: Reply)
    modifies db`users
    ensures (r, db.users) == Resend(old(db.users), me, token, now)
  {
    var full := UserById(db.users, me);
    if full.Some? && full.value.emailVerified {
      return Fail(400, "Email is already verified");
    }
    r := ReissueReply(db.users, me);
    db.users := Reissue(db.users, me, token, now);
  }

  // ---------------------------------------------------------------------------------------
  // POST /forgot-password

  /** Whether the handler issues a reset token: only for a single account with that address
      that is not a Google-only account (a Google id and no password hash). */
  predicate IssuesReset(users: seq<User>, email: string) {
    ByEmail(users, email).Some?
    && !(Present(ByEmail(users, email).value.googleId) && !Present(ByEmail(users, email).value.passwordHash))
  }

  /** The update a reset request makes: a new token that expires an hour after `now`. */
  function WithReset(token: string, now: int): User -> User {
    (v: User) => v.(resetToken := Some(token), resetExpires := Some(now + ResetTtl))
  }

  /** `POST /forgot-password`. The reply is the same whatever the address; a reset token that
      expires one hour later is stored only when `IssuesReset` holds. */
  method ForgotPassword(db: Database, email: string, token: string, now: int) returns (r: Reply)
    modifies db`users
    ensures r == Ok(ResetNotice)
    ensures !IssuesReset(old(db.users), email) ==> db.users == old(db.users)
    ensures IssuesReset(old(db.users), email) ==>
              db.users == UpdateUser(old(db.users), ByEmail(old(db.users), email).value.id, WithReset(token, now))
  {
    r := Ok(ResetNotice);
    var user := ByEmail(db.users, email);
    if user.None? {
      return;
    }
    var u := user.value;
    if Present(u.googleId) && !Present(u.passwordHash) {
      return;
    }
    db.users := UpdateUser(db.users, u.id, WithReset(token, now));
  }

  /** A freshly issued reset token, written to the one row with the user's id, is what the
      reset handler's lookup finds, and it is not expired until an hour has passed. */
  lemma ResetTokenUsable(users: seq<User>, i: nat, token: string, now: int, later: int)
    requires i < |users| && forall j :: 0 <= j < |users| && j != i ==> users[j].id != users[i].id
    requires forall v :: v in users ==> v.resetToken != Some(token)
    requires later <= now + ResetTtl
    ensures var after := UpdateUser(users, users[i].id, WithReset(token, now));
            && Single(after, ResetHolder(token)) == Some(after[i])
            && after[i].id == users[i].id
            && !Expired(after[i].resetExpires, later)
  {
    var after := UpdateUser(users, users[i].id, WithReset(token, now));
    forall j | 0 <= j < |after| && j != i ensures !ResetHolder(token)(after[j]) {
      assert after[j] == users[j];
    }
    SingleFinds(after, ResetHolder(token), i);
  }

  // ---------------------------------------------------------------------------------------
  // POST /reset-password

  function WithPassword(hashed: string): User -> User {
    (v: User) => v.(passwordHash := Some(hashed), resetToken := None, resetExpires := None)
  }

  /** `POST /reset-password`. Like verification: an unknown or expired token is refused;
      otherwise the new hash is stored and the token is spent. */
  method ResetPassword(db: Database, token: string, hashed: string, now: int) returns (r: Reply)
    modifies db`users
    ensures Single(old(db.users), ResetHolder(token)).None? ==>
              r == Fail(400, "Invalid or expired reset token") && db.users == old(db.users)
    ensures Single(old(db.users), ResetHolder(token)).Some? ==>
              var u := Single(old(db.users), ResetHolder(token)).value;
              && (Expired(u.resetExpires, now) ==> r == Fail(400, "Reset token has expired") && db.users == old(db.users))
              && (!Expired(u.resetExpires, now) ==>
                    r == Ok("Password reset successfully! You can now login with your new password.")
                    && db.users == UpdateUser(old(db.users), u.id, WithPassword(hashed)))
    ensures r.Ok? ==> forall i :: 0 <= i < |db.users| ==> db.users[i].resetToken != Some(token)
    ensures r.Ok? ==> Single(db.users, ResetHolder(token)).None?
  {
    var user := Single(db.users, ResetHolder(token));
    if user.None? {
      return Fail(400, "Invalid or expired reset token");
    }
    var u := user.value;
    if Expired(u.resetExpires, now) {
      return Fail(400, "Reset token has expired");
    }
    ghost var before := db.users;
    db.users := UpdateUser(db.users, u.id, WithPassword(hashed));
    forall i | 0 <= i < |db.users| ensures db.users[i].resetToken != Some(token) {
      assert ResetHolder(token)(before[i]) ==> before[i] == u;
    }
    FilterNone(db.users, ResetHolder(token));
    r := Ok("Password reset successfully! You can now login with your new password.");
  }
}

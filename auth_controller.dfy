/** The account handlers: register, log in, verify the e-mail address, check an access token.
    Password hashing, token signing and checking are parameters: `encodedPassword` is what the
    hash of the submitted password came out as, and the checks are functions given by the caller. */
module AuthController {
  import opened Common
  import opened Errors
  import opened Strings
  import opened Collections
  import opened Models
  import opened Store

  const AllValues := "Please provide all value"
  const EmailTaken := "E-mail was taken"
  const ResendMsg := "Resend your verification in your e-mail"
  const CreatedMsg := "Created your account , Please verify your email in 15 minutes"
  const Incorrect := "E-mail or password is incorrect"
  const VerifyFirst := "Please verify your e-mail before"
  const AuthInvalid := "Authentication Invalid"

  // ---------------------------------------------------------------- register

  /** `email.split("@")[0]`. */
  function DisplayNameOf(email: string): string
  {
    Split(email, '@')[0]
  }

  /** The display name is the longest prefix of the e-mail without an "@"; for an address
      `local@domain` it is `local`. */
  lemma DisplayNameIsLocalPart(email: string)
    ensures var d := DisplayNameOf(email);
      && |d| <= |email| && email[..|d|] == d && '@' !in d
      && (|d| < |email| ==> email[|d|] == '@')
    ensures forall local, domain :: '@' !in local && email == local + "@" + domain ==> DisplayNameOf(email) == local
  {
    FirstPiece(email, '@');
    forall local, domain | '@' !in local && email == local + "@" + domain ensures DisplayNameOf(email) == local {
      SplitAtFirst(local, domain, '@');
    }
  }

  /** What `register` does about the submitted pair. */
  datatype Registration = Refused(error: ApiError) | Resend | Create

  /** The guards of `register`, in source order. */
  function RegisterDecision(users: map<Id, User>, email: string, password: string): (d: Registration)
    ensures (email == "" || password == "") ==> d == Refused(BadRequest(AllValues))
    ensures d.Refused? ==> d.error == BadRequest(AllValues) || d.error == Conflict(EmailTaken)
    ensures EmailsUnique(users) && email != "" && password != "" ==>
      && (d == Refused(Conflict(EmailTaken)) <==> exists id :: id in users && users[id].email == email && users[id].verified)
      && (d == Resend <==> exists id :: id in users && users[id].email == email && !users[id].verified)
      && (d == Create <==> forall id :: id in users ==> users[id].email != email)
  {
    if password == "" || email == "" then Refused(BadRequest(AllValues))
    else match UserByEmail(users, email)
      case Some(id) => if users[id].verified then Refused(Conflict(EmailTaken)) else Resend
      case None => Create
  }

  /** `register`: a new address gets an unverified account named after its local part; an address
      still awaiting verification gets its e-mail again and nothing is stored; a verified address
      is refused. The stored password is never replaced. */
  method Register(st: Store, email: string, password: string, encodedPassword: string)
    returns (r: Result<string>)
    requires st.Valid()
    modifies st
    ensures st.Valid()
    ensures var d := RegisterDecision(old(st.users), email, password);
      && (d.Refused? ==> r == Err(d.error) && st.Tables() == old(st.Tables()))
      && (d.Resend? ==> r == Ok(ResendMsg) && st.Tables() == old(st.Tables()))
      && (d.Create? ==>
            && r == Ok(CreatedMsg)
            && old(st.nextId) !in old(st.users)
            && st.Tables() == old(st.Tables()).(users := old(st.users)[old(st.nextId) :=
                 NewUser(email, encodedPassword, DisplayNameOf(email))]))
  {
    var d := RegisterDecision(st.users, email, password);
    match d
    case Refused(e) => r := Err(e);
    case Resend => r := Ok(ResendMsg);
    case Create =>
      var id := st.InsertUser(NewUser(email, encodedPassword, DisplayNameOf(email)));
      r := Ok(CreatedMsg);
  }

  /** Once registered, the address finds the new account, which is unverified. */
  lemma {:induction false} RegisteredIsFound(users: map<Id, User>, id: Id, email: string, encodedPassword: string)
    requires EmailsUnique(users) && id !in users
    requires forall k :: k in users ==> users[k].email != email
    ensures var after := users[id := NewUser(email, encodedPassword, DisplayNameOf(email))];
      && EmailsUnique(after)
      && UserByEmail(after, email) == Some(id)
      && !after[id].verified && after[id].password == encodedPassword
  {
    var after := users[id := NewUser(email, encodedPassword, DisplayNameOf(email))];
    assert EmailsUnique(after);
    assert id in after && after[id].email == email;
  }

  // ---------------------------------------------------------------- login

  /** What a successful `login` answers. */
  datatype LoginAnswer = LoginAnswer(accessToken: string, userId: Id, email: string, displayName: string,
                                     notifications: seq<Id>)

  /** The invitations addressed to a user, by ascending id. */
  function InvitationsTo(invitations: map<Id, Invitation>, user: Id): (ids: seq<Id>)
    ensures forall i :: i in ids <==> i in invitations && invitations[i].recipientId == user
    ensures forall i, j :: 0 <= i < j < |ids| ==> ids[i] < ids[j]
  {
    Ascending(set i | i in invitations && invitations[i].recipientId == user)
  }

  /** `login`: an unknown address and a wrong password are refused with the same message; only a
      correct password reaches the verification check. `passwordMatches` stands for `bcrypt.compare`
      and `sign` for `jwt.sign` of the access token. */
  function Login(db: Db, email: string, password: string, passwordMatches: (string, string) -> bool,
                 sign: (Id, string) -> string): (r: Result<LoginAnswer>)
    ensures r == Err(UnAuthenticated(Incorrect)) <==>
      (UserByEmail(db.users, email).None? || !passwordMatches(password, db.users[UserByEmail(db.users, email).value].password))
    ensures r == Err(UnAuthenticated(VerifyFirst)) <==>
      (UserByEmail(db.users, email).Some?
       && passwordMatches(password, db.users[UserByEmail(db.users, email).value].password)
       && !db.users[UserByEmail(db.users, email).value].verified)
    ensures r.Err? ==> r.error == UnAuthenticated(Incorrect) || r.error == UnAuthenticated(VerifyFirst)
    ensures r.Ok? ==>
      && UserByEmail(db.users, email) == Some(r.value.userId)
      && var u := db.users[r.value.userId];
      && u.email == email && u.verified && passwordMatches(password, u.password)
      && r.value.accessToken == sign(r.value.userId, email)
      && r.value.email == email && r.value.displayName == u.displayName
      && (forall i :: i in r.value.notifications <==> i in db.invitations && db.invitations[i].recipientId == r.value.userId)
      && (forall i, j :: 0 <= i < j < |r.value.notifications| ==> r.value.notifications[i] < r.value.notifications[j])
      && r.value.notifications == InvitationsTo(db.invitations, r.value.userId)
  {
    match UserByEmail(db.users, email)
    case None => Err(UnAuthenticated(Incorrect))
    case Some(id) =>
      var u := db.users[id];
      if !passwordMatches(password, u.password) then Err(UnAuthenticated(Incorrect))
      else if !u.verified then Err(UnAuthenticated(VerifyFirst))
      else Ok(LoginAnswer(sign(id, email), id, email, u.displayName, InvitationsTo(db.invitations, id)))
  }

  /** A freshly registered account cannot log in before it is verified, even with its password. */
  lemma RegisteredMustVerify(db: Db, id: Id, email: string, password: string, encodedPassword: string,
                             passwordMatches: (string, string) -> bool, sign: (Id, string) -> string)
    requires EmailsUnique(db.users) && id !in db.users
    requires forall k :: k in db.users ==> db.users[k].email != email
    requires passwordMatches(password, encodedPassword)
    ensures Login(db.(users := db.users[id := NewUser(email, encodedPassword, DisplayNameOf(email))]),
                  email, password, passwordMatches, sign)
         == Err(UnAuthenticated(VerifyFirst))
  {
    RegisteredIsFound(db.users, id, email, encodedPassword);
  }

  // ---------------------------------------------------------------- verifyEmailWithToken

  /** What `jwt.verify(token, SECRET_VERIFY_EMAIL)` makes of a token. */
  datatype TokenCheck = Decoded(email: string) | Expired | Malformed

  /** `User.update({ verified: true }, { where: { email } })`. */
  function VerifiedUsers(users: map<Id, User>, email: string): (after: map<Id, User>)
    ensures after.Keys == users.Keys
    ensures forall id :: id in users && users[id].email == email ==> after[id] == users[id].(verified := true)
    ensures forall id :: id in users && users[id].email != email ==> after[id] == users[id]
  {
    map id | id in users :: if users[id].email == email then users[id].(verified := true) else users[id]
  }

  /** The answer of `verifyEmailWithToken`, in the order of its guards. */
  function VerifyOutcome(users: map<Id, User>, token: string, check: string -> TokenCheck): (r: Result<string>)
    ensures token == "" ==> r == Err(BadRequest("Please provide a token"))
    ensures token != "" && check(token) == Expired ==> r == Err(Forbidden("Token expired"))
    ensures token != "" && check(token) == Malformed ==> r == Err(UnAuthenticated("Token is invalid"))
    ensures token != "" && check(token).Decoded? ==>
      var email := check(token).email;
      && (r == Err(BadRequest("The account was verified")) <==>
            UserByEmail(users, email).Some? && users[UserByEmail(users, email).value].verified)
      && (r.Ok? <==> !(UserByEmail(users, email).Some? && users[UserByEmail(users, email).value].verified))
      && (r.Ok? ==> r.value == "your account was verified")
  {
    if token == "" then Err(BadRequest("Please provide a token"))
    else match check(token)
      case Expired => Err(Forbidden("Token expired"))
      case Malformed => Err(UnAuthenticated("Token is invalid"))
      case Decoded(email) =>
        match UserByEmail(users, email)
        case Some(id) =>
          if users[id].verified then Err(BadRequest("The account was verified")) else Ok("your account was verified")
        case None => Ok("your account was verified")
  }

  /** Marking an address verified keeps the tables consistent. */
  lemma {:induction false} VerifiedUsersConsistent(db: Db, next: Id, email: string)
    requires Consistent(db, next)
    ensures Consistent(db.(users := VerifiedUsers(db.users, email)), next)
  {
    var after := VerifiedUsers(db.users, email);
    assert forall id :: id in after ==> after[id].email == db.users[id].email;
  }

  /** `verifyEmailWithToken`: a valid token verifies every account with its address. */
  method VerifyEmailWithToken(st: Store, token: string, check: string -> TokenCheck) returns (r: Result<string>)
    requires st.Valid()
    modifies st`users
    ensures st.Valid()
    ensures r == VerifyOutcome(old(st.users), token, check)
    ensures r.Err? ==> st.Tables() == old(st.Tables())
    ensures r.Ok? ==> st.Tables() == old(st.Tables()).(users := VerifiedUsers(old(st.users), check(token).email))
  {
    r := VerifyOutcome(st.users, token, check);
    if r.Ok? {
      VerifiedUsersConsistent(st.Tables(), st.nextId, check(token).email);
      st.users := VerifiedUsers(st.users, check(token).email);
    }
  }

  /** Verification is one-way: the same token a second time is refused, and registering the
      verified address again is a conflict. */
  lemma {:induction false} VerifiedStaysVerified(users: map<Id, User>, token: string, check: string -> TokenCheck,
                                                 password: string)
    requires EmailsUnique(users) && token != "" && check(token).Decoded?
    requires exists id :: id in users && users[id].email == check(token).email
    ensures var after := VerifiedUsers(users, check(token).email);
      && VerifyOutcome(after, token, check) == Err(BadRequest("The account was verified"))
      && (password != "" && check(token).email != "" ==>
            RegisterDecision(after, check(token).email, password) == Refused(Conflict(EmailTaken)))
  {
    var email := check(token).email;
    var after := VerifiedUsers(users, email);
    var id :| id in users && users[id].email == email;
    assert EmailsUnique(after) by {
      assert forall k :: k in after ==> after[k].email == users[k].email;
    }
    assert after[id].email == email && after[id].verified;
  }

  // ---------------------------------------------------------------- verifyAccessToken

  /** `verifyAccessToken`: the header must start with "Bearer"; its second space-separated field is
      the token, which `valid` (standing for `jwt.verify`) must accept. An absent header is "". */
  function VerifyAccessToken(header: string, valid: string -> bool): (r: Result<string>)
    ensures r.Err? ==> r.error == UnAuthenticated(AuthInvalid)
    ensures !StartsWith(header, "Bearer") ==> r.Err?
    ensures r.Ok? <==> StartsWith(header, "Bearer") && |Split(header, ' ')| >= 2 && valid(Split(header, ' ')[1])
    ensures r.Ok? ==> r.value == Split(header, ' ')[1]
  {
    if header == "" || !StartsWith(header, "Bearer") then Err(UnAuthenticated(AuthInvalid))
    else
      var parts := Split(header, ' ');
      if |parts| < 2 || !valid(parts[1]) then Err(UnAuthenticated(AuthInvalid))
      else Ok(parts[1])
  }

  /** A header `Bearer <token>` with a space-free token that `valid` accepts is let through with
      that token. */
  lemma {:induction false} BearerAccepted(token: string, valid: string -> bool)
    requires ' ' !in token && valid(token)
    ensures VerifyAccessToken("Bearer " + token, valid) == Ok(token)
  {
    var header := "Bearer " + token;
    assert header == "Bearer" + [' '] + token;
    SplitAtFirst("Bearer", token, ' ');
    SplitFree(token, ' ');
    assert header[..|"Bearer"|] == "Bearer";
  }
}

/**
 * Signing in and signing up (backend/app/api/endpoints/auth.py). The
 * request body is first checked by `UserLogin`/`UserCreate`, whose email
 * validator rejects a malformed address before the endpoint runs (FastAPI
 * answers 422). Password hashing and checking are functions given to the
 * model; the access token is modelled by the user id it carries.
 */
module AuthApi {
  import opened Common
  import opened UserSchema
  import opened Accounts

  /** The access token `create_access_token(subject=user.id)` issues. */
  datatype Token = Token(subject: int)

  /** The error the email validator produces, as the response reports it. */
  const InvalidEmail: HttpError := HttpError(422, "Invalid email format")

  /** The one refusal for every failed sign-in. */
  const BadLogin: HttpError := HttpError(401, "Incorrect email or password")

  /**
   * `login`: the normalised email's user and a matching password give a
   * token for that user. An unknown email and a wrong password are refused
   * alike. The `is_active` flag is not consulted here.
   */
  function Login(users: seq<UserRow>, rawEmail: string, password: string, verify: (string, string) -> bool)
    : (r: Result<Token>)
    ensures ValidateEmail(rawEmail).Rejected? ==> r == Err(InvalidEmail)
    ensures ValidateEmail(rawEmail).Accepted? && FindEmail(users, ValidateEmail(rawEmail).email).None? ==>
              r == Err(BadLogin)
    ensures ValidateEmail(rawEmail).Accepted? && FindEmail(users, ValidateEmail(rawEmail).email).Some?
            && !verify(password, FindEmail(users, ValidateEmail(rawEmail).email).value.passwordHash) ==>
              r == Err(BadLogin)
    ensures r.Ok? ==> ValidateEmail(rawEmail).Accepted? && FindEmail(users, ValidateEmail(rawEmail).email).Some?
                      && r.value.subject == FindEmail(users, ValidateEmail(rawEmail).email).value.id
                      && verify(password, FindEmail(users, ValidateEmail(rawEmail).email).value.passwordHash)
  {
    match ValidateEmail(rawEmail)
    case Rejected(_) => Err(InvalidEmail)
    case Accepted(email) =>
      match FindEmail(users, email)
      case None => Err(BadLogin)
      case Some(u) => if verify(password, u.passwordHash) then Ok(Token(u.id)) else Err(BadLogin)
  }

  /**
   * The token a sign-in issues for a user authenticates its holder as that
   * user, provided the account is active; an inactive account signs in but
   * every authenticated request then gets 403.
   */
  lemma TokenAuthenticates(users: seq<UserRow>, u: UserRow)
    requires UsersOrdered(users) && u in users
    ensures CurrentUser(users, Subject(u.id)) == if u.isActive then Ok(u) else Err(HttpError(403, "User is inactive"))
  {
    var k :| 0 <= k < |users| && users[k] == u;
    FindOrderedUser(users, k);
  }

  /**
   * `register`: a validated email not yet in the table gets a new active
   * account, which is a superuser exactly when the table was empty.
   */
  method Register(db: Database, rawEmail: string, password: string, hash: string -> string)
    returns (r: Result<UserRow>)
    requires db.Valid()
    modifies db
    ensures db.Valid()
    ensures ValidateEmail(rawEmail).Rejected? ==> r == Err(InvalidEmail)
    ensures ValidateEmail(rawEmail).Accepted? && FindEmail(old(db.users), ValidateEmail(rawEmail).email).Some? ==>
              r == Err(HttpError(400, "Email already registered"))
    ensures r.Ok? <==> ValidateEmail(rawEmail).Accepted? && FindEmail(old(db.users), ValidateEmail(rawEmail).email).None?
    ensures r.Ok? ==> r.value == UserRow(old(db.nextUserId), ValidateEmail(rawEmail).email, hash(password),
                                         true, old(db.users) == [])
                      && db.users == old(db.users) + [r.value] && db.nextUserId == old(db.nextUserId) + 1
                      && db.rooms == old(db.rooms) && db.memberships == old(db.memberships)
    ensures r.Err? ==> unchanged(db)
  {
    var check := ValidateEmail(rawEmail);
    if check.Rejected? {
      return Err(InvalidEmail);
    }
    if FindEmail(db.users, check.email).Some? {
      return Err(HttpError(400, "Email already registered"));
    }
    var u := UserRow(db.nextUserId, check.email, hash(password), true, db.users == []);
    AddUserKeepsValid(db.users, db.rooms, db.memberships, db.nextUserId, u);
    db.users := db.users + [u];
    db.nextUserId := db.nextUserId + 1;
    r := Ok(u);
  }
}

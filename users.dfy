/**
 * The account endpoints of the application module: registration, which adds
 * a user row, and login, which checks a password and issues an access token.
 * Password hashing and verification are the hashing library's; they are
 * passed in as the functions `hash` and `verify`.
 */
module Users {
  import opened Http
  import opened Models
  import opened Db
  import opened Auth

  /** Body of a registration request; the role defaults to "patient" and is not checked. */
  datatype RegisterRequest = RegisterRequest(email: string, password: string, fullName: string, role: string := PatientRole)

  /** Body of a login request. */
  datatype UserLogin = UserLogin(email: string, password: string)

  /** The user fields a response shows; the password hash is not one of them. */
  datatype UserSummary = UserSummary(id: Option<int>, email: string, fullName: string, role: string)

  datatype RegisterResponse = RegisterResponse(message: string, user: UserSummary)

  /** A login answer; the access token is represented by the claims it is signed over. */
  datatype LoginResponse = LoginResponse(accessToken: Claims, tokenType: string, user: UserSummary)

  const EmailAlreadyRegistered := HttpError(400, "Email already registered")
  const InvalidCredentials := HttpError(401, "Invalid email or password")
  const RegisteredMessage := "User registered successfully"

  function Summary(u: User): (s: UserSummary)
    ensures s.id == u.id && s.email == u.email && s.fullName == u.fullName && s.role == u.role
  {
    UserSummary(u.id, u.email, u.fullName, u.role)
  }

  /** The JSON value of an optional id: the number, or null. */
  function IdClaim(id: Option<int>): ClaimValue {
    match id
    case Some(n) => Number(n)
    case None => Null
  }

  /**
   * Registers a user: an email already in the table is refused with 400 and
   * nothing changes; otherwise exactly one row is added under the next id,
   * holding the hash of the password, never the password itself.
   */
  method RegisterUser(db: Database, request: RegisterRequest, hash: string -> string) returns (r: Result<RegisterResponse>)
    requires db.Valid()
    modifies db
    ensures db.Valid()
    ensures db.notes == old(db.notes) && db.nextNoteId == old(db.nextNoteId)
    ensures (exists k :: k in old(db.users) && old(db.users)[k].email == request.email) ==>
      && r == Err(EmailAlreadyRegistered)
      && db.users == old(db.users) && db.nextUserId == old(db.nextUserId)
    ensures (forall k :: k in old(db.users) ==> old(db.users)[k].email != request.email) ==>
      var id := old(db.nextUserId);
      var stored := User(Some(id), request.email, request.fullName, request.role, hash(request.password));
      && id !in old(db.users)
      && db.users == old(db.users)[id := stored]
      && db.nextUserId == id + 1
      && r == Ok(RegisterResponse(RegisteredMessage, Summary(stored)))
  {
    var existing := FindUserByEmail(db.users, request.email);
    if existing.Some? {
      return Err(EmailAlreadyRegistered);
    }
    var id := db.nextUserId;
    var newUser := NewUser(request.email, request.fullName, hash(request.password), request.role);
    var stored := newUser.(id := Some(id));
    db.users := db.users[id := stored];
    db.nextUserId := id + 1;
    r := Ok(RegisterResponse(RegisteredMessage, Summary(stored)));
  }

  /** The claims of the token issued to `u` at `now`: subject, id, role and a one-day expiry. */
  ghost predicate IssuedTo(response: LoginResponse, u: User, now: int) {
    && response.tokenType == "bearer"
    && response.user == Summary(u)
    && response.accessToken == map[
         "sub" := Text(u.email),
         "user_id" := IdClaim(u.id),
         "role" := Text(u.role),
         "exp" := Number(now + 1440 * 60)]
  }

  /**
   * Logs a user in. An unknown email and a wrong password give the same 401
   * answer; on success the token names the user by email, id and role.
   */
  function Login(users: map<int, User>, request: UserLogin, verify: (string, string) -> bool, now: int): (r: Result<LoginResponse>)
    ensures r.Err? ==> r.error == InvalidCredentials
    ensures r.Ok? ==>
      exists k :: && k in users && users[k].email == request.email
                  && verify(request.password, users[k].hashedPassword)
                  && IssuedTo(r.value, users[k], now)
    ensures (forall k :: k in users ==> users[k].email != request.email) ==> r.Err?
    ensures EmailsUnique(users) ==>
      (r.Ok? <==> exists k :: && k in users && users[k].email == request.email
                              && verify(request.password, users[k].hashedPassword))
  {
    match FindUserByEmail(users, request.email)
    case None => Err(InvalidCredentials)
    case Some(k) =>
      var user := users[k];
      if !verify(request.password, user.hashedPassword) then Err(InvalidCredentials)
      else
        var claims := map["sub" := Text(user.email), "user_id" := IdClaim(user.id), "role" := Text(user.role)];
        Ok(LoginResponse(CreateAccessToken(claims, now), "bearer", Summary(user)))
  }

  /**
   * A token issued at login, once decoded, authenticates the very user who
   * logged in, with the role stored for that user.
   */
  lemma LoginTokenAuthenticatesUser(users: map<int, User>, request: UserLogin, verify: (string, string) -> bool, now: int)
    requires EmailsUnique(users)
    requires Login(users, request, verify, now).Ok?
    ensures var response := Login(users, request, verify, now).value;
      var current := GetCurrentUser(Payload(response.accessToken), users);
      current.Ok? && current.value.email == request.email && Summary(current.value) == response.user
  {
    var response := Login(users, request, verify, now).value;
    var k :| && k in users && users[k].email == request.email
             && verify(request.password, users[k].hashedPassword)
             && IssuedTo(response, users[k], now);
    assert response.accessToken["sub"] == Text(request.email);
    var found := FindUserByEmail(users, request.email);
    assert found == Some(k);
  }
}

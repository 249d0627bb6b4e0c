/** The account routes `POST /create-user` and `POST /login`. The login
    decision is shared by the router and by the server's own copy, which
    differ only in the token's lifetime. */
module AuthRoutes {
  import opened Wrappers
  import opened JsText
  import opened AdminAccounts

  /** The token lifetime the router passes to `jwt.sign`. */
  const RouterExpiry := "10min"

  const FieldsRequired := "Username and password are required"
  const InvalidCredentials := "Invalid credentials"

  // ---- POST /create-user ----

  datatype CreateUserBody = CreateUserBody(username: Option<string>, password: Option<string>, email: Option<string>)

  /** The columns `RETURNING id, username, email, role`. */
  datatype UserRecord = UserRecord(id: nat, username: string, email: Option<string>, role: string)

  datatype Created = Created(success: bool, message: string, user: UserRecord)

  /** The reply for the insert's outcome: 201 with the new row, 409 for a
      unique violation, and any other error thrown on. */
  function CreateReply(r: Inserted): (o: Outcome<Created>)
    ensures r.Stored? ==> o == Replied(Ok(201, Created(true, "Admin user created successfully",
                                UserRecord(r.row.id, r.row.username, r.row.email, r.row.role))))
    ensures r == Raised(UniqueViolation) <==> o == Replied(Fail(409, "Username already exists"))
    ensures o.Threw? <==> r.Raised? && r.error != UniqueViolation
    ensures o.Threw? ==> o.cause == r.error
  {
    match r
    case Stored(a) => Replied(Ok(201, Created(true, "Admin user created successfully",
                                              UserRecord(a.id, a.username, a.email, a.role))))
    case Raised(e) => if e == UniqueViolation then Replied(Fail(409, "Username already exists")) else Threw(e)
  }

  /** The route: 400 and no insert without a username and a password;
      otherwise the password is hashed and one insert is tried, storing the
      hash (never the password), role `'admin'` and the e-mail or NULL.
      `fault` is an error the database raises on its own (a lost
      connection), before the table is touched. */
  method CreateUser(t: AdminTable, b: CreateUserBody, crypto: Crypto, salt: nat, now: int, fault: Option<StoreFault>)
    returns (o: Outcome<Created>)
    requires t.Valid()
    modifies t
    ensures t.Valid()
    ensures !Truthy(b.username) || !Truthy(b.password) ==>
      o == Replied(Fail(400, FieldsRequired)) && t.rows == old(t.rows) && t.nextId == old(t.nextId)
    ensures Truthy(b.username) && Truthy(b.password) && fault.Some? ==>
      o == CreateReply(Raised(fault.value)) && t.rows == old(t.rows) && t.nextId == old(t.nextId)
    ensures Truthy(b.username) && Truthy(b.password) && fault.None? ==>
      var row := Admin(old(t.nextId), b.username.value, crypto.hash(b.password.value, salt), OrNull(b.email), "admin", now);
      var step := AddUser(old(t.rows), row);
      t.rows == step.0 && o == CreateReply(step.1)
  {
    if !Truthy(b.username) || !Truthy(b.password) {
      return Replied(Fail(400, FieldsRequired));
    }
    var hashed := crypto.hash(b.password.value, salt);
    if fault.Some? {
      return CreateReply(Raised(fault.value));
    }
    var r := t.Insert(b.username.value, hashed, OrNull(b.email), "admin", now);
    o := CreateReply(r);
  }

  // ---- POST /login ----

  datatype LoginBody = LoginBody(username: Option<string>, password: Option<string>)

  /** The profile the login returns: no password hash. */
  datatype Profile = Profile(id: nat, username: string, email: Option<string>, role: string)

  datatype LoggedIn = LoggedIn(success: bool, token: string, admin: Profile)

  /** The password check: the hash comparison's answer, or, when the
      comparison throws, plain equality with the stored value. */
  predicate PasswordAccepted(c: Comparison, stored: string, supplied: string) {
    c == Answer(true) || (c == CompareThrew && stored == supplied)
  }

  /** `let isValidPassword = false`, then the `try`/`catch`. */
  method CheckPassword(crypto: Crypto, supplied: string, stored: string) returns (isValid: bool)
    ensures isValid <==> crypto.compare(supplied, stored) == Answer(true)
                         || (crypto.compare(supplied, stored) == CompareThrew && stored == supplied)
  {
    isValid := false;
    var c := crypto.compare(supplied, stored);
    match c
    case Answer(same) =>
      isValid := same;
    case CompareThrew =>
      if stored == supplied {
        isValid := true;
      }
  }

  /** The reply for the row the username found. */
  function Authenticate(a: Admin, password: string, crypto: Crypto, secret: string, expiresIn: string, now: int): Reply<LoggedIn>
  {
    if !PasswordAccepted(crypto.compare(password, a.passwordHash), a.passwordHash, password) then
      Fail(401, InvalidCredentials)
    else
      Ok(200, LoggedIn(true, crypto.sign(Claims(a.id, a.username, a.role), secret, expiresIn, now),
                       Profile(a.id, a.username, a.email, a.role)))
  }

  /** The login decision over the admin rows. */
  function LoginReply(rows: seq<Admin>, b: LoginBody, crypto: Crypto, secret: string, expiresIn: string, now: int): Outcome<LoggedIn>
  {
    if !Truthy(b.username) || !Truthy(b.password) then Replied(Fail(400, FieldsRequired))
    else
      match FindUser(rows, b.username.value)
      case None => Replied(Fail(401, InvalidCredentials))
      case Some(a) => Replied(Authenticate(a, b.password.value, crypto, secret, expiresIn, now))
  }

  /** The login handler: one lookup, then the password check step by step.
      A failing database fails the lookup and so the handler. */
  method Login(t: AdminTable, b: LoginBody, crypto: Crypto, secret: string, expiresIn: string, now: int,
               fault: Option<StoreFault>)
    returns (o: Outcome<LoggedIn>)
    ensures Truthy(b.username) && Truthy(b.password) && fault.Some? ==> o == Threw(fault.value)
    ensures !Truthy(b.username) || !Truthy(b.password) || fault.None? ==>
      o == LoginReply(t.rows, b, crypto, secret, expiresIn, now)
  {
    if !Truthy(b.username) || !Truthy(b.password) {
      return Replied(Fail(400, FieldsRequired));
    }
    if fault.Some? {
      return Threw(fault.value);
    }
    var found := t.Lookup(b.username.value);
    if found.None? {
      return Replied(Fail(401, InvalidCredentials));
    }
    var admin := found.value;
    var isValid := CheckPassword(crypto, b.password.value, admin.passwordHash);
    if !isValid {
      return Replied(Fail(401, InvalidCredentials));
    }
    var token := crypto.sign(Claims(admin.id, admin.username, admin.role), secret, expiresIn, now);
    o := Replied(Ok(200, LoggedIn(true, token, Profile(admin.id, admin.username, admin.email, admin.role))));
  }

  /** Without a username or a password the answer is 400 whatever the table
      holds: the table is not consulted. */
  lemma LoginNeedsBothFields(rows: seq<Admin>, other: seq<Admin>, b: LoginBody, crypto: Crypto, secret: string, expiresIn: string, now: int)
    requires !Truthy(b.username) || !Truthy(b.password)
    ensures LoginReply(rows, b, crypto, secret, expiresIn, now) == Replied(Fail(400, FieldsRequired))
    ensures LoginReply(rows, b, crypto, secret, expiresIn, now) == LoginReply(other, b, crypto, secret, expiresIn, now)
  {
  }

  /** An unknown username and a wrong password are told apart by nothing:
      both give 401 with the same body, and those are the only 401s. */
  lemma LoginFailuresAlike(rows: seq<Admin>, b: LoginBody, crypto: Crypto, secret: string, expiresIn: string, now: int)
    requires Truthy(b.username) && Truthy(b.password)
    ensures var o := LoginReply(rows, b, crypto, secret, expiresIn, now);
      var found := FindUser(rows, b.username.value);
      (o == Replied(Fail(401, InvalidCredentials))) <==>
        (found.None? || !PasswordAccepted(crypto.compare(b.password.value, found.value.passwordHash),
                                           found.value.passwordHash, b.password.value))
    ensures var o := LoginReply(rows, b, crypto, secret, expiresIn, now);
      o.Replied? && (o.reply.Fail? ==> o.reply == Fail(401, InvalidCredentials))
  {
  }

  /** A successful login signs exactly the id, username and role of the row
      found, with the given lifetime, and returns its id, username, e-mail
      and role. */
  lemma LoginSuccess(rows: seq<Admin>, b: LoginBody, crypto: Crypto, secret: string, expiresIn: string, now: int)
    requires LoginReply(rows, b, crypto, secret, expiresIn, now).Replied?
    requires LoginReply(rows, b, crypto, secret, expiresIn, now).reply.Ok?
    ensures Truthy(b.username) && Truthy(b.password) && FindUser(rows, b.username.value).Some?
    ensures var a := FindUser(rows, b.username.value).value;
      var r := LoginReply(rows, b, crypto, secret, expiresIn, now).reply;
      && PasswordAccepted(crypto.compare(b.password.value, a.passwordHash), a.passwordHash, b.password.value)
      && r.code == 200
      && r.body == LoggedIn(true, crypto.sign(Claims(a.id, a.username, a.role), secret, expiresIn, now),
                           Profile(a.id, a.username, a.email, a.role))
  {
  }

  /** The stored hash reaches the reply only through the verdict of the
      check: two rows that differ only in the hash, both accepting the
      password, give the same reply. */
  lemma ReplyHidesHash(a: Admin, h: string, password: string, crypto: Crypto, secret: string, expiresIn: string, now: int)
    requires PasswordAccepted(crypto.compare(password, a.passwordHash), a.passwordHash, password)
    requires PasswordAccepted(crypto.compare(password, h), h, password)
    ensures Authenticate(a, password, crypto, secret, expiresIn, now)
         == Authenticate(a.(passwordHash := h), password, crypto, secret, expiresIn, now)
    ensures Authenticate(a, password, crypto, secret, expiresIn, now).Ok?
  {
  }

  /** The plain-text fallback: a stored value that makes the comparison
      throw lets in exactly the password equal to it. */
  lemma PlainTextFallback(a: Admin, password: string, crypto: Crypto, secret: string, expiresIn: string, now: int)
    requires crypto.compare(password, a.passwordHash) == CompareThrew
    ensures Authenticate(a, password, crypto, secret, expiresIn, now).Ok? <==> a.passwordHash == password
  {
  }
}

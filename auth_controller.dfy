/** `controllers/AuthController.js`: registration and login. */
module AuthController {
  import opened Wrappers
  import opened Text
  import opened Json
  import opened Joi
  import opened Primitives
  import opened UserModel
  import Response
  import AuthValidation

  /** The `data` of a successful signup. */
  function SignupData(token: string, u: User): Json {
    JObj(map["token" := JStr(token), "username" := JStr(u.username), "email" := JStr(u.email)])
  }

  /**
   * `signup`: validation (400, first detail), then white space stripped from the username, then
   * the email taken (403), then the username taken (403), then the save (400 when it fails). A
   * request that gets through adds exactly one user, whose password is the hash of the trimmed
   * password, and is answered 201 with a token for that user. Every refusal leaves the store as
   * it was.
   */
  method Signup(store: UserStore, body: Body, lib: Lib) returns (reply: Reply)
    requires store.Valid()
    modifies store
    ensures store.Valid()
    ensures var v := AuthValidation.ValidateSignup(body, lib.isEmail);
      && (v.Some? ==>
            reply == Response.Error(400, lib.message(v.value))
            && store.users == old(store.users) && store.nextId == old(store.nextId))
      && (v.None? ==>
            var name := Normalize(StripSpace(body["username"]));
            var email := Normalize(body["email"]);
            var password := Trim(body["password"]);
            && name == Normalize(body["username"])
            && (ByEmail(old(store.users), email).Some? ==>
                  reply == Response.Error(403, "Email already in use.")
                  && store.users == old(store.users) && store.nextId == old(store.nextId))
            && (ByEmail(old(store.users), email).None? && ByUsername(old(store.users), name).Some? ==>
                  reply == Response.Error(403, "User already taken.")
                  && store.users == old(store.users) && store.nextId == old(store.nextId))
            && (ByEmail(old(store.users), email).None? && ByUsername(old(store.users), name).None?
                && !UserStorable(name, email, password) ==>
                  reply == Response.Error(400, "An error occured.")
                  && store.users == old(store.users) && store.nextId == old(store.nextId))
            && (ByEmail(old(store.users), email).None? && ByUsername(old(store.users), name).None?
                && UserStorable(name, email, password) ==>
                  var u := NewUser(old(store.nextId), name, email, lib.hash(password));
                  && old(store.nextId) !in old(store.users)
                  && store.users == old(store.users)[old(store.nextId) := u]
                  && store.nextId == old(store.nextId) + 1
                  && reply == Response.Success(201, SignupData(GenerateToken(u, lib), u), "Account created!")))
  {
    var v := AuthValidation.ValidateSignup(body, lib.isEmail);
    if v.Some? {
      return Response.Error(400, lib.message(v.value));
    }
    AuthValidation.AcceptedUsernameHasNoSpace(body, lib.isEmail);
    var username := StripSpace(body["username"]);
    var doc := new UserDocument(username, body["email"], body["password"]);
    var byEmail := store.FindByEmail(Normalize(body["email"]));
    if byEmail.Some? {
      return Response.Error(403, "Email already in use.");
    }
    var byName := store.FindByUsername(Normalize(username));
    if byName.Some? {
      return Response.Error(403, "User already taken.");
    }
    var saved := store.Save(doc, lib);
    if saved.Failure? {
      return Response.Error(400, "An error occured.");
    }
    var token := GenerateToken(saved.value, lib);
    reply := Response.Success(201, SignupData(token, saved.value), "Account created!");
  }

  /** The `data` of a successful login. */
  function LoginData(token: string, id: ObjectId): Json {
    JObj(map["token" := JStr(token), "user_id" := JId(id)])
  }

  /**
   * `login`: a read-only lookup by the normalised username and a password check. It answers 200
   * only to a valid body naming a stored user whose hash the password matches, and otherwise 400,
   * 404 or 403.
   */
  ghost function Login(users: Users, body: Body, lib: Lib): (r: Reply)
    ensures r.status in {200, 400, 403, 404}
    ensures r.status == 200 ==>
              && AuthValidation.ValidateLogin(body, lib.isEmail).None?
              && exists k :: k in users && users[k].username == Normalize(body["username"])
                             && ComparePassword(users[k], body["password"], lib)
  {
    match AuthValidation.ValidateLogin(body, lib.isEmail)
    case Some(d) => Response.Error(400, lib.message(d))
    case None =>
      match ByUsername(users, Normalize(body["username"]))
      case None => Response.Error(404, "User not found.")
      case Some(k) =>
        if !ComparePassword(users[k], body["password"], lib) then Response.Error(403, "Wrong password")
        else Response.Success(200, LoginData(GenerateToken(users[k], lib), k), "welcome " + users[k].username)
  }

  /**
   * The login ladder read against the store: validation first (400), then an unknown
   * username (404), then a wrong password (403), and otherwise 200 with a token for the user
   * found and a greeting with its stored name.
   */
  lemma LoginLadder(users: Users, nextId: ObjectId, body: Body, lib: Lib)
    requires UsersInv(users, nextId)
    ensures var v := AuthValidation.ValidateLogin(body, lib.isEmail);
      && (v.Some? ==> Login(users, body, lib) == Response.Error(400, lib.message(v.value)))
      && (v.None? && (forall k :: k in users ==> users[k].username != Normalize(body["username"])) ==>
            Login(users, body, lib) == Response.Error(404, "User not found."))
      && (v.None? ==> forall k :: k in users && users[k].username == Normalize(body["username"]) ==>
            && (!lib.compare(body["password"], users[k].password) ==>
                  Login(users, body, lib) == Response.Error(403, "Wrong password"))
            && (lib.compare(body["password"], users[k].password) ==>
                  Login(users, body, lib) ==
                    Response.Success(200, LoginData(GenerateToken(users[k], lib), k), "welcome " + users[k].username)))
  {
    var v := AuthValidation.ValidateLogin(body, lib.isEmail);
    if v.None? {
      forall k | k in users && users[k].username == Normalize(body["username"])
        ensures ByUsername(users, Normalize(body["username"])) == Some(k)
      {
        ByUsernameIsTheOne(users, Normalize(body["username"]), k);
      }
    }
  }

  /** Alphanumeric text has no white space, so trimming it changes nothing. */
  lemma AlnumIsTrimmed(s: string)
    requires IsAlnumString(s)
    ensures IsTrimmed(s) && Trim(s) == s
  {
    if s != [] {
      assert IsAlnum(s[0]) && IsAlnum(s[|s| - 1]);
    }
  }

  /**
   * With sound bcrypt and jsonwebtoken, a user stored by signup logs in with the same
   * credentials: the reply is 200, greets the stored name, and carries a token that verifies to
   * the user's id.
   */
  lemma SignupThenLogin(users: Users, nextId: ObjectId, k: ObjectId, body: Body, lib: Lib)
    requires UsersInv(users, nextId) && BcryptSound(lib) && JwtSound(lib)
    requires AuthValidation.ValidateLogin(body, lib.isEmail).None?
    requires k in users && users[k].username == Normalize(body["username"])
    requires users[k].password == lib.hash(Trim(body["password"]))
    ensures Login(users, body, lib) ==
              Response.Success(200, LoginData(GenerateToken(users[k], lib), k), "welcome " + users[k].username)
    ensures lib.verify(GenerateToken(users[k], lib)) == Some(k)
  {
    AuthValidation.LoginAcceptsExactly(body, lib.isEmail);
    AlnumIsTrimmed(body["password"]);
    AlnumUtf8Length(body["password"]);
    assert ComparePassword(users[k], body["password"], lib);
    LoginLadder(users, nextId, body, lib);
  }

  /**
   * With a sound bcrypt, any password other than the one signed up with is refused with 403. Both
   * passwords are alphanumeric and at most 30 characters long, so bcrypt reads each of them in full.
   */
  lemma LoginWrongPassword(users: Users, nextId: ObjectId, k: ObjectId, body: Body, q: string, lib: Lib)
    requires UsersInv(users, nextId) && BcryptSound(lib)
    requires AuthValidation.ValidateLogin(body, lib.isEmail).None?
    requires k in users && users[k].username == Normalize(body["username"])
    requires AuthValidation.PasswordOk(q) && users[k].password == lib.hash(q) && body["password"] != q
    ensures Login(users, body, lib) == Response.Error(403, "Wrong password")
  {
    AuthValidation.LoginAcceptsExactly(body, lib.isEmail);
    AlnumUtf8Length(body["password"]);
    AlnumUtf8Length(q);
    assert !ComparePassword(users[k], body["password"], lib);
    LoginLadder(users, nextId, body, lib);
  }
}

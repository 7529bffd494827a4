/**
 * `controllers/user.js`: the older user handlers. They write their envelopes by hand, validate
 * with `validateUser`, and differ from the newer controllers in status codes and in what they check.
 */
module LegacyUserController {
  import opened Wrappers
  import opened Text
  import opened Json
  import opened Joi
  import opened Primitives
  import opened UserModel
  import Response

  function SignupData(token: string, u: User): Json {
    JObj(map["token" := JStr(token), "username" := JStr(u.username), "email" := JStr(u.email)])
  }

  /**
   * `signup`: validation (400), then the email taken, then the username taken, both 400 `User
   * already registered.`, then the save (400 when it fails); the username is used as sent, with
   * no white space stripped. A request that gets through stores exactly one user and is answered
   * 201 with a token for it.
   */
  method Signup(store: UserStore, body: Body, lib: Lib) returns (reply: Reply)
    requires store.Valid()
    modifies store
    ensures store.Valid()
    ensures var v := ValidateUser(body, lib.isEmail);
      && (v.Some? ==>
            reply == Response.Refusal(400, lib.message(v.value))
            && store.users == old(store.users) && store.nextId == old(store.nextId))
      && (v.None? ==>
            var name := Normalize(body["username"]);
            var email := Normalize(body["email"]);
            var password := Trim(body["password"]);
            && (ByEmail(old(store.users), email).Some? || ByUsername(old(store.users), name).Some? ==>
                  reply == Response.Refusal(400, "User already registered.")
                  && store.users == old(store.users) && store.nextId == old(store.nextId))
            && (ByEmail(old(store.users), email).None? && ByUsername(old(store.users), name).None?
                && !UserStorable(name, email, password) ==>
                  reply == Response.Refusal(400, "an error occured")
                  && store.users == old(store.users) && store.nextId == old(store.nextId))
            && (ByEmail(old(store.users), email).None? && ByUsername(old(store.users), name).None?
                && UserStorable(name, email, password) ==>
                  var u := NewUser(old(store.nextId), name, email, lib.hash(password));
                  && old(store.nextId) !in old(store.users)
                  && store.users == old(store.users)[old(store.nextId) := u]
                  && store.nextId == old(store.nextId) + 1
                  && reply == Response.Found(201, SignupData(GenerateToken(u, lib), u))))
  {
    var v := ValidateUser(body, lib.isEmail);
    if v.Some? {
      return Response.Refusal(400, lib.message(v.value));
    }
    var doc := new UserDocument(body["username"], body["email"], body["password"]);
    var byEmail := store.FindByEmail(Normalize(body["email"]));
    if byEmail.Some? {
      return Response.Refusal(400, "User already registered.");
    }
    var byName := store.FindByUsername(Normalize(body["username"]));
    if byName.Some? {
      return Response.Refusal(400, "User already registered.");
    }
    var saved := store.Save(doc, lib);
    if saved.Failure? {
      return Response.Refusal(400, "an error occured");
    }
    var token := GenerateToken(saved.value, lib);
    reply := Response.Found(201, SignupData(token, saved.value));
  }

  /** `!username || !password`: a field that is missing or empty. */
  predicate Blank(body: Body, key: string) {
    key !in body || body[key] == ""
  }

  /** The 200 reply of a login: the greeting and the token sit beside `status`, with no `data`. */
  function Welcome(u: User, lib: Lib): Reply {
    Reply(200, JObj(map["status" := JStr("success"), "message" := JStr("welcome " + u.username),
                        "token" := JStr(GenerateToken(u, lib))]))
  }

  /**
   * `login`: blank fields first, then the lookup, then the password check; read-only. It answers
   * 200 only when neither field is blank and a stored user with that name matches the password,
   * and otherwise 422 or 400.
   */
  ghost function Login(users: Users, body: Body, lib: Lib): (r: Reply)
    ensures r.status in {200, 400, 422}
    ensures r.status == 200 ==>
              && !Blank(body, "username") && !Blank(body, "password")
              && exists k :: k in users && users[k].username == Normalize(body["username"])
                             && ComparePassword(users[k], body["password"], lib)
  {
    if Blank(body, "username") || Blank(body, "password") then Response.Refusal(422, "Fields cannot be blank")
    else
      match ByUsername(users, Normalize(body["username"]))
      case None => Reply(400, JObj(map["message" := JStr("User not found.")]))
      case Some(k) =>
        if !ComparePassword(users[k], body["password"], lib) then Response.Refusal(422, "Wrong password")
        else Welcome(users[k], lib)
  }

  /**
   * The legacy login ladder read against the store: a blank field is 422 before any lookup, an
   * unknown user 400, a wrong password 422, and otherwise 200 with the greeting and token.
   */
  lemma LoginLadder(users: Users, nextId: ObjectId, body: Body, lib: Lib)
    requires UsersInv(users, nextId)
    ensures Blank(body, "username") || Blank(body, "password") ==>
              Login(users, body, lib) == Response.Refusal(422, "Fields cannot be blank")
    ensures !Blank(body, "username") && !Blank(body, "password") ==>
              && ((forall k :: k in users ==> users[k].username != Normalize(body["username"])) ==>
                    Login(users, body, lib) == Reply(400, JObj(map["message" := JStr("User not found.")])))
              && (forall k :: k in users && users[k].username == Normalize(body["username"]) ==>
                    && (!lib.compare(body["password"], users[k].password) ==>
                          Login(users, body, lib) == Response.Refusal(422, "Wrong password"))
                    && (lib.compare(body["password"], users[k].password) ==>
                          Login(users, body, lib) == Welcome(users[k], lib)))
  {
    if !Blank(body, "username") && !Blank(body, "password") {
      forall k | k in users && users[k].username == Normalize(body["username"])
        ensures ByUsername(users, Normalize(body["username"])) == Some(k)
      {
        ByUsernameIsTheOne(users, Normalize(body["username"]), k);
      }
    }
  }

  /**
   * `validateUser` puts no character rule on the password, and the schema trims it before the
   * hash. So with a sound bcrypt, a password of at most 72 bytes sent with white space at its ends
   * is accepted at signup and then refused at login when sent again exactly as at signup.
   */
  lemma PaddedPasswordRefusedAtLogin(users: Users, nextId: ObjectId, k: ObjectId, body: Body, lib: Lib)
    requires UsersInv(users, nextId) && BcryptSound(lib)
    requires !Blank(body, "username") && !Blank(body, "password")
    requires k in users && users[k].username == Normalize(body["username"])
    requires users[k].password == lib.hash(Trim(body["password"]))
    requires !IsTrimmed(body["password"]) && Utf8Length(body["password"]) <= BcryptMaxBytes
    ensures Login(users, body, lib) == Response.Refusal(422, "Wrong password")
  {
    TrimUtf8Length(body["password"]);
    assert !ComparePassword(users[k], body["password"], lib);
    LoginLadder(users, nextId, body, lib);
  }

  /** Such a password does get through `validateUser`: `" secret "` is within its bounds. */
  lemma PaddedPasswordPassesValidation(isEmail: string -> bool)
    requires isEmail("a@b.co")
    ensures ValidateUser(map["username" := "ada", "email" := "a@b.co", "password" := " secret "], isEmail).None?
    ensures !IsTrimmed(" secret ")
  {
    ValidateUserAcceptsExactly(map["username" := "ada", "email" := "a@b.co", "password" := " secret "], isEmail);
  }

  /**
   * `profile`: with no such user the code reads a field of `null`, and the catch answers 400; so
   * the reply is 200 exactly when some user holds the normalised name, and 400 otherwise.
   */
  ghost function Profile(users: Users, username: string): (r: Reply)
    ensures r.status == 200 <==> exists k :: k in users && users[k].username == Normalize(username)
    ensures r.status != 200 ==> r == Response.Refusal(400, "an error occured")
  {
    match ByUsername(users, Normalize(username))
    case None => Response.Refusal(400, "an error occured")
    case Some(k) => Response.Found(200, PublicFields(users[k]))
  }

  /** A stored user's profile is served under its normalised name; an unknown name is 400, not 404. */
  lemma ProfileLookup(users: Users, nextId: ObjectId, username: string)
    requires UsersInv(users, nextId)
    ensures (forall k :: k in users ==> users[k].username != Normalize(username)) ==>
              Profile(users, username) == Response.Refusal(400, "an error occured")
    ensures forall k :: k in users && users[k].username == Normalize(username) ==>
              Profile(users, username) == Response.Found(200, PublicFields(users[k]))
  {
    forall k | k in users && users[k].username == Normalize(username)
      ensures ByUsername(users, Normalize(username)) == Some(k)
    {
      ByUsernameIsTheOne(users, Normalize(username), k);
    }
  }

  /**
   * `editProfile`: no validation and no ownership check; the user named by the route id gets the
   * body's username, email and bio. A missing user is 404; a unique-index clash is 400.
   */
  method EditProfile(store: UserStore, id: ObjectId, body: Body) returns (reply: Reply)
    requires store.Valid()
    modifies store
    ensures store.Valid() && store.nextId == old(store.nextId)
    ensures id !in old(store.users) ==>
              reply == Response.Refusal(404, "User with given id not found!") && store.users == old(store.users)
    ensures id in old(store.users) ==>
              var u := ApplyProfile(old(store.users)[id], body);
              && (UpdateClashes(old(store.users), id, u) ==>
                    reply == Response.Refusal(400, "an error occured") && store.users == old(store.users))
              && (!UpdateClashes(old(store.users), id, u) ==>
                    reply == Response.Found(200, PublicFields(u)) && store.users == old(store.users)[id := u])
  {
    if id !in store.users {
      return Response.Refusal(404, "User with given id not found!");
    }
    var u := ApplyProfile(store.users[id], body);
    if exists k :: k in store.users && k != id
                   && (store.users[k].username == u.username || store.users[k].email == u.email) {
      return Response.Refusal(400, "an error occured");
    }
    ApplyProfileKeepsInv(store.users, store.nextId, id, body);
    store.users := store.users[id := u];
    reply := Response.Found(200, PublicFields(u));
  }
}

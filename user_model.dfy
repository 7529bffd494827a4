/**
 * `models/User.js`: the User record, the collection of users with its unique indexes, a document
 * being saved (the `trim`/`lowercase` setters and the pre-save hash hook), `comparePassword`,
 * `generateToken` and the `validateUser` schema.
 */
module UserModel {
  import opened Wrappers
  import opened Text
  import opened Json
  import opened Joi
  import opened Primitives
  import opened MongoOps

  /**
   * A stored user. `password` holds the bcrypt hash. `following` and `followers` are the arrays
   * the follow handlers update.
   */
  datatype User = User(
    id: ObjectId,
    username: string,
    email: string,
    password: string,
    bio: Option<string>,
    favourites: seq<ObjectId>,
    myArticles: seq<ObjectId>,
    following: seq<ObjectId>,
    followers: seq<ObjectId>)

  type Users = map<ObjectId, User>

  /** Every user is stored under its own id, and ids below `nextId` have been handed out. */
  ghost predicate Keyed(users: Users, nextId: ObjectId) {
    forall a :: a in users ==> users[a].id == a && a < nextId
  }

  /** The `unique: true` indexes on `username` and `email`. */
  ghost predicate Unique(users: Users) {
    && (forall a, b :: a in users && b in users && users[a].username == users[b].username ==> a == b)
    && (forall a, b :: a in users && b in users && users[a].email == users[b].email ==> a == b)
  }

  /** `trim: true, lowercase: true`: stored usernames and emails are in normal form. */
  ghost predicate Normalized(users: Users) {
    forall a :: a in users ==> IsNormal(users[a].username) && IsNormal(users[a].email)
  }

  /** The follow arrays behave as sets. */
  ghost predicate SetLike(users: Users) {
    forall a :: a in users ==> NoDup(users[a].following) && NoDup(users[a].followers)
  }

  /** Follow edges are mirrored: `b` is in `a.following` exactly when `a` is in `b.followers`. */
  ghost predicate Mirrored(users: Users) {
    && (forall a, b :: a in users && b in users[a].following ==> b in users && a in users[b].followers)
    && (forall a, b :: a in users && b in users[a].followers ==> b in users && a in users[b].following)
  }

  /** Nobody follows themselves. */
  ghost predicate NoSelfFollow(users: Users) {
    forall a :: a in users ==> a !in users[a].following
  }

  ghost predicate UsersInv(users: Users, nextId: ObjectId) {
    Keyed(users, nextId) && Unique(users) && Normalized(users) && SetLike(users) && Mirrored(users)
    && NoSelfFollow(users)
  }

  /** `User.findOne({ username })`; the filter value goes through the same setters as the field. */
  ghost function ByUsername(users: Users, name: string): (r: Option<ObjectId>)
    ensures r.Some? ==> r.value in users && users[r.value].username == name
    ensures r.None? <==> forall k :: k in users ==> users[k].username != name
  {
    if exists k :: k in users && users[k].username == name
    then Some(var k :| k in users && users[k].username == name; k)
    else None
  }

  /** `User.findOne({ email })`. */
  ghost function ByEmail(users: Users, email: string): (r: Option<ObjectId>)
    ensures r.Some? ==> r.value in users && users[r.value].email == email
    ensures r.None? <==> forall k :: k in users ==> users[k].email != email
  {
    if exists k :: k in users && users[k].email == email
    then Some(var k :| k in users && users[k].email == email; k)
    else None
  }

  /** Under the unique index, the lookup finds the one user with that name. */
  lemma ByUsernameIsTheOne(users: Users, name: string, k: ObjectId)
    requires Unique(users) && k in users && users[k].username == name
    ensures ByUsername(users, name) == Some(k)
  {
  }

  /** Under the unique index, the lookup finds the one user with that email. */
  lemma ByEmailIsTheOne(users: Users, email: string, k: ObjectId)
    requires Unique(users) && k in users && users[k].email == email
    ensures ByEmail(users, email) == Some(k)
  {
  }

  /** The `required` validators, run on the values the setters produced. */
  predicate UserStorable(username: string, email: string, password: string) {
    username != "" && email != "" && password != ""
  }

  /** Whether a unique index already holds `username` or `email`. */
  ghost predicate Clashes(users: Users, username: string, email: string) {
    exists k :: k in users && (users[k].username == username || users[k].email == email)
  }

  /** The record a first save of a new document writes; the arrays start empty. */
  function NewUser(id: ObjectId, username: string, email: string, hash: string): User {
    User(id, username, email, hash, None, [], [], [], [])
  }

  /** Inserting a fresh, non-clashing, normalised user with empty arrays keeps the invariant. */
  lemma InsertKeepsInv(users: Users, nextId: ObjectId, u: User)
    requires UsersInv(users, nextId)
    requires u.id == nextId && u.following == [] && u.followers == []
    requires IsNormal(u.username) && IsNormal(u.email)
    requires !Clashes(users, u.username, u.email)
    ensures nextId !in users
    ensures UsersInv(users[nextId := u], nextId + 1)
  {
    var users' := users[nextId := u];
    assert Keyed(users', nextId + 1);
    InsertKeepsUnique(users, nextId, u);
    assert Normalized(users');
    assert SetLike(users');
    InsertKeepsMirrored(users, nextId, u);
    assert NoSelfFollow(users');
  }

  lemma InsertKeepsUnique(users: Users, nextId: ObjectId, u: User)
    requires Unique(users) && nextId !in users && !Clashes(users, u.username, u.email)
    ensures Unique(users[nextId := u])
  {
  }

  lemma InsertKeepsMirrored(users: Users, nextId: ObjectId, u: User)
    requires Mirrored(users) && nextId !in users && u.following == [] && u.followers == []
    ensures Mirrored(users[nextId := u])
  {
    var users' := users[nextId := u];
    forall a, b | a in users' && b in users'[a].following
      ensures b in users' && a in users'[b].followers
    {
      assert a != nextId && b in users;
    }
    forall a, b | a in users' && b in users'[a].followers
      ensures b in users' && a in users'[b].following
    {
      assert a != nextId && b in users;
    }
  }

  /**
   * `comparePassword(p)`: bcrypt's check of `p` against the stored hash. With a sound bcrypt and
   * passwords it reads in full, `p` matches exactly when it is the one hashed into the record.
   */
  function ComparePassword(u: User, p: string, lib: Lib): (r: bool)
    ensures forall q {:trigger lib.hash(q)} ::
              BcryptSound(lib) && Utf8Length(p) <= BcryptMaxBytes && Utf8Length(q) <= BcryptMaxBytes
              && u.password == lib.hash(q)
              ==> (r <==> p == q)
  {
    lib.compare(p, u.password)
  }

  const SevenDays := "7d"

  /**
   * `generateToken()`: a token over a payload that carries only the user id, valid for seven days.
   * With a sound jsonwebtoken it verifies to the user's id.
   */
  function GenerateToken(u: User, lib: Lib): (t: string)
    ensures JwtSound(lib) ==> lib.verify(t) == Some(u.id) && IsTrimmed(t)
  {
    var c := Claims(u.id, SevenDays);
    assert JwtSound(lib) ==> lib.verify(lib.sign(c)) == Some(c.userId) && IsTrimmed(lib.sign(c));
    lib.sign(c)
  }

  /** A `new User({ username, email, password })` document, before and while it is saved. */
  class UserDocument {
    var username: string
    var email: string
    var password: string

    ghost predicate Valid()
      reads this
    {
      IsNormal(username) && IsNormal(email)
    }

    /** The schema setters run on assignment: username and email are trimmed and lower-cased, the password trimmed. */
    constructor (username: string, email: string, password: string)
      ensures Valid()
      ensures this.username == Normalize(username) && this.email == Normalize(email)
      ensures this.password == Trim(password)
    {
      this.username := Normalize(username);
      this.email := Normalize(email);
      this.password := Trim(password);
    }

    /** `UserSchema.pre('save')`: whatever the password field holds is replaced by its hash. */
    method PreSave(lib: Lib)
      modifies this
      ensures password == lib.hash(old(password))
      ensures username == old(username) && email == old(email)
    {
      password := lib.hash(password);
    }
  }

  /** The `users` collection. */
  class UserStore {
    var users: Users
    var nextId: ObjectId

    ghost predicate Valid()
      reads this
    {
      UsersInv(users, nextId)
    }

    constructor ()
      ensures Valid() && users == map[] && nextId == 0
    {
      users := map[];
      nextId := 0;
    }

    /** `User.findOne({ username: name })`, with `name` already through the setters. */
    method FindByUsername(name: string) returns (r: Option<ObjectId>)
      requires Valid()
      ensures r == ByUsername(users, name)
    {
      if exists k :: k in users && users[k].username == name {
        var k :| k in users && users[k].username == name;
        ByUsernameIsTheOne(users, name, k);
        r := Some(k);
      } else {
        r := None;
      }
    }

    /** `User.findOne({ email })`, with `email` already through the setters. */
    method FindByEmail(email: string) returns (r: Option<ObjectId>)
      requires Valid()
      ensures r == ByEmail(users, email)
    {
      if exists k :: k in users && users[k].email == email {
        var k :| k in users && users[k].email == email;
        ByEmailIsTheOne(users, email, k);
        r := Some(k);
      } else {
        r := None;
      }
    }

    /**
     * `doc.save()` of a new document: validation first, then the pre-save hook, then the insert,
     * which the unique indexes refuse when the username or email is taken.
     */
    method Save(doc: UserDocument, lib: Lib) returns (r: Result<User, SaveError>)
      requires Valid() && doc.Valid()
      modifies this, doc
      ensures Valid() && doc.Valid()
      ensures doc.username == old(doc.username) && doc.email == old(doc.email)
      ensures !UserStorable(doc.username, doc.email, old(doc.password)) ==>
                r == Failure(ValidationFailed) && doc.password == old(doc.password)
                && users == old(users) && nextId == old(nextId)
      ensures UserStorable(doc.username, doc.email, old(doc.password)) ==>
                doc.password == lib.hash(old(doc.password))
      ensures UserStorable(doc.username, doc.email, old(doc.password))
              && Clashes(old(users), doc.username, doc.email) ==>
                r == Failure(DuplicateKey) && users == old(users) && nextId == old(nextId)
      ensures UserStorable(doc.username, doc.email, old(doc.password))
              && !Clashes(old(users), doc.username, doc.email) ==>
                && r == Success(NewUser(old(nextId), doc.username, doc.email, doc.password))
                && old(nextId) !in old(users)
                && users == old(users)[old(nextId) := r.value] && nextId == old(nextId) + 1
    {
      if !UserStorable(doc.username, doc.email, doc.password) {
        return Failure(ValidationFailed);
      }
      doc.PreSave(lib);
      if exists k :: k in users && (users[k].username == doc.username || users[k].email == doc.email) {
        return Failure(DuplicateKey);
      }
      var u := NewUser(nextId, doc.username, doc.email, doc.password);
      InsertKeepsInv(users, nextId, u);
      users := users[nextId := u];
      nextId := nextId + 1;
      r := Success(u);
    }
  }

  /**
   * `$set: req.body` through the schema setters: a username or email in the body replaces the
   * stored one in normal form, a bio replaces the bio, and nothing else changes.
   */
  function ApplyProfile(u: User, body: Body): (r: User)
    ensures r.id == u.id && r.password == u.password && r.favourites == u.favourites
    ensures r.myArticles == u.myArticles && r.following == u.following && r.followers == u.followers
    ensures IsNormal(r.username) && IsNormal(r.email) <== IsNormal(u.username) && IsNormal(u.email)
    ensures "username" !in body ==> r.username == u.username
    ensures "email" !in body ==> r.email == u.email
    ensures "bio" !in body ==> r.bio == u.bio
    ensures "username" in body ==> r.username == Normalize(body["username"])
    ensures "email" in body ==> r.email == Normalize(body["email"])
    ensures "bio" in body ==> r.bio == Some(body["bio"])
    ensures body.Keys !! {"username", "email", "bio"} ==> r == u
  {
    u.(username := if "username" in body then Normalize(body["username"]) else u.username,
       email := if "email" in body then Normalize(body["email"]) else u.email,
       bio := if "bio" in body then Some(body["bio"]) else u.bio)
  }

  /** Whether another user already holds the username or email the update would store. */
  ghost predicate UpdateClashes(users: Users, id: ObjectId, u: User) {
    exists k :: k in users && k != id && (users[k].username == u.username || users[k].email == u.email)
  }

  /** Replacing one user's profile fields, without a clash, keeps the store invariant. */
  lemma ApplyProfileKeepsInv(users: Users, nextId: ObjectId, id: ObjectId, body: Body)
    requires UsersInv(users, nextId) && id in users
    requires !UpdateClashes(users, id, ApplyProfile(users[id], body))
    ensures UsersInv(users[id := ApplyProfile(users[id], body)], nextId)
  {
    var u := ApplyProfile(users[id], body);
    ReplaceKeepsInv(users, nextId, id, u);
  }

  /** Replacing a user by one with the same id and arrays, in normal form and without a clash, keeps the invariant. */
  lemma ReplaceKeepsInv(users: Users, nextId: ObjectId, id: ObjectId, u: User)
    requires UsersInv(users, nextId) && id in users && !UpdateClashes(users, id, u)
    requires u.id == users[id].id && IsNormal(u.username) && IsNormal(u.email)
    requires u.following == users[id].following && u.followers == users[id].followers
    ensures UsersInv(users[id := u], nextId)
  {
    ReplaceKeepsUnique(users, id, u);
    ReplaceKeepsMirrored(users, id, u);
  }

  lemma ReplaceKeepsUnique(users: Users, id: ObjectId, u: User)
    requires Unique(users) && id in users && !UpdateClashes(users, id, u)
    ensures Unique(users[id := u])
  {
    var r := users[id := u];
    forall x, y | x in r && y in r && r[x].username == r[y].username ensures x == y {
      if x != id && y != id {
        assert r[x] == users[x] && r[y] == users[y];
      }
    }
    forall x, y | x in r && y in r && r[x].email == r[y].email ensures x == y {
      if x != id && y != id {
        assert r[x] == users[x] && r[y] == users[y];
      }
    }
  }

  lemma ReplaceKeepsMirrored(users: Users, id: ObjectId, u: User)
    requires Mirrored(users) && id in users
    requires u.following == users[id].following && u.followers == users[id].followers
    ensures Mirrored(users[id := u])
  {
    var r := users[id := u];
    forall x, y | x in r && y in r[x].following ensures y in r && x in r[y].followers {
      assert y in users[x].following;
    }
    forall x, y | x in r && y in r[x].followers ensures y in r && x in r[y].following {
      assert y in users[x].followers;
    }
  }

  /** The `{id, username, email, bio}` view of a user; an unset bio is left out. */
  function PublicFields(u: User): (j: Json)
    ensures Get(j, "id") == Some(JId(u.id)) && Get(j, "username") == Some(JStr(u.username))
    ensures Get(j, "email") == Some(JStr(u.email)) && Get(j, "password") == None
    ensures u.bio.Some? ==> Get(j, "bio") == Some(JStr(u.bio.value))
    ensures u.bio.None? ==> Get(j, "bio") == None
  {
    JObj(WithOptional(map["id" := JId(u.id), "username" := JStr(u.username), "email" := JStr(u.email)], "bio", u.bio))
  }

  /** The `validateUser` schema the older signup handler uses. */
  const UserSchema: seq<KeySchema> := [
    Key("username", true, [Min(3), Max(50)]),
    Key("email", true, [Min(5), Max(255), Email]),
    Key("password", true, [Min(5), Max(255)])
  ]

  /** `validateUser`: the first failing detail, or `None` when the body is accepted. */
  function ValidateUser(body: Body, isEmail: string -> bool): (r: Option<Detail>)
    ensures r.None? ==> "username" in body && "email" in body && "password" in body
  {
    MissingRequiredRejected(UserSchema, body, isEmail, 0);
    MissingRequiredRejected(UserSchema, body, isEmail, 1);
    MissingRequiredRejected(UserSchema, body, isEmail, 2);
    Validate(UserSchema, body, isEmail)
  }

  predicate UserBodyOk(body: Body, isEmail: string -> bool) {
    && body.Keys <= {"username", "email", "password"}
    && "username" in body && 3 <= |body["username"]| <= 50
    && "email" in body && 5 <= |body["email"]| <= 255 && isEmail(body["email"])
    && "password" in body && 5 <= |body["password"]| <= 255
  }

  /** `validateUser` accepts exactly the bodies with all three fields within their inclusive bounds. */
  lemma ValidateUserAcceptsExactly(body: Body, isEmail: string -> bool)
    ensures ValidateUser(body, isEmail).None? <==> UserBodyOk(body, isEmail)
  {
    KeysChain(UserSchema, body, isEmail);
    assert Names(UserSchema) == {"username", "email", "password"};
    if "username" in body {
      SatisfiesChain(body["username"], UserSchema[0].rules, isEmail);
    }
    if "email" in body {
      SatisfiesChain(body["email"], UserSchema[1].rules, isEmail);
    }
    if "password" in body {
      SatisfiesChain(body["password"], UserSchema[2].rules, isEmail);
    }
    assert KeyAccepts(UserSchema[0], body, isEmail) <==> ("username" in body && 3 <= |body["username"]| <= 50);
    assert KeyAccepts(UserSchema[1], body, isEmail) <==>
      ("email" in body && 5 <= |body["email"]| <= 255 && isEmail(body["email"]));
    assert KeyAccepts(UserSchema[2], body, isEmail) <==> ("password" in body && 5 <= |body["password"]| <= 255);
  }
}

/** `controllers/UserController.js`: profiles, profile edits, the follow graph and the feed. */
module UserController {
  import opened Wrappers
  import opened Text
  import opened Json
  import opened Joi
  import opened Primitives
  import opened MongoOps
  import opened UserModel
  import opened ArticleModel
  import Response
  import UserValidation

  // ---------------------------------------------------------------- profile

  /** The `data` of a profile reply; an unset bio is left out, as `JSON.stringify` leaves out `undefined`. */
  function ProfileData(u: User): (j: Json)
    ensures Get(j, "id") == Some(JId(u.id)) && Get(j, "username") == Some(JStr(u.username))
    ensures Get(j, "my_articles") == Some(JArr(Ids(u.myArticles)))
    ensures Get(j, "email") == Some(JStr(u.email)) && Get(j, "password") == None
    ensures u.bio.Some? ==> Get(j, "bio") == Some(JStr(u.bio.value))
    ensures u.bio.None? ==> Get(j, "bio") == None
  {
    JObj(WithOptional(map["id" := JId(u.id), "username" := JStr(u.username), "email" := JStr(u.email),
                          "my_articles" := JArr(Ids(u.myArticles))], "bio", u.bio))
  }

  /**
   * `profile`: the user is looked up by the normalised route username; the reply is 200 exactly
   * when some user holds that name, and 404 otherwise.
   */
  ghost function Profile(users: Users, username: string): (r: Reply)
    ensures r.status == 200 <==> exists k :: k in users && users[k].username == Normalize(username)
    ensures r.status != 200 ==> r == Response.Error(404, "User with given username not found!")
  {
    match ByUsername(users, Normalize(username))
    case None => Response.Error(404, "User with given username not found!")
    case Some(k) => Reply(200, JObj(map["status" := JStr("success"), "data" := ProfileData(users[k])]))
  }

  /** A stored user is found under any spelling of its name with extra case or surrounding spaces. */
  lemma ProfileFindsUser(users: Users, nextId: ObjectId, k: ObjectId, username: string)
    requires UsersInv(users, nextId) && k in users && Normalize(username) == users[k].username
    ensures Profile(users, username).status == 200
    ensures Get(Profile(users, username).body, "data") == Some(ProfileData(users[k]))
  {
    ByUsernameIsTheOne(users, Normalize(username), k);
  }

  /** No stored user has the name: 404 with the error envelope. */
  lemma ProfileUnknownUser(users: Users, username: string)
    requires forall k :: k in users ==> users[k].username != Normalize(username)
    ensures Profile(users, username) == Response.Error(404, "User with given username not found!")
  {
  }

  // ---------------------------------------------------------------- follow graph

  /** The two writes of `follow`: `$addToSet` on the actor's `following`, then on the target's `followers`. */
  function FollowEdge(users: Users, a: ObjectId, b: ObjectId): (r: Users)
    requires a in users && b in users
    ensures r.Keys == users.Keys
  {
    var users1 := users[a := users[a].(following := AddToSet(users[a].following, b))];
    users1[b := users1[b].(followers := AddToSet(users1[b].followers, a))]
  }

  /** The two writes of `unfollow`: `$pull` from the actor's `following`, then from the target's `followers`. */
  function UnfollowEdge(users: Users, a: ObjectId, b: ObjectId): (r: Users)
    requires a in users && b in users
    ensures r.Keys == users.Keys
  {
    var users1 := users[a := users[a].(following := Pull(users[a].following, b))];
    users1[b := users1[b].(followers := Pull(users1[b].followers, a))]
  }

  /**
   * A new follow appends exactly one id to each of the two arrays and leaves every other field
   * and every other user as it was.
   */
  lemma FollowEffect(users: Users, nextId: ObjectId, a: ObjectId, b: ObjectId)
    requires UsersInv(users, nextId) && a in users && b in users && a != b
    requires b !in users[a].following
    ensures FollowEdge(users, a, b)[a] == users[a].(following := users[a].following + [b])
    ensures FollowEdge(users, a, b)[b] == users[b].(followers := users[b].followers + [a])
    ensures forall k :: k in users && k != a && k != b ==> FollowEdge(users, a, b)[k] == users[k]
  {
    assert a !in users[b].followers;
  }

  /** An unfollow removes exactly the one edge and leaves every other user as it was. */
  lemma UnfollowEffect(users: Users, nextId: ObjectId, a: ObjectId, b: ObjectId)
    requires UsersInv(users, nextId) && a in users && b in users && a != b
    requires b in users[a].following
    ensures var r := UnfollowEdge(users, a, b);
      && r[a] == users[a].(following := Pull(users[a].following, b))
      && r[b] == users[b].(followers := Pull(users[b].followers, a))
      && (forall x :: x in r[a].following <==> x in users[a].following && x != b)
      && (forall x :: x in r[b].followers <==> x in users[b].followers && x != a)
      && |r[a].following| == |users[a].following| - 1
      && |r[b].followers| == |users[b].followers| - 1
      && (forall k :: k in users && k != a && k != b ==> r[k] == users[k])
  {
    assert a in users[b].followers;
    PullRemovesOne(users[a].following, b);
    PullRemovesOne(users[b].followers, a);
  }

  /** Pulling a value that occurs once from a duplicate-free array shortens it by one. */
  lemma {:induction false} PullRemovesOne(s: seq<ObjectId>, x: ObjectId)
    requires NoDup(s) && x in s
    ensures |Pull(s, x)| == |s| - 1
  {
    if s[0] == x {
      assert x !in s[1..] by {
        forall k | 0 <= k < |s| - 1 ensures s[1..][k] != x {
          assert s[1..][k] == s[k + 1];
        }
      }
      PullAbsent(s[1..], x);
    } else {
      assert NoDup(s[1..]) by {
        forall i, j | 0 <= i < j < |s| - 1 ensures s[1..][i] != s[1..][j] {
          assert s[1..][i] == s[i + 1] && s[1..][j] == s[j + 1];
        }
      }
      PullRemovesOne(s[1..], x);
    }
  }

  /** Changes that leave every id, username and email in place keep the identity part of the invariant. */
  lemma IdentityKept(users: Users, r: Users, nextId: ObjectId)
    requires Keyed(users, nextId) && Unique(users) && Normalized(users)
    requires r.Keys == users.Keys
    requires forall k :: k in users ==>
      r[k].id == users[k].id && r[k].username == users[k].username && r[k].email == users[k].email
    ensures Keyed(r, nextId) && Unique(r) && Normalized(r)
  {
  }

  /** Adding the one edge `a → b` to both arrays keeps the mirror. */
  lemma EdgeAddedMirrored(users: Users, r: Users, a: ObjectId, b: ObjectId)
    requires Mirrored(users) && a in users && b in users
    requires r.Keys == users.Keys
    requires forall k, z :: k in users ==> (z in r[k].following <==> z in users[k].following || (k == a && z == b))
    requires forall k, z :: k in users ==> (z in r[k].followers <==> z in users[k].followers || (k == b && z == a))
    ensures Mirrored(r)
  {
    EdgeAddedFollowing(users, r, a, b);
    EdgeAddedFollowers(users, r, a, b);
  }

  lemma EdgeAddedFollowing(users: Users, r: Users, a: ObjectId, b: ObjectId)
    requires Mirrored(users) && a in users && b in users
    requires r.Keys == users.Keys
    requires forall k, z :: k in users ==> (z in r[k].following <==> z in users[k].following || (k == a && z == b))
    requires forall k, z :: k in users ==> (z in r[k].followers <==> z in users[k].followers || (k == b && z == a))
    ensures forall x, y :: x in r && y in r[x].following ==> y in r && x in r[y].followers
  {
    forall x, y | x in r && y in r[x].following ensures y in r && x in r[y].followers {
      if x == a && y == b {
        assert x in r[y].followers;
      } else {
        assert y in users[x].following;
        assert y in users && x in users[y].followers;
      }
    }
  }

  lemma EdgeAddedFollowers(users: Users, r: Users, a: ObjectId, b: ObjectId)
    requires Mirrored(users) && a in users && b in users
    requires r.Keys == users.Keys
    requires forall k, z :: k in users ==> (z in r[k].following <==> z in users[k].following || (k == a && z == b))
    requires forall k, z :: k in users ==> (z in r[k].followers <==> z in users[k].followers || (k == b && z == a))
    ensures forall x, y :: x in r && y in r[x].followers ==> y in r && x in r[y].following
  {
    forall x, y | x in r && y in r[x].followers ensures y in r && x in r[y].following {
      if x == b && y == a {
        assert x in r[y].following;
      } else {
        assert y in users[x].followers;
        assert y in users && x in users[y].following;
      }
    }
  }

  /** Removing the one edge `a → b` from both arrays keeps the mirror. */
  lemma EdgeRemovedMirrored(users: Users, r: Users, a: ObjectId, b: ObjectId)
    requires Mirrored(users) && a in users && b in users
    requires r.Keys == users.Keys
    requires forall k, z :: k in users ==> (z in r[k].following <==> z in users[k].following && !(k == a && z == b))
    requires forall k, z :: k in users ==> (z in r[k].followers <==> z in users[k].followers && !(k == b && z == a))
    ensures Mirrored(r)
  {
    EdgeRemovedFollowing(users, r, a, b);
    EdgeRemovedFollowers(users, r, a, b);
  }

  lemma EdgeRemovedFollowing(users: Users, r: Users, a: ObjectId, b: ObjectId)
    requires Mirrored(users) && a in users && b in users
    requires r.Keys == users.Keys
    requires forall k, z :: k in users ==> (z in r[k].following <==> z in users[k].following && !(k == a && z == b))
    requires forall k, z :: k in users ==> (z in r[k].followers <==> z in users[k].followers && !(k == b && z == a))
    ensures forall x, y :: x in r && y in r[x].following ==> y in r && x in r[y].followers
  {
    forall x, y | x in r && y in r[x].following ensures y in r && x in r[y].followers {
      assert y in users[x].following;
      assert y in users && x in users[y].followers;
    }
  }

  lemma EdgeRemovedFollowers(users: Users, r: Users, a: ObjectId, b: ObjectId)
    requires Mirrored(users) && a in users && b in users
    requires r.Keys == users.Keys
    requires forall k, z :: k in users ==> (z in r[k].following <==> z in users[k].following && !(k == a && z == b))
    requires forall k, z :: k in users ==> (z in r[k].followers <==> z in users[k].followers && !(k == b && z == a))
    ensures forall x, y :: x in r && y in r[x].followers ==> y in r && x in r[y].following
  {
    forall x, y | x in r && y in r[x].followers ensures y in r && x in r[y].following {
      assert y in users[x].followers;
      assert y in users && x in users[y].following;
    }
  }

  /** The membership facts of a new follow, one user at a time. */
  lemma FollowMembers(users: Users, r: Users, a: ObjectId, b: ObjectId)
    requires a in users && b in users && a != b && r.Keys == users.Keys
    requires r[a] == users[a].(following := users[a].following + [b])
    requires r[b] == users[b].(followers := users[b].followers + [a])
    requires forall k :: k in users && k != a && k != b ==> r[k] == users[k]
    ensures forall k, z :: k in users ==> (z in r[k].following <==> z in users[k].following || (k == a && z == b))
    ensures forall k, z :: k in users ==> (z in r[k].followers <==> z in users[k].followers || (k == b && z == a))
  {
  }

  /** Appending absent ids keeps the arrays duplicate-free, and an edge to someone else is no self-follow. */
  lemma FollowArraysKept(users: Users, r: Users, a: ObjectId, b: ObjectId)
    requires SetLike(users) && NoSelfFollow(users) && a in users && b in users && a != b && r.Keys == users.Keys
    requires b !in users[a].following && a !in users[b].followers
    requires r[a] == users[a].(following := users[a].following + [b])
    requires r[b] == users[b].(followers := users[b].followers + [a])
    requires forall k :: k in users && k != a && k != b ==> r[k] == users[k]
    ensures SetLike(r) && NoSelfFollow(r)
  {
    assert AddToSet(users[a].following, b) == r[a].following;
    assert AddToSet(users[b].followers, a) == r[b].followers;
  }

  /** A follow between two distinct users not yet linked keeps the store invariant, mirror included. */
  lemma FollowKeepsInv(users: Users, nextId: ObjectId, a: ObjectId, b: ObjectId)
    requires UsersInv(users, nextId) && a in users && b in users && a != b
    requires b !in users[a].following
    ensures UsersInv(FollowEdge(users, a, b), nextId)
  {
    FollowEffect(users, nextId, a, b);
    var r := FollowEdge(users, a, b);
    IdentityKept(users, r, nextId);
    FollowMembers(users, r, a, b);
    EdgeAddedMirrored(users, r, a, b);
    FollowArraysKept(users, r, a, b);
  }

  /** The membership facts of an unfollow, one user at a time. */
  lemma UnfollowMembers(users: Users, r: Users, a: ObjectId, b: ObjectId)
    requires a in users && b in users && a != b && r.Keys == users.Keys
    requires forall x :: x in r[a].following <==> x in users[a].following && x != b
    requires forall x :: x in r[b].followers <==> x in users[b].followers && x != a
    requires r[a].followers == users[a].followers && r[b].following == users[b].following
    requires forall k :: k in users && k != a && k != b ==> r[k] == users[k]
    ensures forall k, z :: k in users ==> (z in r[k].following <==> z in users[k].following && !(k == a && z == b))
    ensures forall k, z :: k in users ==> (z in r[k].followers <==> z in users[k].followers && !(k == b && z == a))
  {
  }

  /** Pulling keeps the arrays duplicate-free and adds no self-follow. */
  lemma UnfollowArraysKept(users: Users, nextId: ObjectId, a: ObjectId, b: ObjectId)
    requires SetLike(users) && NoSelfFollow(users) && a in users && b in users
    ensures SetLike(UnfollowEdge(users, a, b)) && NoSelfFollow(UnfollowEdge(users, a, b))
  {
  }

  /** An unfollow of an existing edge keeps the store invariant, mirror included. */
  lemma UnfollowKeepsInv(users: Users, nextId: ObjectId, a: ObjectId, b: ObjectId)
    requires UsersInv(users, nextId) && a in users && b in users && a != b
    requires b in users[a].following
    ensures UsersInv(UnfollowEdge(users, a, b), nextId)
  {
    UnfollowEffect(users, nextId, a, b);
    var r := UnfollowEdge(users, a, b);
    IdentityKept(users, r, nextId);
    UnfollowMembers(users, r, a, b);
    EdgeRemovedMirrored(users, r, a, b);
    UnfollowArraysKept(users, nextId, a, b);
  }

  /** `follow` then `unfollow` of the same pair restores the whole store exactly. */
  lemma FollowUnfollowRoundTrip(users: Users, nextId: ObjectId, a: ObjectId, b: ObjectId)
    requires UsersInv(users, nextId) && a in users && b in users && a != b
    requires b !in users[a].following
    ensures UnfollowEdge(FollowEdge(users, a, b), a, b) == users
  {
    FollowEffect(users, nextId, a, b);
    assert a !in users[b].followers;
    var f := FollowEdge(users, a, b);
    PullUndoesAddToSet(users[a].following, b);
    PullUndoesAddToSet(users[b].followers, a);
    var f1 := f[a := f[a].(following := Pull(f[a].following, b))];
    assert f1[a] == users[a];
    var r := f1[b := f1[b].(followers := Pull(f1[b].followers, a))];
    assert r == UnfollowEdge(f, a, b);
    assert r[b] == users[b];
    assert forall k :: k in users ==> r[k] == users[k];
    assert r.Keys == users.Keys;
  }


  /** Under the mirror invariant, the two arrays agree on whether a follow exists. */
  lemma FollowingDecidesFollowers(users: Users, nextId: ObjectId, a: ObjectId, b: ObjectId)
    requires UsersInv(users, nextId) && a in users && b in users
    ensures b in users[a].following <==> a in users[b].followers
  {
  }

  /** The two `findByIdAndUpdate` calls with `$addToSet`, one after the other. */
  method WriteFollow(store: UserStore, a: ObjectId, b: ObjectId)
    requires store.Valid() && a in store.users && b in store.users && a != b
    requires b !in store.users[a].following
    modifies store
    ensures store.Valid() && store.nextId == old(store.nextId)
    ensures store.users == FollowEdge(old(store.users), a, b)
  {
    FollowKeepsInv(store.users, store.nextId, a, b);
    var ua := store.users[a];
    store.users := store.users[a := ua.(following := AddToSet(ua.following, b))];
    var ub := store.users[b];
    store.users := store.users[b := ub.(followers := AddToSet(ub.followers, a))];
  }

  /**
   * `follow`: an unknown target is 404, the actor themselves 403, a missing actor record 400 and
   * an existing follow 403, in that order, each leaving the store as it was. Otherwise both writes
   * happen and the reply is 200.
   */
  method Follow(store: UserStore, actor: ObjectId, username: string) returns (reply: Reply)
    requires store.Valid()
    modifies store
    ensures store.Valid() && store.nextId == old(store.nextId)
    ensures var target := ByUsername(old(store.users), Normalize(username));
      && (target.None? ==>
            reply == Response.Error(404, "Username does'nt exist") && store.users == old(store.users))
      && (target.Some? && target.value == actor ==>
            reply == Response.Error(403, "You can't follow yourself") && store.users == old(store.users))
      && (target.Some? && target.value != actor && actor !in old(store.users) ==>
            reply == Response.Error(400, "An error occured") && store.users == old(store.users))
      && (target.Some? && target.value != actor && actor in old(store.users)
          && target.value in old(store.users)[actor].following ==>
            reply == Response.Error(403, "You already follow this user") && store.users == old(store.users))
      && (target.Some? && target.value != actor && actor in old(store.users)
          && target.value !in old(store.users)[actor].following ==>
            reply == Response.Success(200, JStr("You just followed this user!"))
            && store.users == FollowEdge(old(store.users), actor, target.value))
  {
    var target := store.FindByUsername(Normalize(username));
    if target.None? {
      return Response.Error(404, "Username does'nt exist");
    }
    var b := target.value;
    if actor == b {
      return Response.Error(403, "You can't follow yourself");
    }
    if actor !in store.users {
      return Response.Error(400, "An error occured");
    }
    if b in store.users[actor].following {
      return Response.Error(403, "You already follow this user");
    }
    WriteFollow(store, actor, b);
    reply := Response.Success(200, JStr("You just followed this user!"));
  }

  /** The two `findByIdAndUpdate` calls with `$pull`, one after the other. */
  method WriteUnfollow(store: UserStore, a: ObjectId, b: ObjectId)
    requires store.Valid() && a in store.users && b in store.users && a != b
    requires b in store.users[a].following
    modifies store
    ensures store.Valid() && store.nextId == old(store.nextId)
    ensures store.users == UnfollowEdge(old(store.users), a, b)
  {
    UnfollowKeepsInv(store.users, store.nextId, a, b);
    var ua := store.users[a];
    store.users := store.users[a := ua.(following := Pull(ua.following, b))];
    var ub := store.users[b];
    store.users := store.users[b := ub.(followers := Pull(ub.followers, a))];
  }

  /**
   * `unfollow`: the same ladder, refusing with 403 when the target is not in the actor's
   * `following`; otherwise both `$pull`s happen and the reply is 200.
   */
  method Unfollow(store: UserStore, actor: ObjectId, username: string) returns (reply: Reply)
    requires store.Valid()
    modifies store
    ensures store.Valid() && store.nextId == old(store.nextId)
    ensures var target := ByUsername(old(store.users), Normalize(username));
      && (target.None? ==>
            reply == Response.Error(404, "Username does'nt exist") && store.users == old(store.users))
      && (target.Some? && target.value == actor ==>
            reply == Response.Error(403, "You can't unfollow yourself") && store.users == old(store.users))
      && (target.Some? && target.value != actor && actor !in old(store.users) ==>
            reply == Response.Error(400, "An error occured") && store.users == old(store.users))
      && (target.Some? && target.value != actor && actor in old(store.users)
          && target.value !in old(store.users)[actor].following ==>
            reply == Response.Error(403, "You already unfollowed this user") && store.users == old(store.users))
      && (target.Some? && target.value != actor && actor in old(store.users)
          && target.value in old(store.users)[actor].following ==>
            reply == Response.Success(200, JStr("You just unfollowed this user!"))
            && store.users == UnfollowEdge(old(store.users), actor, target.value))
  {
    var target := store.FindByUsername(Normalize(username));
    if target.None? {
      return Response.Error(404, "Username does'nt exist");
    }
    var b := target.value;
    if actor == b {
      return Response.Error(403, "You can't unfollow yourself");
    }
    if actor !in store.users {
      return Response.Error(400, "An error occured");
    }
    if b !in store.users[actor].following {
      return Response.Error(403, "You already unfollowed this user");
    }
    WriteUnfollow(store, actor, b);
    reply := Response.Success(200, JStr("You just unfollowed this user!"));
  }

  /** The reply to a successful follow: the success envelope with the default message and a string as data. */
  lemma FollowReplyShape()
    ensures var r := Response.Success(200, JStr("You just followed this user!"));
      && r.status == 200
      && Get(r.body, "message") == Some(JStr("success"))
      && Response.Data(r) == Some(JStr("You just followed this user!"))
      && Get(r.body, "errors") == None
  {
    Response.SuccessDefaultMessage(200, JStr("You just followed this user!"));
  }

  // ---------------------------------------------------------------- editProfile

  /**
   * `editProfile`: a body refused by `validateUserProfile` is 400 with the first detail message;
   * a route username other than the authenticated user's is 401; a vanished record is 404; a
   * unique-index clash is 400. Only a request past all of these changes the store, and then only
   * the acting user's record. The ownership test compares the route parameter as given.
   */
  method EditProfile(store: UserStore, actor: User, routeUsername: string, body: Body, lib: Lib)
    returns (reply: Reply)
    requires store.Valid()
    modifies store
    ensures store.Valid() && store.nextId == old(store.nextId)
    ensures var v := UserValidation.ValidateUserProfile(body, lib.isEmail);
      && (v.Some? ==> reply == Response.Error(400, lib.message(v.value)) && store.users == old(store.users))
      && (v.None? && actor.username != routeUsername ==>
            reply == Response.Error(401, "You can't edit this profile!") && store.users == old(store.users))
      && (v.None? && actor.username == routeUsername && actor.id !in old(store.users) ==>
            reply == Response.Error(404, "User with given username not found!") && store.users == old(store.users))
      && (v.None? && actor.username == routeUsername && actor.id in old(store.users) ==>
            var u := ApplyProfile(old(store.users)[actor.id], body);
            && (UpdateClashes(old(store.users), actor.id, u) ==>
                  reply == Response.Error(400, "An error occured.") && store.users == old(store.users))
            && (!UpdateClashes(old(store.users), actor.id, u) ==>
                  reply == Response.Success(201, PublicFields(u), "Profile updated!")
                  && store.users == old(store.users)[actor.id := u]))
  {
    var v := UserValidation.ValidateUserProfile(body, lib.isEmail);
    if v.Some? {
      return Response.Error(400, lib.message(v.value));
    }
    if actor.username != routeUsername {
      return Response.Error(401, "You can't edit this profile!");
    }
    if actor.id !in store.users {
      return Response.Error(404, "User with given username not found!");
    }
    var u := ApplyProfile(store.users[actor.id], body);
    if exists k :: k in store.users && k != actor.id
                   && (store.users[k].username == u.username || store.users[k].email == u.email) {
      return Response.Error(400, "An error occured.");
    }
    ApplyProfileKeepsInv(store.users, store.nextId, actor.id, body);
    store.users := store.users[actor.id := u];
    reply := Response.Success(201, PublicFields(u), "Profile updated!");
  }

  // ---------------------------------------------------------------- feed

  const PerPage := 10

  /** `Article.find({ author: { $in: user.following } })`, in natural order. */
  function Matching(articles: seq<Article>, following: seq<ObjectId>): (r: seq<Article>)
    ensures forall a :: a in r <==> a in articles && a.author.Some? && a.author.value in following
    ensures forall a :: multiset(r)[a] == if a.author.Some? && a.author.value in following then multiset(articles)[a] else 0
    ensures |r| <= |articles|
    ensures following == [] ==> r == []
  {
    assert articles == [] || articles == [articles[0]] + articles[1..];
    if articles == [] then []
    else
      var rest := Matching(articles[1..], following);
      if articles[0].author.Some? && articles[0].author.value in following then [articles[0]] + rest else rest
  }

  predicate NewestFirst(s: seq<Article>) {
    forall i, j :: 0 <= i < j < |s| ==> s[i].createdAt >= s[j].createdAt
  }

  lemma NewestTail(s: seq<Article>)
    requires NewestFirst(s) && s != []
    ensures NewestFirst(s[1..]) && forall y :: y in s[1..] ==> s[0].createdAt >= y.createdAt
  {
    forall i, j | 0 <= i < j < |s| - 1 ensures s[1..][i].createdAt >= s[1..][j].createdAt {
      assert s[1..][i] == s[i + 1] && s[1..][j] == s[j + 1];
    }
  }

  lemma NewestCons(x: Article, s: seq<Article>)
    requires NewestFirst(s) && forall y :: y in s ==> x.createdAt >= y.createdAt
    ensures NewestFirst([x] + s)
  {
    var r := [x] + s;
    forall i, j | 0 <= i < j < |r| ensures r[i].createdAt >= r[j].createdAt {
      assert r[j] == s[j - 1];
      if i > 0 {
        assert r[i] == s[i - 1];
      }
    }
  }

  /** Puts `x` before the first element that is strictly older, so ties keep their order. */
  function Insert(x: Article, s: seq<Article>): (r: seq<Article>)
    ensures multiset(r) == multiset(s) + multiset{x}
    ensures NewestFirst(s) ==> NewestFirst(r)
    ensures |r| == |s| + 1
  {
    if s == [] || x.createdAt >= s[0].createdAt then
      assert NewestFirst(s) ==> NewestFirst([x] + s) by {
        if NewestFirst(s) && s != [] {
          NewestTail(s);
          NewestCons(x, s);
        }
      }
      [x] + s
    else
      var rest := Insert(x, s[1..]);
      assert s == [s[0]] + s[1..];
      assert NewestFirst(s) ==> NewestFirst([s[0]] + rest) by {
        if NewestFirst(s) {
          NewestTail(s);
          forall y | y in rest ensures s[0].createdAt >= y.createdAt {
            assert y in multiset(rest);
          }
          NewestCons(s[0], rest);
        }
      }
      [s[0]] + rest
  }

  /** `.sort({ createdAt: -1 })`: a permutation, newest first, ties in natural order. */
  function SortNewestFirst(s: seq<Article>): (r: seq<Article>)
    ensures multiset(r) == multiset(s)
    ensures NewestFirst(r)
    ensures |r| == |s|
  {
    if s == [] then []
    else
      assert s == [s[0]] + s[1..];
      Insert(s[0], SortNewestFirst(s[1..]))
  }

  /** When every article carries the same timestamp, the sort keeps natural order. */
  lemma {:induction false} SortKeepsOrderOnTies(s: seq<Article>, t: nat)
    requires forall a :: a in s ==> a.createdAt == t
    ensures SortNewestFirst(s) == s
  {
    if s != [] {
      SortKeepsOrderOnTies(s[1..], t);
      assert s == [s[0]] + s[1..];
    }
  }

  /** How many of `n` sorted results page `page` holds: ten, or what is left after the skip. */
  function PageLength(n: nat, page: nat): nat
    requires page >= 1
  {
    var skip := PerPage * (page - 1);
    if n <= skip then 0 else if n - skip < PerPage then n - skip else PerPage
  }

  /** `.skip(perPage * page - perPage).limit(perPage)` on a page number of at least 1. */
  function Page(s: seq<Article>, page: nat): (r: seq<Article>)
    requires page >= 1
    ensures |r| <= PerPage
    ensures |r| == PageLength(|s|, page)
    ensures |s| <= PerPage * (page - 1) ==> r == []
    ensures forall k :: 0 <= k < |r| ==> PerPage * (page - 1) + k < |s| && r[k] == s[PerPage * (page - 1) + k]
  {
    var skip := PerPage * (page - 1);
    if |s| <= skip then [] else
    var end := if |s| - skip < PerPage then |s| else skip + PerPage;
    s[skip..end]
  }

  /** The articles on one page of the feed. */
  function FeedArticles(articles: seq<Article>, following: seq<ObjectId>, page: nat): seq<Article>
    requires page >= 1
  {
    Page(SortNewestFirst(Matching(articles, following)), page)
  }

  /**
   * A feed page holds at most ten articles, all stored, all by followed authors, newest first,
   * and it is the slice at offset ten times the page number less one: a full ten while enough
   * followed articles remain past the skip, and all that remain otherwise.
   */
  lemma FeedPageProperties(articles: seq<Article>, following: seq<ObjectId>, page: nat)
    requires page >= 1
    ensures var r := FeedArticles(articles, following, page);
      && |r| <= PerPage
      && |r| == PageLength(|Matching(articles, following)|, page)
      && (forall a :: a in r ==> a in articles && a.author.Some? && a.author.value in following)
      && NewestFirst(r)
      && (forall k :: 0 <= k < |r| ==>
            r[k] == SortNewestFirst(Matching(articles, following))[PerPage * (page - 1) + k])
  {
    var sorted := SortNewestFirst(Matching(articles, following));
    var r := Page(sorted, page);
    forall a | a in r ensures a in articles && a.author.Some? && a.author.value in following {
      var k :| 0 <= k < |r| && r[k] == a;
      assert a in multiset(sorted);
    }
    forall i, j | 0 <= i < j < |r| ensures r[i].createdAt >= r[j].createdAt {
      assert r[i] == sorted[PerPage * (page - 1) + i] && r[j] == sorted[PerPage * (page - 1) + j];
    }
  }

  /** With nobody followed, every page is empty. */
  lemma FeedEmptyWithoutFollowing(articles: seq<Article>, page: nat)
    requires page >= 1
    ensures FeedArticles(articles, [], page) == []
  {
  }

  /** One feed item; an unset author is left out. */
  function FeedItem(a: Article): (j: Json)
    ensures Get(j, "tagsCount") == Some(JNum(|a.tags|))
    ensures Get(j, "favouritesCount") == Some(JNum(|a.favourites|))
    ensures Get(j, "id") == Some(JId(a.id))
  {
    var fields := map[
      "id" := JId(a.id), "title" := JStr(a.title), "description" := JStr(a.description),
      "body" := JStr(a.body), "tags" := JArr(Strings(a.tags)), "tagsCount" := JNum(|a.tags|),
      "slug" := JStr(a.slug), "comments" := JArr(Ids(a.comments)), "favourites" := JArr(Ids(a.favourites)),
      "favouritesCount" := JNum(|a.favourites|), "createdAt" := JDate(a.createdAt)];
    JObj(if a.author.Some? then fields["author" := JId(a.author.value)] else fields)
  }

  function FeedItems(s: seq<Article>): (r: seq<Json>)
    ensures |r| == |s| && forall k :: 0 <= k < |s| ==> r[k] == FeedItem(s[k])
  {
    seq(|s|, k requires 0 <= k < |s| => FeedItem(s[k]))
  }

  /**
   * `feed`: the page, defaulting to 1; a page below 1 makes the skip negative, which the query
   * refuses, giving 400.
   */
  function Feed(user: User, articles: seq<Article>, page: Option<int>): (r: Reply)
    ensures page.GetOr(1) < 1 ==> r == Response.Error(400, "An error occured")
    ensures page.GetOr(1) >= 1 ==>
      var items := FeedArticles(articles, user.following, page.GetOr(1));
      && r.status == 200
      && Response.Data(r) == Some(JObj(map["page" := JNum(page.GetOr(1)), "count" := JNum(|items|),
                                           "data" := JArr(FeedItems(items))]))
  {
    var p := page.GetOr(1);
    if p < 1 then Response.Error(400, "An error occured")
    else
      var items := FeedArticles(articles, user.following, p);
      Response.Success(200, JObj(map["page" := JNum(p), "count" := JNum(|items|), "data" := JArr(FeedItems(items))]))
  }

  /** With no page given, the first page is served; `count` always equals the number of items sent. */
  lemma FeedDefaultsToFirstPage(user: User, articles: seq<Article>)
    ensures var items := FeedArticles(articles, user.following, 1);
      && Feed(user, articles, None) == Feed(user, articles, Some(1))
      && Response.Data(Feed(user, articles, None)) ==
           Some(JObj(map["page" := JNum(1), "count" := JNum(|items|), "data" := JArr(FeedItems(items))]))
      && |items| <= PerPage
  {
    FeedPageProperties(articles, user.following, 1);
  }

  /** A user who follows nobody gets count 0 and no data. */
  lemma FeedEmptyFollowingReply(user: User, articles: seq<Article>, page: nat)
    requires user.following == [] && page >= 1
    ensures Response.Data(Feed(user, articles, Some(page))) ==
              Some(JObj(map["page" := JNum(page), "count" := JNum(0), "data" := JArr([])]))
  {
    FeedEmptyWithoutFollowing(articles, page);
  }
}

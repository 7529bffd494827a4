/** `middleware/auth.js`: the bearer-token guard in front of the authenticated routes. */
module AuthMiddleware {
  import opened Wrappers
  import opened Text
  import opened Json
  import opened Primitives
  import opened UserModel

  /** A request property: never assigned, assigned `null`, or assigned a value. */
  datatype Slot<T> = Unset | Null | Bound(value: T)

  /** The parts of `req` and `res` the guard touches, and how often it calls `next`. */
  class Exchange {
    var token: Option<string>
    var user: Slot<User>
    var sent: seq<Reply>
    var nextCalls: nat

    constructor ()
      ensures token == None && user == Unset && sent == [] && nextCalls == 0
    {
      token := None;
      user := Unset;
      sent := [];
      nextCalls := 0;
    }
  }

  /** The token in an Authorization header: the first `Bearer` removed, then trimmed. */
  function ExtractToken(header: string): (r: string)
    ensures IsTrimmed(r) && |r| <= |header|
  {
    Trim(ReplaceFirst(header, "Bearer", ""))
  }

  /** The usual header shape gives back exactly the trimmed token it carries. */
  lemma BearerRoundTrip(t: string)
    requires IsTrimmed(t)
    ensures ExtractToken("Bearer " + t) == t
  {
    var h := "Bearer " + t;
    assert h[0..6] == "Bearer";
    assert OccursAt(h, "Bearer", 0);
    assert h[6..] == " " + t;
    assert ReplaceFirst(h, "Bearer", "") == " " + t;
    TrimDropsLeadingSpace(t);
  }

  /** Trimming a trimmed value with one space in front gives the value back. */
  lemma TrimDropsLeadingSpace(t: string)
    requires IsTrimmed(t)
    ensures Trim(" " + t) == t
  {
    assert " " + t + "" == " " + t;
    TrimOfPadded(" ", t, "");
  }

  const Unauthorized := Reply(401, JObj(map["error" := JStr("Please authenticate!")]))
  const UserNotFound := Reply(400, JObj(map["message" := JStr("User not found.")]))

  /**
   * `Auth.authenticate`. A missing header or a token that does not verify gets 401 and stops. A
   * verified token records the token and the user and passes on; when the user is gone it still
   * replies 400 first, records `null` and passes on all the same.
   */
  method Authenticate(ex: Exchange, header: Option<string>, users: Users, lib: Lib)
    modifies ex
    ensures header.None? || lib.verify(ExtractToken(header.value)).None? ==>
              && ex.sent == old(ex.sent) + [Unauthorized]
              && ex.token == old(ex.token) && ex.user == old(ex.user) && ex.nextCalls == old(ex.nextCalls)
    ensures header.Some? && lib.verify(ExtractToken(header.value)).Some? ==>
              var id := lib.verify(ExtractToken(header.value)).value;
              && ex.token == Some(ExtractToken(header.value))
              && ex.nextCalls == old(ex.nextCalls) + 1
              && (id in users ==> ex.user == Bound(users[id]) && ex.sent == old(ex.sent))
              && (id !in users ==> ex.user == Null && ex.sent == old(ex.sent) + [UserNotFound])
  {
    if header.None? {
      ex.sent := ex.sent + [Unauthorized];
      return;
    }
    var token := ExtractToken(header.value);
    var decoded := lib.verify(token);
    if decoded.None? {
      ex.sent := ex.sent + [Unauthorized];
      return;
    }
    var id := decoded.value;
    var user: Slot<User> := if id in users then Bound(users[id]) else Null;
    if user.Null? {
      ex.sent := ex.sent + [UserNotFound];
    }
    ex.token := Some(token);
    ex.user := user;
    ex.nextCalls := ex.nextCalls + 1;
  }

  /** With a sound jsonwebtoken, the header `Bearer <generateToken(u)>` authenticates as `u`'s id. */
  lemma IssuedTokenResolves(u: User, lib: Lib)
    requires JwtSound(lib)
    ensures lib.verify(ExtractToken("Bearer " + GenerateToken(u, lib))) == Some(u.id)
  {
    BearerRoundTrip(GenerateToken(u, lib));
  }
}

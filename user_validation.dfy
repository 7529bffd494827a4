/** `validations/user.js`: the Joi schema of a profile edit, every key optional. */
module UserValidation {
  import opened Wrappers
  import opened Text
  import opened Joi

  const ProfileSchema: seq<KeySchema> := [
    Key("username", false, [Min(3), Max(30)]),
    Key("email", false, [Min(5), Max(30), Email]),
    Key("bio", false, [Min(5), Max(255)])
  ]

  /** `validateUserProfile`: the first failing detail, or `None` when the body is accepted. */
  function ValidateUserProfile(body: Body, isEmail: string -> bool): (r: Option<Detail>)
    ensures r.None? ==> body.Keys <= {"username", "email", "bio"}
  {
    KeysChain(ProfileSchema, body, isEmail);
    Validate(ProfileSchema, body, isEmail)
  }

  /** The profile rules stated field by field; each applies only when its field is sent. */
  predicate ProfileOk(body: Body, isEmail: string -> bool) {
    && body.Keys <= {"username", "email", "bio"}
    && ("username" in body ==> 3 <= |body["username"]| <= 30)
    && ("email" in body ==> 5 <= |body["email"]| <= 30 && isEmail(body["email"]))
    && ("bio" in body ==> 5 <= |body["bio"]| <= 255)
  }

  /** `validateUserProfile` accepts exactly the bodies that meet the profile rules. */
  lemma ProfileAcceptsExactly(body: Body, isEmail: string -> bool)
    ensures ValidateUserProfile(body, isEmail).None? <==> ProfileOk(body, isEmail)
  {
    KeysChain(ProfileSchema, body, isEmail);
    assert Names(ProfileSchema) == {"username", "email", "bio"};
    if "username" in body {
      SatisfiesChain(body["username"], ProfileSchema[0].rules, isEmail);
    }
    if "email" in body {
      SatisfiesChain(body["email"], ProfileSchema[1].rules, isEmail);
    }
    if "bio" in body {
      SatisfiesChain(body["bio"], ProfileSchema[2].rules, isEmail);
    }
    assert KeyAccepts(ProfileSchema[0], body, isEmail) <==> ("username" in body ==> 3 <= |body["username"]| <= 30);
    assert KeyAccepts(ProfileSchema[1], body, isEmail) <==>
      ("email" in body ==> 5 <= |body["email"]| <= 30 && isEmail(body["email"]));
    assert KeyAccepts(ProfileSchema[2], body, isEmail) <==> ("bio" in body ==> 5 <= |body["bio"]| <= 255);
  }

  /** Every field is optional: the empty body is accepted. */
  lemma EmptyProfileAccepted(isEmail: string -> bool)
    ensures ValidateUserProfile(map[], isEmail) == None
  {
    ProfileAcceptsExactly(map[], isEmail);
  }

  /**
   * No alphanumeric rule applies to a profile username: one with a space is accepted, where
   * signup would refuse it.
   */
  lemma ProfileUsernameMayHoldSpace(isEmail: string -> bool)
    ensures ValidateUserProfile(map["username" := "a b"], isEmail) == None
    ensures !IsAlnumString("a b")
  {
    ProfileAcceptsExactly(map["username" := "a b"], isEmail);
    assert !IsAlnum("a b"[1]);
  }

  /** The bio bounds are inclusive: alone in a body, a bio is accepted exactly when its length is 5 to 255. */
  lemma BioBoundsInclusive(isEmail: string -> bool, bio: string)
    ensures ValidateUserProfile(map["bio" := bio], isEmail).None? <==> 5 <= |bio| <= 255
  {
    ProfileAcceptsExactly(map["bio" := bio], isEmail);
  }
}

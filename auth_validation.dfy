/** `validations/auth.js`: the Joi schemas of the signup and login bodies. */
module AuthValidation {
  import opened Wrappers
  import opened Text
  import opened Joi

  const SignupSchema: seq<KeySchema> := [
    Key("username", true, [Alphanum, Min(3), Max(30)]),
    Key("email", true, [Min(5), Max(30), Email]),
    Key("password", true, [Alphanum, Min(5), Max(30)])
  ]

  const LoginSchema: seq<KeySchema> := [
    Key("username", true, [Alphanum, Min(3), Max(30)]),
    Key("password", true, [Alphanum, Min(5), Max(30)])
  ]

  /** `validateSignup`: the first failing detail, or `None` when the body is accepted. */
  function ValidateSignup(body: Body, isEmail: string -> bool): (r: Option<Detail>)
    ensures r.None? ==> "username" in body && "email" in body && "password" in body
  {
    MissingRequiredRejected(SignupSchema, body, isEmail, 0);
    MissingRequiredRejected(SignupSchema, body, isEmail, 1);
    MissingRequiredRejected(SignupSchema, body, isEmail, 2);
    Validate(SignupSchema, body, isEmail)
  }

  /** `validateLogin`: the first failing detail, or `None` when the body is accepted. */
  function ValidateLogin(body: Body, isEmail: string -> bool): (r: Option<Detail>)
    ensures r.None? ==> "username" in body && "password" in body
  {
    MissingRequiredRejected(LoginSchema, body, isEmail, 0);
    MissingRequiredRejected(LoginSchema, body, isEmail, 1);
    Validate(LoginSchema, body, isEmail)
  }

  predicate UsernameOk(u: string) {
    IsAlnumString(u) && 3 <= |u| <= 30
  }

  predicate PasswordOk(p: string) {
    IsAlnumString(p) && 5 <= |p| <= 30
  }

  predicate EmailOk(e: string, isEmail: string -> bool) {
    5 <= |e| <= 30 && isEmail(e)
  }

  /** The signup rules stated field by field. */
  predicate SignupOk(body: Body, isEmail: string -> bool) {
    && body.Keys <= {"username", "email", "password"}
    && "username" in body && UsernameOk(body["username"])
    && "email" in body && EmailOk(body["email"], isEmail)
    && "password" in body && PasswordOk(body["password"])
  }

  /** The login rules stated field by field: no `email`, and the signup rules for the other two. */
  predicate LoginOk(body: Body) {
    && body.Keys <= {"username", "password"}
    && "username" in body && UsernameOk(body["username"])
    && "password" in body && PasswordOk(body["password"])
  }

  /** The three rule chains read as the field predicates. */
  lemma RuleChains(isEmail: string -> bool)
    ensures forall v :: SatisfiesAll(v, SignupSchema[0].rules, isEmail) <==> UsernameOk(v)
    ensures forall v :: SatisfiesAll(v, SignupSchema[1].rules, isEmail) <==> EmailOk(v, isEmail)
    ensures forall v :: SatisfiesAll(v, SignupSchema[2].rules, isEmail) <==> PasswordOk(v)
    ensures LoginSchema[0] == SignupSchema[0] && LoginSchema[1] == SignupSchema[2]
  {
    forall v: string
      ensures SatisfiesAll(v, SignupSchema[0].rules, isEmail) <==> UsernameOk(v)
      ensures SatisfiesAll(v, SignupSchema[1].rules, isEmail) <==> EmailOk(v, isEmail)
      ensures SatisfiesAll(v, SignupSchema[2].rules, isEmail) <==> PasswordOk(v)
    {
      SatisfiesChain(v, SignupSchema[0].rules, isEmail);
      SatisfiesChain(v, SignupSchema[1].rules, isEmail);
      SatisfiesChain(v, SignupSchema[2].rules, isEmail);
    }
  }

  /** `validateSignup` accepts exactly the bodies that meet every signup rule. */
  lemma SignupAcceptsExactly(body: Body, isEmail: string -> bool)
    ensures ValidateSignup(body, isEmail).None? <==> SignupOk(body, isEmail)
  {
    KeysChain(SignupSchema, body, isEmail);
    RuleChains(isEmail);
  }

  /** `validateLogin` accepts exactly the bodies that meet the login rules. */
  lemma LoginAcceptsExactly(body: Body, isEmail: string -> bool)
    ensures ValidateLogin(body, isEmail).None? <==> LoginOk(body)
  {
    KeysChain(LoginSchema, body, isEmail);
    RuleChains(isEmail);
  }

  /**
   * The username bounds are inclusive: in a body that meets every other signup rule, an
   * alphanumeric username is accepted exactly when its length is 3 to 30.
   */
  lemma SignupUsernameBoundsInclusive(body: Body, isEmail: string -> bool, u: string)
    requires SignupOk(body, isEmail) && IsAlnumString(u)
    ensures ValidateSignup(body["username" := u], isEmail).None? <==> 3 <= |u| <= 30
  {
    SignupAcceptsExactly(body["username" := u], isEmail);
  }

  /** The same inclusive bounds decide, for an alphanumeric password, whether signup accepts it. */
  lemma SignupPasswordBoundsInclusive(body: Body, isEmail: string -> bool, p: string)
    requires SignupOk(body, isEmail) && IsAlnumString(p)
    ensures ValidateSignup(body["password" := p], isEmail).None? <==> 5 <= |p| <= 30
  {
    SignupAcceptsExactly(body["password" := p], isEmail);
  }

  /** Usernames of length 3 and 30 pass the username rules; lengths 2 and 31 do not. */
  lemma UsernameEdgeLengths()
    ensures UsernameOk("abc") && !UsernameOk("ab")
    ensures UsernameOk("abcdefghijabcdefghijabcdefghij")
    ensures !UsernameOk("abcdefghijabcdefghijabcdefghijk")
  {
  }

  /**
   * A username either validator accepts has no white space, so the signup handler's
   * `replace(/\s/g, '')` leaves it as it is.
   */
  lemma AcceptedUsernameHasNoSpace(body: Body, isEmail: string -> bool)
    requires ValidateSignup(body, isEmail).None? || ValidateLogin(body, isEmail).None?
    ensures "username" in body && HasNoSpace(body["username"])
    ensures StripSpace(body["username"]) == body["username"]
  {
    SignupAcceptsExactly(body, isEmail);
    LoginAcceptsExactly(body, isEmail);
    var u := body["username"];
    assert forall i :: 0 <= i < |u| ==> IsAlnum(u[i]);
  }

  /** A body without `username`, `email` or `password` fails signup. */
  lemma SignupMissingFieldRejected(body: Body, isEmail: string -> bool, k: string)
    requires k in {"username", "email", "password"} && k !in body
    ensures ValidateSignup(body, isEmail).Some?
  {
    SignupAcceptsExactly(body, isEmail);
  }

  /** Login does not take an email: a body that carries one is refused as an unknown key. */
  lemma LoginRefusesEmail(body: Body, isEmail: string -> bool)
    requires "email" in body
    ensures ValidateLogin(body, isEmail).Some?
  {
    LoginAcceptsExactly(body, isEmail);
  }

  /** The username and password accepted at signup are accepted by the login validator. */
  lemma SignupCredentialsPassLogin(body: Body, isEmail: string -> bool)
    requires ValidateSignup(body, isEmail).None?
    ensures "username" in body && "password" in body
    ensures ValidateLogin(map["username" := body["username"], "password" := body["password"]], isEmail).None?
  {
    SignupAcceptsExactly(body, isEmail);
    LoginAcceptsExactly(map["username" := body["username"], "password" := body["password"]], isEmail);
  }
}

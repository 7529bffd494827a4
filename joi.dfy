/**
 * The part of Joi's `Joi.validate(value, schema)` the validators use: an object schema whose keys
 * are `Joi.string()` chains of `alphanum()`, `min(n)`, `max(n)`, `email()` and `required()`.
 * Joi checks the schema's keys in order, and within a key the empty string first and then the rules
 * in the order they were chained; keys the schema does not name are refused after that. With
 * `abortEarly` (Joi's default) the first failure is the one `error.details[0]` describes.
 */
module Joi {
  import opened Wrappers
  import opened Text

  datatype Rule = Alphanum | Min(n: nat) | Max(n: nat) | Email

  datatype KeySchema = Key(name: string, required: bool, rules: seq<Rule>)

  /** A request body: field name to the string sent. */
  type Body = map<string, string>

  /** What `error.details[0]` reports. `NotAllowed` holds every key the schema does not name. */
  datatype Detail =
    | Required(key: string)
    | Empty(key: string)
    | Violated(key: string, rule: Rule)
    | NotAllowed(keys: set<string>)

  /** Lengths are inclusive bounds; `isEmail` stands for Joi's `email()` check. */
  predicate Satisfies(v: string, r: Rule, isEmail: string -> bool) {
    match r
    case Alphanum => IsAlnumString(v)
    case Min(n) => n <= |v|
    case Max(n) => |v| <= n
    case Email => isEmail(v)
  }

  predicate SatisfiesAll(v: string, rules: seq<Rule>, isEmail: string -> bool) {
    forall j :: 0 <= j < |rules| ==> Satisfies(v, rules[j], isEmail)
  }

  /** The index of the first rule `v` breaks. */
  function FirstViolated(v: string, rules: seq<Rule>, isEmail: string -> bool): (r: Option<nat>)
    ensures r.Some? ==> r.value < |rules| && !Satisfies(v, rules[r.value], isEmail)
                        && forall j :: 0 <= j < r.value ==> Satisfies(v, rules[j], isEmail)
    ensures r.None? <==> SatisfiesAll(v, rules, isEmail)
  {
    if rules == [] then None
    else if !Satisfies(v, rules[0], isEmail) then Some(0)
    else match FirstViolated(v, rules[1..], isEmail)
      case Some(i) => Some(i + 1)
      case None => None
  }

  /** A key is accepted when it is present if required, and, when present, non-empty and within every rule. */
  predicate KeyAccepts(k: KeySchema, body: Body, isEmail: string -> bool) {
    && (k.required ==> k.name in body)
    && (k.name in body ==> body[k.name] != "" && SatisfiesAll(body[k.name], k.rules, isEmail))
  }

  function CheckKey(k: KeySchema, body: Body, isEmail: string -> bool): (r: Option<Detail>)
    ensures r.None? <==> KeyAccepts(k, body, isEmail)
    ensures r.Some? ==> !r.value.NotAllowed? && r.value.key == k.name
    ensures r.Some? && k.name !in body ==> r.value == Required(k.name)
  {
    if k.name !in body then
      (if k.required then Some(Required(k.name)) else None)
    else if body[k.name] == "" then Some(Empty(k.name))
    else match FirstViolated(body[k.name], k.rules, isEmail)
      case Some(i) => Some(Violated(k.name, k.rules[i]))
      case None => None
  }

  predicate AllKeysAccept(keys: seq<KeySchema>, body: Body, isEmail: string -> bool) {
    forall i :: 0 <= i < |keys| ==> KeyAccepts(keys[i], body, isEmail)
  }

  /** The first key of `keys` that fails, in schema order. */
  function CheckKeys(keys: seq<KeySchema>, body: Body, isEmail: string -> bool): (r: Option<Detail>)
    ensures r.None? <==> AllKeysAccept(keys, body, isEmail)
    ensures r.Some? ==> exists i :: 0 <= i < |keys| && r == CheckKey(keys[i], body, isEmail)
                                    && AllKeysAccept(keys[..i], body, isEmail)
  {
    if keys == [] then None
    else match CheckKey(keys[0], body, isEmail)
      case Some(d) =>
        assert AllKeysAccept(keys[..0], body, isEmail);
        Some(d)
      case None =>
        var r := CheckKeys(keys[1..], body, isEmail);
        assert r.Some? ==> exists i :: 0 <= i < |keys| && r == CheckKey(keys[i], body, isEmail)
                                        && AllKeysAccept(keys[..i], body, isEmail) by {
          if r.Some? {
            var i :| 0 <= i < |keys| - 1 && r == CheckKey(keys[1..][i], body, isEmail)
                     && AllKeysAccept(keys[1..][..i], body, isEmail);
            assert keys[1..][..i] == keys[1..i + 1];
            assert AllKeysAccept(keys[..i + 1], body, isEmail);
          }
        }
        r
  }

  function Names(keys: seq<KeySchema>): set<string> {
    set i | 0 <= i < |keys| :: keys[i].name
  }

  /** Acceptance as a property of the body: every key accepts and nothing unnamed is sent. */
  predicate Accepts(schema: seq<KeySchema>, body: Body, isEmail: string -> bool) {
    AllKeysAccept(schema, body, isEmail) && body.Keys <= Names(schema)
  }

  /** `Joi.validate(body, schema).error`, reduced to its first detail. */
  function Validate(schema: seq<KeySchema>, body: Body, isEmail: string -> bool): (r: Option<Detail>)
    ensures r.None? <==> Accepts(schema, body, isEmail)
    ensures r.Some? && r.value.NotAllowed? ==>
              AllKeysAccept(schema, body, isEmail) && r.value.keys == body.Keys - Names(schema)
                && r.value.keys != {}
  {
    match CheckKeys(schema, body, isEmail)
    case Some(d) => Some(d)
    case None =>
      if body.Keys <= Names(schema) then None
      else
        assert body.Keys - Names(schema) != {} by {
          var k :| k in body.Keys && k !in Names(schema);
          assert k in body.Keys - Names(schema);
        }
        Some(NotAllowed(body.Keys - Names(schema)))
  }

  /** A chain of two or three rules holds exactly when each rule holds. */
  lemma SatisfiesChain(v: string, rules: seq<Rule>, isEmail: string -> bool)
    requires 2 <= |rules| <= 3
    ensures SatisfiesAll(v, rules, isEmail) <==>
              Satisfies(v, rules[0], isEmail) && Satisfies(v, rules[1], isEmail)
              && (|rules| == 3 ==> Satisfies(v, rules[2], isEmail))
  {
  }

  /** A schema of up to three keys accepts exactly when each key accepts. */
  lemma KeysChain(keys: seq<KeySchema>, body: Body, isEmail: string -> bool)
    requires 1 <= |keys| <= 3
    ensures AllKeysAccept(keys, body, isEmail) <==>
              KeyAccepts(keys[0], body, isEmail)
              && (|keys| >= 2 ==> KeyAccepts(keys[1], body, isEmail))
              && (|keys| == 3 ==> KeyAccepts(keys[2], body, isEmail))
    ensures Names(keys) == {keys[0].name} + (if |keys| >= 2 then {keys[1].name} else {})
                             + (if |keys| == 3 then {keys[2].name} else {})
  {
    var n := {keys[0].name} + (if |keys| >= 2 then {keys[1].name} else {})
             + (if |keys| == 3 then {keys[2].name} else {});
    forall x | x in n ensures x in Names(keys) {
      if x == keys[0].name {
      } else if |keys| >= 2 && x == keys[1].name {
      } else {
        assert x == keys[2].name;
      }
    }
  }

  /** A required key missing from the body is always refused, whatever else the body holds. */
  lemma MissingRequiredRejected(schema: seq<KeySchema>, body: Body, isEmail: string -> bool, i: nat)
    requires i < |schema| && schema[i].required
    ensures schema[i].name !in body ==> Validate(schema, body, isEmail).Some?
  {
    assert schema[i].name !in body ==> !KeyAccepts(schema[i], body, isEmail);
  }
}

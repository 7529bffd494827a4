/**
 * The library calls the model does not look inside: bcrypt, jsonwebtoken, the `slug` package,
 * Joi's `email()` check and the text of Joi's error details. They are passed around as one value of
 * total functions, so every property proved holds whatever those functions are.
 */
module Primitives {
  import opened Wrappers
  import opened Text
  import opened Json
  import Joi

  /** The payload `generateToken` signs, and its `expiresIn` option. */
  datatype Claims = Claims(userId: ObjectId, expiresIn: string)

  datatype Lib = Lib(
    hash: string -> string,              // bcrypt.hashSync(password, 10)
    compare: (string, string) -> bool,   // bcrypt.compareSync(password, hash)
    sign: Claims -> string,              // jwt.sign({ _id }, secret, { expiresIn })
    verify: string -> Option<ObjectId>,  // jwt.verify(token, secret)._id; None when it throws
    slug: string -> string,              // slug(title, { lower: true })
    isEmail: string -> bool,             // Joi.string().email()
    message: Joi.Detail -> string        // error.details[0].message
  )

  /** bcrypt reads no more than the first 72 bytes of a password's UTF-8 encoding. */
  const BcryptMaxBytes := 72

  /**
   * What bcrypt is relied on for: among passwords it reads in full, a password matches a stored
   * hash exactly when it was the one hashed. Longer passwords that share their first 72 bytes
   * match each other, so nothing is assumed about them.
   */
  ghost predicate BcryptSound(lib: Lib) {
    forall p, q {:trigger lib.compare(p, lib.hash(q))} :: Utf8Length(p) <= BcryptMaxBytes && Utf8Length(q) <= BcryptMaxBytes ==>
      (lib.compare(p, lib.hash(q)) <==> p == q)
  }

  /**
   * What jsonwebtoken is relied on for: a token it signed verifies to the id it carries, and a token
   * has no white space at its ends (its characters are base64url and dots). One key both signs and
   * verifies, so this stands for a deployment where `SECRET_KEY` and `SECRET` hold the same value.
   */
  ghost predicate JwtSound(lib: Lib) {
    forall c :: lib.verify(lib.sign(c)) == Some(c.userId) && IsTrimmed(lib.sign(c))
  }
}

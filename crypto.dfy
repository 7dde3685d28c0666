/** bcrypt and jsonwebtoken are foreign code. They enter the model as function
    values that every handler receives; only the facts stated by the two
    predicates below are ever assumed about them, and only where a lemma says so. */
module Crypto {
  import opened JsValues
  import opened UserModel

  /** The payload `{ id, role }` that a session token carries. */
  datatype Claims = Claims(id: int, role: Role)

  /** `bcrypt.hash(p, 10)`, `bcrypt.compare(p, h)`, `jwt.sign(claims, secret)`
      and `jwt.verify(token, secret)` with the secret, salt and clock fixed;
      `verify` yields `None` where the library throws. */
  datatype Oracles = Oracles(
    hash: string -> string,
    compare: (string, string) -> bool,
    sign: Claims -> string,
    verify: string -> Option<Claims>)

  /** A password always matches its own hash. */
  ghost predicate HashSound(c: Oracles) {
    forall p :: c.compare(p, c.hash(p))
  }

  /** A signed token verifies to the claims it was signed with, and is a
      non-empty string without spaces (a compact JWT). */
  ghost predicate TokensSound(c: Oracles) {
    forall cl :: c.verify(c.sign(cl)) == Some(cl) && c.sign(cl) != "" && ' ' !in c.sign(cl)
  }
}

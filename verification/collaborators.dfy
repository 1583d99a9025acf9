/** The foreign libraries the server calls — bcrypt, jsonwebtoken and uuid —
    as function values whose only known behaviour is collected in
    `Lawful`. */
module Collaborators {
  import opened Options

  /** The claims a token carries: `{userId, email}`. */
  datatype Claims = Claims(userId: nat, email: string)

  /** `expiresIn: "24h"`, in the clock's unit (seconds). */
  const TokenLifetime: nat := 24 * 60 * 60

  /** - `hash(raw, rounds, salt)`: `bcrypt.hash(raw, rounds)`, its random salt
        drawn from `salt`;
      - `compare(raw, hashed)`: `bcrypt.compare`;
      - `sign(claims, key, issuedAt)`: `jwt.sign(claims, key, {expiresIn: "24h"})`;
      - `verify(token, key, now)`: `jwt.verify(token, key)` at time `now`,
        `None` for every kind of failure;
      - `uuid(n)`: the `n`-th value `uuidv4()` hands out. */
  datatype Services = Services(
    hash: (string, int, nat) -> string,
    compare: (string, string) -> bool,
    sign: (Claims, string, nat) -> string,
    verify: (string, string, nat) -> Option<Claims>,
    uuid: nat -> string)

  /** The few facts the model assumes about the libraries:
      a password matches its own hash, and a bcrypt hash is 60 characters;
      a signed token is a non-empty text without spaces (three base64url
      parts joined by dots); a token verifies to its claims under the key
      it was signed with until 24 hours after issue, and never afterwards
      nor under another key; uuids never repeat, and each is a non-empty
      text with neither a dot nor a slash. Of the shape of a version-4
      uuid the model needs nothing more.
      `ToyLibraries.ToyLawful` shows that some collaborators meet all of
      these. */
  ghost predicate Lawful(svc: Services) {
    && (forall raw: string, rounds: int, salt: nat :: svc.compare(raw, svc.hash(raw, rounds, salt)))
    && (forall raw: string, rounds: int, salt: nat :: |svc.hash(raw, rounds, salt)| == 60)
    && (forall c: Claims, key: string, t: nat :: svc.sign(c, key, t) != "" && ' ' !in svc.sign(c, key, t))
    && (forall c: Claims, key: string, t: nat, now: nat ::
          svc.verify(svc.sign(c, key, t), key, now) == if now < t + TokenLifetime then Some(c) else None)
    && (forall c: Claims, key: string, other: string, t: nat, now: nat :: other != key ==> svc.verify(svc.sign(c, key, t), other, now) == None)
    && (forall n: nat, m: nat :: n != m ==> svc.uuid(n) != svc.uuid(m))
    && (forall n: nat :: svc.uuid(n) != "" && '.' !in svc.uuid(n) && '/' !in svc.uuid(n))
  }
}

/** A toy implementation of bcrypt, jsonwebtoken and uuid that meets every
    assumption `Collaborators.Lawful` makes, so that the lemmas resting on
    those assumptions are about collaborators that can exist. */
module ToyLibraries {
  import opened Options
  import opened Collaborators

  /** `n` copies of `u`: distinct lengths for distinct numbers. */
  function Unary(n: nat): (r: string)
    ensures |r| == n && forall k | 0 <= k < n :: r[k] == 'u'
  {
    seq(n, k => 'u')
  }

  /** Each character written as two: a flag, `b` for a space and `a` for
      anything else, then the character itself, with a space written as
      `x`. The result has no space, and a flag sits at every even
      position. */
  function Escape(s: string): (e: string)
    ensures |e| == 2 * |s|
    ensures forall k | 0 <= k < |e| :: e[k] != ' '
    ensures forall i | 0 <= i < |s| :: e[2 * i] in "ab"
  {
    seq(2 * |s|, k requires 0 <= k < 2 * |s| =>
      if k % 2 == 0 then (if s[k / 2] == ' ' then 'b' else 'a')
      else (if s[k / 2] == ' ' then 'x' else s[k / 2]))
  }

  /** Reads `Escape`'s output back. */
  function Unescape(e: string): (s: string)
    ensures |s| == |e| / 2
  {
    seq(|e| / 2, i requires 0 <= i < |e| / 2 => if e[2 * i] == 'b' then ' ' else e[2 * i + 1])
  }

  lemma UnescapeEscape(s: string)
    ensures Unescape(Escape(s)) == s
  {
    var e := Escape(s);
    forall i | 0 <= i < |s|
      ensures Unescape(e)[i] == s[i]
    {
      assert (2 * i) % 2 == 0 && (2 * i) / 2 == i;
      assert (2 * i + 1) % 2 == 1 && (2 * i + 1) / 2 == i;
    }
  }

  /** Two texts in one: the first escaped, then the marker `cc`, then the
      second as it is. */
  function Pair(x: string, y: string): string {
    Escape(x) + "cc" + y
  }

  /** The marker is the first `c` at an even position, so a pair splits
      back into its parts. */
  lemma PairInjective(x: string, y: string, x': string, y': string)
    requires Pair(x, y) == Pair(x', y')
    ensures x == x' && y == y'
  {
    var p := Pair(x, y);
    PairLayout(x, y);
    PairLayout(x', y');
    assert |x| == |x'|;
    assert Escape(x) == p[..2 * |x|] == Escape(x');
    UnescapeEscape(x);
    UnescapeEscape(x');
    assert y == p[2 * |x| + 2..] == y';
  }

  /** A pair shows a flag at every even position of its first part, and
      `c` right after it. */
  lemma PairLayout(x: string, y: string)
    ensures Pair(x, y)[2 * |x|] == 'c'
    ensures forall i | 0 <= i < |x| :: Pair(x, y)[2 * i] in "ab"
  {
    var p := Pair(x, y);
    forall i | 0 <= i < |x|
      ensures p[2 * i] in "ab"
    {
      assert p[2 * i] == Escape(x)[2 * i];
    }
  }

  /** A token: the claims, the key and the issue time packed into one text
      without spaces. */
  function ToySign(c: Claims, key: string, t: nat): (token: string)
    ensures token != "" && ' ' !in token
  {
    var token := Pair(Unary(c.userId), Pair(c.email, Pair(key, Unary(t))));
    assert |token| >= 2;
    assert forall k | 0 <= k < |token| :: token[k] != ' ';
    token
  }

  lemma ToySignInjective(c: Claims, key: string, t: nat, c': Claims, key': string, t': nat)
    requires ToySign(c, key, t) == ToySign(c', key', t')
    ensures c == c' && key == key' && t == t'
  {
    PairInjective(Unary(c.userId), Pair(c.email, Pair(key, Unary(t))),
                  Unary(c'.userId), Pair(c'.email, Pair(key', Unary(t'))));
    PairInjective(c.email, Pair(key, Unary(t)), c'.email, Pair(key', Unary(t')));
    PairInjective(key, Unary(t), key', Unary(t'));
  }

  /** Whether `token` was signed with `key` and is still fresh at `now`. */
  ghost predicate FreshUnder(token: string, key: string, now: nat) {
    exists c: Claims, t: nat :: ToySign(c, key, t) == token && now < t + TokenLifetime
  }

  /** Unpacking a token: the claims of a fresh token signed with `key`. */
  ghost function ToyVerify(token: string, key: string, now: nat): Option<Claims> {
    if FreshUnder(token, key, now)
    then var c: Claims, t: nat :| ToySign(c, key, t) == token && now < t + TokenLifetime; Some(c)
    else None
  }

  /** The toy collaborators: every hash is sixty `h`s and every password
      matches every hash; verification unpacks the token; the `n`-th uuid
      is `n + 1` letters long. */
  ghost function Toy(): Services {
    Services(
      (raw: string, rounds: int, salt: nat) => Unary(60),
      (raw: string, hashed: string) => true,
      ToySign,
      ToyVerify,
      (n: nat) => Unary(n + 1))
  }

  /** The toy collaborators meet every assumption. */
  lemma ToyLawful()
    ensures Lawful(Toy())
  {
    var svc := Toy();
    forall c: Claims, key: string, t: nat, now: nat
      ensures svc.verify(svc.sign(c, key, t), key, now) == if now < t + TokenLifetime then Some(c) else None
    {
      ToyVerifyFresh(ToySign(c, key, t), key, now, c, t);
    }
    forall c: Claims, key: string, other: string, t: nat, now: nat | other != key
      ensures svc.verify(svc.sign(c, key, t), other, now) == None
    {
      var token := ToySign(c, key, t);
      if FreshUnder(token, other, now) {
        var c': Claims, t': nat :| ToySign(c', other, t') == token && now < t' + TokenLifetime;
        ToySignInjective(c, key, t, c', other, t');
      }
    }
    forall n: nat, m: nat | n != m
      ensures svc.uuid(n) != svc.uuid(m)
    {
      assert |svc.uuid(n)| != |svc.uuid(m)|;
    }
  }

  /** A token verifies under its own key exactly while it is fresh, and to
      the claims it was signed with. */
  lemma ToyVerifyFresh(token: string, key: string, now: nat, c: Claims, t: nat)
    requires ToySign(c, key, t) == token
    ensures ToyVerify(token, key, now) == if now < t + TokenLifetime then Some(c) else None
  {
    forall c': Claims, t': nat | ToySign(c', key, t') == token
      ensures c' == c && t' == t
    {
      ToySignInjective(c, key, t, c', key, t');
    }
  }
}

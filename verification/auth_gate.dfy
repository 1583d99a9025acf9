/** The `authenticateToken` middleware: bearer-token extraction and
    verification in front of the protected routes. */
module AuthGate {
  import opened Options
  import opened JsText
  import opened Collaborators
  import opened ServerState
  import Config

  /** `authHeader && authHeader.split(" ")[1]`, kept only when truthy: the
      second space-separated field of the header. The first field, the
      scheme word, is never looked at. */
  function BearerToken(header: Option<string>): (t: Option<string>)
    ensures header.None? ==> t.None?
    ensures header.Some? && ' ' !in header.value ==> t.None?
    ensures t.Some? ==> t.value != "" && ' ' !in t.value
  {
    match header
    case None => None
    case Some(h) =>
      if h == "" then None
      else
        var fields := Split(h, ' ');
        if |fields| < 2 || fields[1] == "" then None else Some(fields[1])
  }

  /** Any header of the form `<word> <token>` or `<word> <token> <more>`
      yields the token, whatever the word. */
  lemma BearerTokenOf(word: string, token: string, rest: string)
    requires ' ' !in word && ' ' !in token && token != ""
    requires rest == "" || rest[0] == ' '
    ensures BearerToken(Some(word + " " + token + rest)) == Some(token)
  {
    var h := word + " " + token + rest;
    assert h[|word|] == ' ';
    var i := IndexOf(h, ' ');
    assert i == |word|;
    var t := token + rest;
    assert h[..i] == word && h[i + 1..] == t;
    assert Split(h, ' ') == [word] + Split(t, ' ');
    if rest == "" {
      assert t == token;
      assert Split(t, ' ') == [token];
    } else {
      assert t[|token|] == ' ';
      var k := IndexOf(t, ' ');
      assert k == |token|;
      assert t[..k] == token;
      assert Split(t, ' ')[0] == token;
    }
  }

  /** Conversely, an extracted token always sits between the first and the
      second space of the header, or runs to its end. */
  lemma BearerTokenShape(h: string) returns (word: string, rest: string)
    requires BearerToken(Some(h)).Some?
    ensures ' ' !in word && (rest == "" || rest[0] == ' ')
    ensures h == word + " " + BearerToken(Some(h)).value + rest
  {
    var t := BearerToken(Some(h)).value;
    var i := IndexOf(h, ' ');
    var tail := h[i + 1..];
    word, rest := h[..i], TokenRest(tail);
    assert Split(h, ' ')[1] == Split(tail, ' ')[0];
    SpaceAt(h, i, t, rest);
  }

  /** Cutting a string at a space. */
  lemma SpaceAt(h: string, i: nat, t: string, rest: string)
    requires i < |h| && h[i] == ' ' && h[i + 1..] == t + rest
    ensures h == h[..i] + " " + t + rest
  {
    assert h == h[..i] + [h[i]] + h[i + 1..];
  }

  /** What follows the first field of `tail`: empty, or starting at its
      first space. */
  function TokenRest(tail: string): (rest: string)
    ensures rest == "" || rest[0] == ' '
    ensures tail == Split(tail, ' ')[0] + rest
  {
    if ' ' in tail then
      var k := IndexOf(tail, ' ');
      assert tail == tail[..k] + tail[k..];
      tail[k..]
    else ""
  }

  /** Whether the gate lets a request through, with the decoded claims, or
      answers it itself. */
  datatype Gate = Admitted(claims: Claims) | Refused(reply: Reply)

  /** The middleware at time `now`: 401 without a token, 403 when
      `jwt.verify` fails under `config.jwtSecret` (including when that key is
      unset or empty, which `jwt.verify` refuses outright), else the claims
      become the caller's identity. */
  function Authenticate(d: Deployment, header: Option<string>, now: nat): (g: Gate)
    ensures BearerToken(header).None? <==> g == Refused(Fail(Unauthorized, "Access token required"))
    ensures g.Refused? ==> g.reply.status in {Unauthorized, Forbidden}
    ensures g.Admitted? <==> && BearerToken(header).Some?
                             && d.config.jwtSecret.Some? && d.config.jwtSecret.value != ""
                             && d.svc.verify(BearerToken(header).value, d.config.jwtSecret.value, now).Some?
    ensures g.Admitted? ==> Some(g.claims) == d.svc.verify(BearerToken(header).value, d.config.jwtSecret.value, now)
    ensures BearerToken(header).Some? && g.Refused? ==> g == Refused(Fail(Forbidden, "Invalid token"))
  {
    match BearerToken(header)
    case None => Refused(Fail(Unauthorized, "Access token required"))
    case Some(token) =>
      match d.config.jwtSecret
      case None => Refused(Fail(Forbidden, "Invalid token"))
      case Some(key) =>
        if key == "" then Refused(Fail(Forbidden, "Invalid token"))
        else
          match d.svc.verify(token, key, now)
          case None => Refused(Fail(Forbidden, "Invalid token"))
          case Some(claims) => Admitted(claims)
  }

  /** The header a client sends with a token. */
  function BearerHeader(token: string): string {
    "Bearer " + token
  }

  /** A token the server issued is accepted for 24 hours when the signing key
      and `config.jwtSecret` agree, which is when `JWT_SECRET` is set and
      non-empty. */
  lemma IssuedTokenAdmitted(d: Deployment, c: Claims, issuedAt: nat, now: nat)
    requires KeyLoaded(d) && Lawful(d.svc)
    requires "JWT_SECRET" in d.env && d.env["JWT_SECRET"] != ""
    requires now < issuedAt + TokenLifetime
    ensures Authenticate(d, Some(BearerHeader(d.svc.sign(c, Config.SigningKey(d.env), issuedAt))), now) == Admitted(c)
  {
    var key := Config.SigningKey(d.env);
    assert d.config.jwtSecret == Some(key);
    var t := d.svc.sign(c, key, issuedAt);
    assert t != "" && ' ' !in t;
    assert BearerHeader(t) == "Bearer" + " " + t + "";
    BearerTokenOf("Bearer", t, "");
    assert d.svc.verify(t, key, now) == Some(c);
  }

  /** With `JWT_SECRET` unset, no request ever passes the gate: every token
      the server issued was signed with the fallback key, and
      `jwt.verify` refuses an undefined key outright. */
  lemma NoSecretNoAccess(d: Deployment, header: Option<string>, now: nat)
    requires KeyLoaded(d) && "JWT_SECRET" !in d.env
    ensures Authenticate(d, header, now).Refused?
  {
  }

  /** An issued token is refused once its 24 hours are over. */
  lemma ExpiredTokenRefused(d: Deployment, c: Claims, issuedAt: nat, now: nat)
    requires Lawful(d.svc)
    requires now >= issuedAt + TokenLifetime
    ensures Authenticate(d, Some(BearerHeader(d.svc.sign(c, Config.SigningKey(d.env), issuedAt))), now).Refused?
  {
    var t := d.svc.sign(c, Config.SigningKey(d.env), issuedAt);
    assert BearerToken(Some(BearerHeader(t))) == Some(t) by {
      BearerTokenOf("Bearer", t, "");
      assert BearerHeader(t) == "Bearer" + " " + t + "";
    }
  }
}

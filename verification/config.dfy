/** The server's environment-derived settings. */
module Config {
  import opened Options
  import opened JsNumber

  /** `process.env`: every variable that is set maps to its text. */
  type Env = map<string, string>

  const DefaultPort: nat := 5000
  const DefaultSaltRounds: int := 12

  /** What `process.env.PORT || 5000` evaluates to: the variable's text when
      it is set and non-empty, else the number 5000. */
  datatype PortSetting = PortText(text: string) | PortNumber(number: nat)

  /** The listening port. */
  function Port(env: Env): (p: PortSetting)
    ensures p.PortNumber? <==> "PORT" !in env || env["PORT"] == ""
    ensures p.PortNumber? ==> p.number == DefaultPort
    ensures p.PortText? ==> p.text == env["PORT"]
  {
    if "PORT" in env && env["PORT"] != "" then PortText(env["PORT"]) else PortNumber(DefaultPort)
  }

  /** The key tokens are verified with: `JWT_SECRET` exactly, with no
      default (`None` is `undefined`). */
  function JwtSecret(env: Env): (k: Option<string>)
    ensures k.Some? <==> "JWT_SECRET" in env
    ensures k.Some? ==> k.value == env["JWT_SECRET"]
  {
    if "JWT_SECRET" in env then Some(env["JWT_SECRET"]) else None
  }

  const FallbackSigningKey := "your-secret-key"

  /** The key tokens are signed with: `JWT_SECRET || "your-secret-key"`, so an
      unset or empty variable falls back to the fixed text. */
  function SigningKey(env: Env): (k: string)
    ensures k != ""
    ensures "JWT_SECRET" in env && env["JWT_SECRET"] != "" ==> k == env["JWT_SECRET"]
    ensures "JWT_SECRET" !in env || env["JWT_SECRET"] == "" ==> k == FallbackSigningKey
  {
    if "JWT_SECRET" in env && env["JWT_SECRET"] != "" then env["JWT_SECRET"] else FallbackSigningKey
  }

  /** `parseInt(process.env.SALT_ROUNDS) || 12`. An unset variable reaches
      `parseInt` as the text "undefined"; `NaN` and zero are both falsy, so
      the result is never zero. */
  function SaltRounds(env: Env): (r: int)
    ensures r != 0
    ensures "SALT_ROUNDS" !in env ==> r == DefaultSaltRounds
  {
    ParseIntUndefined();
    match ParseInt(RawSaltRounds(env))
    case Some(n) => if n == 0 then DefaultSaltRounds else n
    case None => DefaultSaltRounds
  }

  /** The text `parseInt` receives: the variable, or "undefined". */
  function RawSaltRounds(env: Env): string {
    if "SALT_ROUNDS" in env then env["SALT_ROUNDS"] else "undefined"
  }

  /** A set variable counts through its parsed value unless that is `NaN`
      or zero. */
  lemma SaltRoundsParsed(env: Env)
    requires "SALT_ROUNDS" in env
    ensures match ParseInt(env["SALT_ROUNDS"])
            case None => SaltRounds(env) == DefaultSaltRounds
            case Some(n) => SaltRounds(env) == (if n == 0 then DefaultSaltRounds else n)
  {
  }

  /** The object `config.js` exports, evaluated once when the server
      starts. */
  datatype Settings = Settings(port: PortSetting, jwtSecret: Option<string>, saltRounds: int)

  function Load(env: Env): (c: Settings)
    ensures c.port == Port(env) && c.jwtSecret == JwtSecret(env) && c.saltRounds == SaltRounds(env)
  {
    Settings(Port(env), JwtSecret(env), SaltRounds(env))
  }

  /** The signing key is the verification key exactly when `JWT_SECRET` is
      set to a non-empty text; otherwise the two never agree. */
  lemma KeysAgree(env: Env)
    ensures JwtSecret(env) == Some(SigningKey(env)) <==> "JWT_SECRET" in env && env["JWT_SECRET"] != ""
  {
  }

  /** A setting such as "  -7 rounds" yields the negative number in front. */
  lemma SaltRoundsReadsPrefix(env: Env, space: string, negative: bool, n: nat, rest: string)
    requires "SALT_ROUNDS" in env
    requires env["SALT_ROUNDS"] == space + (if negative then "-" else "") + Decimal(n) + rest
    requires JsText.AllWhiteSpace(space)
    requires |rest| == 0 || !IsDecimalDigit(rest[0])
    requires n == 0 && |rest| > 0 ==> rest[0] != 'x' && rest[0] != 'X'
    ensures SaltRounds(env) == (if n == 0 then DefaultSaltRounds else Signed(negative, n))
  {
    ParseIntDecimal(space, negative, n, rest);
    SaltRoundsParsed(env);
  }
}

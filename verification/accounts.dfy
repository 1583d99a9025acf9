/** The register, login and profile handlers. */
module Accounts {
  import opened Options
  import opened JsText
  import opened Collaborators
  import opened ServerState
  import opened AuthGate
  import Config

  /** The user document `new User({name, email, password: hashed})` builds
      once the schema's `trim` and `lowercase` options have run. */
  function NewUser(s: Server, name: string, email: string, hashed: string, now: nat): (u: User)
    ensures u.id == s.nextId && u.password == hashed && u.joinDate == now
    ensures IsTrimmed(u.name) && NormalEmail(u.email)
  {
    User(s.nextId, Trim(name), NormalizeEmail(email), hashed, now)
  }

  /** Whether the schema validation of `save` passes: name and email are
      required (non-empty), and `minlength: 6` applies to the stored
      password field, that is, to the hash. */
  predicate SchemaValid(u: User) {
    u.name != "" && u.email != "" && |u.password| >= 6
  }

  /** The token `jwt.sign` issues for a user at time `now`. */
  function IssueToken(d: Deployment, u: User, now: nat): string {
    d.svc.sign(Claims(u.id, u.email), Config.SigningKey(d.env), now)
  }

  /** `POST /api/auth/register` after `elapsed` time units. The pre-check
      looks the email up through `lookup`, the rewriting the Mongoose
      version applies to query filters, and answers 400 on a hit; a schema failure or a clash with the unique email index at save
      time lands in the catch and answers 500. Only a 201 writes. */
  function Register(d: Deployment, s: Server, elapsed: nat, salt: nat, name: string, email: string, password: string): (st: Step)
    ensures st.next.prompts == s.prompts && st.next.clock == s.clock + elapsed
    ensures st.reply.status in {Created, BadRequest, ServerError}
    ensures FindByEmail(s.users, d.lookup(email)).Some? <==>
              st.reply == Fail(BadRequest, "User already exists")
    ensures st.reply.status == ServerError ==> st.reply == Fail(ServerError, "Server error during registration")
    ensures st.reply.status != Created ==> st.next.users == s.users && st.next.nextId == s.nextId
    ensures st.reply.status == Created <==>
              && FindByEmail(s.users, d.lookup(email)).None?
              && FindByEmail(s.users, NormalizeEmail(email)).None?
              && Trim(name) != "" && NormalizeEmail(email) != ""
              && |d.svc.hash(password, d.config.saltRounds, salt)| >= 6
    ensures st.reply.status == Created ==>
              var u := NewUser(s, name, email, d.svc.hash(password, d.config.saltRounds, salt), s.clock + elapsed);
              && st.next.users == s.users + [u]
              && st.next.nextId == s.nextId + 1
              && st.reply.body == SessionBody("User created successfully", IssueToken(d, u, s.clock + elapsed), View(u))
  {
    var now := s.clock + elapsed;
    var s0 := s.(clock := now);
    if FindByEmail(s.users, d.lookup(email)).Some? then
      Step(Fail(BadRequest, "User already exists"), s0)
    else
      var hashed := d.svc.hash(password, d.config.saltRounds, salt);
      var u := NewUser(s, name, email, hashed, now);
      if !SchemaValid(u) || FindByEmail(s.users, u.email).Some? then
        Step(Fail(ServerError, "Server error during registration"), s0)
      else
        Step(Reply(Created, SessionBody("User created successfully", IssueToken(d, u, now), View(u))),
             s0.(users := s.users + [u], nextId := s.nextId + 1))
  }

  /** `POST /api/auth/login`. An unknown email and a wrong password get the
      very same answer; success issues a token and shows the user without
      the password. Nothing is written. */
  function Login(d: Deployment, s: Server, elapsed: nat, email: string, password: string): (st: Step)
    ensures st.next == s.(clock := s.clock + elapsed)
    ensures st.reply.status in {Created, BadRequest}
    ensures st.reply == Fail(BadRequest, "Invalid credentials") <==>
              || FindByEmail(s.users, d.lookup(email)).None?
              || !d.svc.compare(password, FindByEmail(s.users, d.lookup(email)).value.password)
    ensures st.reply.status == Created ==>
              var u := FindByEmail(s.users, d.lookup(email)).value;
              && u in s.users
              && st.reply.body == SessionBody("Login successful", IssueToken(d, u, s.clock + elapsed), View(u))
  {
    var now := s.clock + elapsed;
    var s0 := s.(clock := now);
    match FindByEmail(s.users, d.lookup(email))
    case None => Step(Fail(BadRequest, "Invalid credentials"), s0)
    case Some(u) =>
      if !d.svc.compare(password, u.password) then Step(Fail(BadRequest, "Invalid credentials"), s0)
      else Step(Reply(Created, SessionBody("Login successful", IssueToken(d, u, now), View(u))), s0)
  }

  /** `GET /api/user/profile`: behind the gate, 404 when the token's user id
      names no stored user, else the user without the password. Nothing is
      written. */
  function Profile(d: Deployment, s: Server, elapsed: nat, header: Option<string>): (st: Step)
    ensures st.next == s.(clock := s.clock + elapsed)
    ensures st.reply.status in {Created, Unauthorized, Forbidden, NotFound}
    ensures Authenticate(d, header, s.clock + elapsed).Refused? ==>
              st.reply == Authenticate(d, header, s.clock + elapsed).reply
    ensures st.reply.status == Created <==>
              && Authenticate(d, header, s.clock + elapsed).Admitted?
              && FindById(s.users, Authenticate(d, header, s.clock + elapsed).claims.userId).Some?
    ensures st.reply.status == Created ==>
              exists u :: u in s.users && u.id == Authenticate(d, header, s.clock + elapsed).claims.userId
                       && st.reply.body == ProfileBody(View(u))
    ensures && Authenticate(d, header, s.clock + elapsed).Admitted?
            && FindById(s.users, Authenticate(d, header, s.clock + elapsed).claims.userId).None? ==>
              st.reply == Fail(NotFound, "User not found")
  {
    var now := s.clock + elapsed;
    var s0 := s.(clock := now);
    match Authenticate(d, header, now)
    case Refused(reply) => Step(reply, s0)
    case Admitted(claims) =>
      match FindById(s.users, claims.userId)
      case None => Step(Fail(NotFound, "User not found"), s0)
      case Some(u) => Step(Reply(Created, ProfileBody(View(u))), s0)
  }
}

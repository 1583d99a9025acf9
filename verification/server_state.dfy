/** The server's stores, the data they hold, and the HTTP replies the
    handlers produce. */
module ServerState {
  import opened Options
  import opened JsText
  import opened Collaborators
  import Config

  /** A stored user document; `password` holds the bcrypt hash. */
  datatype User = User(id: nat, name: string, email: string, password: string, joinDate: nat)

  /** The user as every response shows it: `{id, name, email, joinDate}`,
      with no password field. */
  datatype UserView = UserView(id: nat, name: string, email: string, joinDate: nat)

  function View(u: User): UserView {
    UserView(u.id, u.name, u.email, u.joinDate)
  }

  /** One uploaded file as the prompt document records it. */
  datatype FileRecord = FileRecord(filename: string, originalName: string, mimetype: string, size: nat, path: string)

  /** A stored prompt document. */
  datatype PromptRecord = PromptRecord(
    id: nat, userId: nat, prompt: string, files: seq<FileRecord>, response: string, createdAt: nat)

  /** The two collections, in insertion order, the source of fresh ids
      (document ids and the inputs of `uuidv4`), and the clock. */
  datatype Server = Server(users: seq<User>, prompts: seq<PromptRecord>, nextId: nat, clock: nat)

  /** What a request handler runs against: the process environment, the
      settings `config.js` exported from it at start-up, the library
      collaborators, and how a lookup by email rewrites the email it is given
      before comparing it with stored emails (Mongoose 5 and later apply the
      schema's `lowercase` and `trim`; earlier versions compare it as
      given). */
  datatype Deployment = Deployment(env: Config.Env, config: Config.Settings, svc: Services, lookup: string -> string)

  /** The settings are the ones `config.js` derives from the environment. */
  predicate Booted(d: Deployment) {
    d.config == Config.Load(d.env)
  }

  /** The part of `Booted` the token checks depend on: the verification
      key is `JWT_SECRET` as set. */
  predicate KeyLoaded(d: Deployment) {
    d.config.jwtSecret == Config.JwtSecret(d.env)
  }

  /** A reply's body: the JSON objects the handlers send, and the HTML
      page Express's default error handler renders for an error a
      middleware passes on, identified here by that error's message. */
  datatype Body =
    | ErrorBody(error: string)
    | ErrorPage(cause: string)
    | SessionBody(message: string, token: string, user: UserView)
    | ProfileBody(user: UserView)
    | SubmittedBody(message: string, response: string, promptId: nat)
    | PromptsBody(prompts: seq<PromptRecord>)

  datatype Reply = Reply(status: nat, body: Body)

  /** A handler's reply and the server state after it. */
  datatype Step = Step(reply: Reply, next: Server)

  const Created: nat := 201
  const BadRequest: nat := 400
  const Unauthorized: nat := 401
  const Forbidden: nat := 403
  const NotFound: nat := 404
  const ServerError: nat := 500

  function Fail(status: nat, message: string): Reply {
    Reply(status, ErrorBody(message))
  }

  /** What Express's default error handler answers for an error without
      a status of its own: 500 and its error page. */
  function Crash(cause: string): (r: Reply)
    ensures r.status == ServerError && r.body.ErrorPage? && r.body.cause == cause
    ensures r != Fail(ServerError, cause)
  {
    Reply(ServerError, ErrorPage(cause))
  }

  /** An email as the store keeps it: no white space at either end and no
      character `ToLower` would change. */
  predicate NormalEmail(e: string) {
    IsTrimmed(e) && forall i | 0 <= i < |e| :: !Lowerable(e[i])
  }

  /** What the `lowercase` and `trim` options of the email field do to an
      email before it is stored. */
  function NormalizeEmail(email: string): (r: string)
    ensures NormalEmail(r)
  {
    var lower := ToLower(email);
    var r := Trim(lower);
    assert forall i | 0 <= i < |r| :: !Lowerable(r[i]) by {
      forall i | 0 <= i < |r|
        ensures !Lowerable(r[i])
      {
        TrimKeeps(lower, r[i]);
      }
    }
    r
  }

  /** Normalising leaves a normal email as it is. */
  lemma NormalEmailFixed(email: string)
    requires NormalEmail(email)
    ensures NormalizeEmail(email) == email
  {
    assert ToLower(email) == email;
    TrimTrimmed(email);
  }

  /** Normalising an already normalised email changes nothing. */
  lemma NormalizeIdempotent(email: string)
    ensures NormalizeEmail(NormalizeEmail(email)) == NormalizeEmail(email)
  {
    NormalEmailFixed(NormalizeEmail(email));
  }

  /** `findOne({email})`: the first stored user whose email is exactly
      `email`. */
  function FindByEmail(users: seq<User>, email: string): (r: Option<User>)
    ensures r.Some? ==> r.value in users && r.value.email == email
    ensures r.None? <==> forall i | 0 <= i < |users| :: users[i].email != email
  {
    if |users| == 0 then None
    else if users[0].email == email then Some(users[0])
    else FindByEmail(users[1..], email)
  }

  /** `findById(id)`: the stored user with that id. */
  function FindById(users: seq<User>, id: nat): (r: Option<User>)
    ensures r.Some? ==> r.value in users && r.value.id == id
    ensures r.None? <==> forall i | 0 <= i < |users| :: users[i].id != id
  {
    if |users| == 0 then None
    else if users[0].id == id then Some(users[0])
    else FindById(users[1..], id)
  }

  /** What the stores keep true: ids and emails unique (the `unique` index),
      emails normalised, every id drawn before `nextId`, nothing dated after
      the clock, and prompts stored in creation order. */
  ghost predicate Valid(s: Server) {
    && (forall i, j | 0 <= i < j < |s.users| ::
          s.users[i].id != s.users[j].id && s.users[i].email != s.users[j].email)
    && (forall i | 0 <= i < |s.users| ::
          && s.users[i].id < s.nextId
          && NormalEmail(s.users[i].email)
          && s.users[i].joinDate <= s.clock)
    && (forall i | 0 <= i < |s.prompts| :: s.prompts[i].id < s.nextId && s.prompts[i].createdAt <= s.clock)
    && (forall i, j | 0 <= i < j < |s.prompts| ::
          s.prompts[i].id != s.prompts[j].id && s.prompts[i].createdAt <= s.prompts[j].createdAt)
  }

  /** A freshly started server: empty collections. */
  function Initial(): (s: Server)
    ensures Valid(s)
  {
    Server([], [], 0, 0)
  }
}

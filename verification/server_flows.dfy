/** The server as a whole: requests dispatched to the handlers, the store
    invariant every handler keeps, and the flows a client goes through. */
module ServerFlows {
  import opened Options
  import opened JsText
  import opened NodePath
  import opened Collaborators
  import opened ServerState
  import opened AuthGate
  import opened Uploads
  import opened Accounts
  import opened Prompts
  import Config

  /** One request to one of the five API routes. `salt` stands for the
      randomness `bcrypt.hash` draws. */
  datatype Request =
    | RegisterRequest(salt: nat, name: string, email: string, password: string)
    | LoginRequest(email: string, password: string)
    | ProfileRequest(header: Option<string>)
    | SubmitRequest(header: Option<string>, prompt: Option<string>, files: seq<Upload>)
    | HistoryRequest(header: Option<string>)

  /** The route a request reaches, `elapsed` time units after the last one. */
  function Handle(d: Deployment, s: Server, elapsed: nat, req: Request): (st: Step)
    ensures st.reply.status in {Created, BadRequest, Unauthorized, Forbidden, NotFound, ServerError}
    ensures st.next.clock == s.clock + elapsed
    ensures s.users <= st.next.users && s.prompts <= st.next.prompts
    ensures !(req.RegisterRequest? || req.SubmitRequest?) ==> st.next == s.(clock := s.clock + elapsed)
  {
    match req
    case RegisterRequest(salt, name, email, password) => Register(d, s, elapsed, salt, name, email, password)
    case LoginRequest(email, password) => Login(d, s, elapsed, email, password)
    case ProfileRequest(header) => Profile(d, s, elapsed, header)
    case SubmitRequest(header, prompt, files) => Submit(d, s, elapsed, header, prompt, files)
    case HistoryRequest(header) => History(d, s, elapsed, header)
  }

  /** A successful registration keeps the store invariant. */
  lemma RegisterKeepsValid(d: Deployment, s: Server, elapsed: nat, salt: nat, name: string, email: string, password: string)
    requires Valid(s)
    ensures Valid(Register(d, s, elapsed, salt, name, email, password).next)
  {
    var st := Register(d, s, elapsed, salt, name, email, password);
    if st.reply.status == Created {
      var u := NewUser(s, name, email, d.svc.hash(password, d.config.saltRounds, salt), s.clock + elapsed);
      AddUserKeepsValid(s, u, s.clock + elapsed);
      assert st.next == s.(users := s.users + [u], nextId := s.nextId + 1, clock := s.clock + elapsed);
    }
  }

  /** Appending a user with the next id, a normal email not yet stored and
      a join date no later than the new clock keeps the invariant. */
  lemma AddUserKeepsValid(s: Server, u: User, now: nat)
    requires Valid(s) && s.clock <= now
    requires u.id == s.nextId && u.joinDate <= now
    requires NormalEmail(u.email) && FindByEmail(s.users, u.email).None?
    ensures Valid(s.(users := s.users + [u], nextId := s.nextId + 1, clock := now))
  {
    var users := s.users + [u];
    forall i, j | 0 <= i < j < |users|
      ensures users[i].id != users[j].id && users[i].email != users[j].email
    {
      if j == |s.users| {
        assert users[i] == s.users[i];
      }
    }
  }

  /** A successful submission keeps the store invariant: the new prompt's id
      is fresh and it is the newest. */
  lemma SubmitKeepsValid(d: Deployment, s: Server, elapsed: nat, header: Option<string>, prompt: Option<string>, ups: seq<Upload>)
    requires Valid(s)
    ensures Valid(Submit(d, s, elapsed, header, prompt, ups).next)
  {
    var st := Submit(d, s, elapsed, header, prompt, ups);
    if st.reply.status == Created {
      StoreKeepsValid(d.svc, s, s.clock + elapsed, Authenticate(d, header, s.clock + elapsed).claims.userId, prompt.value, Received(ups));
    }
  }

  /** Storing a prompt at a time no earlier than the clock keeps the
      invariant. */
  lemma StoreKeepsValid(svc: Services, s: Server, now: nat, userId: nat, prompt: string, ups: seq<Upload>)
    requires Valid(s) && s.clock <= now
    ensures Valid(Store(svc, s, now, userId, prompt, ups).next)
  {
    var next := Store(svc, s, now, userId, prompt, ups).next;
    var p := next.prompts[|s.prompts|];
    assert next.prompts == s.prompts + [p] by {
      assert next.prompts == next.prompts[..|s.prompts|] + [p];
    }
    AddPromptKeepsValid(s, p, now, next.nextId);
    assert next == s.(prompts := s.prompts + [p], nextId := next.nextId, clock := now);
  }

  /** Appending a prompt with a fresh id below the new counter, created at
      the new clock, keeps the invariant. */
  lemma AddPromptKeepsValid(s: Server, p: PromptRecord, now: nat, nextId: nat)
    requires Valid(s) && s.clock <= now
    requires s.nextId <= p.id < nextId && p.createdAt == now
    ensures Valid(s.(prompts := s.prompts + [p], nextId := nextId, clock := now))
  {
    var ps := s.prompts + [p];
    forall i, j | 0 <= i < j < |ps|
      ensures ps[i].id != ps[j].id && ps[i].createdAt <= ps[j].createdAt
    {
      if j == |s.prompts| {
        assert ps[i] == s.prompts[i];
      }
    }
  }

  /** Every request keeps the store invariant. */
  lemma HandleKeepsValid(d: Deployment, s: Server, elapsed: nat, req: Request)
    requires Valid(s)
    ensures Valid(Handle(d, s, elapsed, req).next)
  {
    match req
    case RegisterRequest(salt, name, email, password) => RegisterKeepsValid(d, s, elapsed, salt, name, email, password);
    case SubmitRequest(header, prompt, files) => SubmitKeepsValid(d, s, elapsed, header, prompt, files);
    case _ =>
  }

  /** The state after serving `reqs` in order, the `i`-th after `gaps[i]`
      time units. */
  function Run(d: Deployment, s: Server, gaps: seq<nat>, reqs: seq<Request>): (r: Server)
    requires |gaps| == |reqs|
    ensures s.users <= r.users && s.prompts <= r.prompts && s.clock <= r.clock
    decreases |reqs|
  {
    if |reqs| == 0 then s
    else Run(d, Handle(d, s, gaps[0], reqs[0]).next, gaps[1..], reqs[1..])
  }

  /** The invariant holds after any sequence of requests served from a
      freshly started server. */
  lemma {:induction false} RunKeepsValid(d: Deployment, s: Server, gaps: seq<nat>, reqs: seq<Request>)
    requires Valid(s) && |gaps| == |reqs|
    ensures Valid(Run(d, s, gaps, reqs))
    decreases |reqs|
  {
    if |reqs| > 0 {
      HandleKeepsValid(d, s, gaps[0], reqs[0]);
      RunKeepsValid(d, Handle(d, s, gaps[0], reqs[0]).next, gaps[1..], reqs[1..]);
    }
  }

  /** The user a successful registration stores. */
  function Registered(d: Deployment, s: Server, elapsed: nat, salt: nat, name: string, email: string, password: string): User {
    NewUser(s, name, email, d.svc.hash(password, d.config.saltRounds, salt), s.clock + elapsed)
  }

  /** After signing up, logging in with the same password succeeds and shows
      the same user, provided the login email is looked up as the stored,
      normalised email. */
  lemma RegisterThenLogin(d: Deployment, s: Server, e1: nat, salt: nat, name: string, email: string, password: string,
                          e2: nat, loginEmail: string)
    requires Lawful(d.svc)
    requires Register(d, s, e1, salt, name, email, password).reply.status == Created
    requires d.lookup(loginEmail) == NormalizeEmail(email)
    ensures var s1 := Register(d, s, e1, salt, name, email, password).next;
            Login(d, s1, e2, loginEmail, password).reply.status == Created
            && Login(d, s1, e2, loginEmail, password).reply.body.user
               == View(Registered(d, s, e1, salt, name, email, password))
  {
    var s1 := Register(d, s, e1, salt, name, email, password).next;
    var u := Registered(d, s, e1, salt, name, email, password);
    assert s1.users == s.users + [u];
    FindAppended(s.users, u, NormalizeEmail(email));
  }

  /** Looking up the email of a user appended after no match finds that
      user. */
  lemma {:induction false} FindAppended(users: seq<User>, u: User, email: string)
    requires FindByEmail(users, email).None? && u.email == email
    ensures FindByEmail(users + [u], email) == Some(u)
    decreases |users|
  {
    if |users| == 0 {
      assert users + [u] == [u];
    } else {
      assert (users + [u])[1..] == users[1..] + [u];
      FindAppended(users[1..], u, email);
    }
  }

  /** What a successful registration does, in one piece: the user is
      appended with the next id and the reply carries the token issued to
      it. */
  lemma RegisterCreated(d: Deployment, s: Server, e1: nat, salt: nat, name: string, email: string, password: string)
    requires Register(d, s, e1, salt, name, email, password).reply.status == Created
    ensures var u := Registered(d, s, e1, salt, name, email, password);
            var st := Register(d, s, e1, salt, name, email, password);
            && u.id == s.nextId
            && st.next == s.(users := s.users + [u], nextId := s.nextId + 1, clock := s.clock + e1)
            && st.reply.body.token == IssueToken(d, u, s.clock + e1)
  {
  }

  /** A token issued to a stored user at time `now` opens the profile
      route on that user for 24 hours, when `JWT_SECRET` is set and
      non-empty. */
  lemma TokenOpensProfile(d: Deployment, s: Server, e: nat, u: User, now: nat)
    requires KeyLoaded(d) && Lawful(d.svc)
    requires "JWT_SECRET" in d.env && d.env["JWT_SECRET"] != ""
    requires FindById(s.users, u.id) == Some(u)
    requires now <= s.clock && s.clock + e < now + TokenLifetime
    ensures Profile(d, s, e, Some(BearerHeader(IssueToken(d, u, now)))).reply == Reply(Created, ProfileBody(View(u)))
  {
    IssuedTokenAdmitted(d, Claims(u.id, u.email), now, s.clock + e);
  }

  /** The token a successful registration returns opens the profile route
      for 24 hours, and the profile is the user just stored, when
      `JWT_SECRET` is set and non-empty. Of the store invariant only the
      freshness of ids is needed. */
  lemma RegisterThenProfile(d: Deployment, s: Server, e1: nat, salt: nat, name: string, email: string, password: string, e2: nat)
    requires forall i | 0 <= i < |s.users| :: s.users[i].id < s.nextId
    requires KeyLoaded(d) && Lawful(d.svc)
    requires "JWT_SECRET" in d.env && d.env["JWT_SECRET"] != ""
    requires Register(d, s, e1, salt, name, email, password).reply.status == Created
    requires e2 < TokenLifetime
    ensures var st := Register(d, s, e1, salt, name, email, password);
            var reply := Profile(d, st.next, e2, Some(BearerHeader(st.reply.body.token))).reply;
            reply == Reply(Created, ProfileBody(View(Registered(d, s, e1, salt, name, email, password))))
  {
    var st := Register(d, s, e1, salt, name, email, password);
    RegisterCreated(d, s, e1, salt, name, email, password);
    NewcomerProfile(d, s, Registered(d, s, e1, salt, name, email, password), s.clock + e1, e2, st.next, st.reply.body.token);
  }

  /** A user appended with a fresh id can open the profile route with the
      token issued to it, for 24 hours. */
  lemma NewcomerProfile(d: Deployment, s: Server, u: User, now: nat, e2: nat, s1: Server, token: string)
    requires forall i | 0 <= i < |s.users| :: s.users[i].id < s.nextId
    requires u.id == s.nextId
    requires KeyLoaded(d) && Lawful(d.svc)
    requires "JWT_SECRET" in d.env && d.env["JWT_SECRET"] != ""
    requires e2 < TokenLifetime
    requires s1 == s.(users := s.users + [u], nextId := s.nextId + 1, clock := now)
    requires token == IssueToken(d, u, now)
    ensures Profile(d, s1, e2, Some(BearerHeader(token))).reply == Reply(Created, ProfileBody(View(u)))
  {
    FindIdAppended(s.users, u);
    TokenOpensProfile(d, s1, e2, u, now);
  }

  /** A user appended with an id no stored user has is found by that id. */
  lemma {:induction false} FindIdAppended(users: seq<User>, u: User)
    requires forall i | 0 <= i < |users| :: users[i].id != u.id
    ensures FindById(users + [u], u.id) == Some(u)
    decreases |users|
  {
    if |users| == 0 {
      assert users + [u] == [u];
    } else {
      assert (users + [u])[1..] == users[1..] + [u];
      FindIdAppended(users[1..], u);
    }
  }

  /** When lookups compare emails as given, as Mongoose did before
      version 5, signing up again with a
      differently written form of a stored email passes the pre-check and
      fails only at the unique index: 500, not 400. */
  lemma DuplicateCaughtByIndex(d: Deployment, s: Server, elapsed: nat, salt: nat, name: string, email: string, password: string, u: User)
    requires Valid(s) && u in s.users
    requires d.lookup(email) == email && email != NormalizeEmail(email) && NormalizeEmail(email) == u.email
    ensures Register(d, s, elapsed, salt, name, email, password).reply == Fail(ServerError, "Server error during registration")
  {
    UnnormalizedNotStored(s, email);
  }

  /** When lookups apply the schema's `lowercase` and `trim` to the email
      first, as Mongoose 5 and later do for query filters, signing up
      again with any written form of a stored email is refused by the
      pre-check: 400 "User already exists". */
  lemma DuplicateCaughtByPreCheck(d: Deployment, s: Server, elapsed: nat, salt: nat, name: string, email: string, password: string, u: User)
    requires forall e :: d.lookup(e) == NormalizeEmail(e)
    requires u in s.users && NormalizeEmail(email) == u.email
    ensures Register(d, s, elapsed, salt, name, email, password).reply == Fail(BadRequest, "User already exists")
  {
    assert FindByEmail(s.users, d.lookup(email)).Some? by {
      var i :| 0 <= i < |s.users| && s.users[i] == u;
    }
  }

  /** On a valid server no stored email is a text that normalising would
      change. */
  lemma UnnormalizedNotStored(s: Server, email: string)
    requires Valid(s) && email != NormalizeEmail(email)
    ensures FindByEmail(s.users, email).None?
  {
    forall i | 0 <= i < |s.users|
      ensures s.users[i].email != email
    {
      NormalEmailFixed(s.users[i].email);
    }
  }

  /** The schema's `minlength: 6` never refuses a short password: it is
      checked against the 60-character hash. */
  lemma ShortPasswordAccepted(d: Deployment, s: Server, elapsed: nat, salt: nat, name: string, email: string, password: string)
    requires Lawful(d.svc)
    requires FindByEmail(s.users, d.lookup(email)).None? && FindByEmail(s.users, NormalizeEmail(email)).None?
    requires Trim(name) != "" && NormalizeEmail(email) != ""
    ensures Register(d, s, elapsed, salt, name, email, password).reply.status == Created
  {
    assert |d.svc.hash(password, d.config.saltRounds, salt)| == 60;
  }

  /** A prompt appended for its owner comes last in the owner's
      prompts. */
  lemma OwnedAppended(ps: seq<PromptRecord>, p: PromptRecord)
    ensures Owned(ps + [p], p.userId) == Owned(ps, p.userId) + [p]
  {
    assert (ps + [p])[..|ps|] == ps;
  }

  /** An admitted caller gets its recent prompts. */
  lemma HistoryAdmitted(d: Deployment, s: Server, e: nat, header: Option<string>, c: Claims)
    requires Authenticate(d, header, s.clock + e) == Admitted(c)
    ensures History(d, s, e, header).reply == Reply(Created, PromptsBody(Recent(Owned(s.prompts, c.userId))))
  {
  }

  /** The prompt a successful submission stores is the last one, owned by
      the caller. */
  lemma StoreAppends(svc: Services, s: Server, now: nat, userId: nat, prompt: string, ups: seq<Upload>)
    ensures var next := Store(svc, s, now, userId, prompt, ups).next;
            && next.clock == now
            && next.prompts == s.prompts + [next.prompts[|s.prompts|]]
            && next.prompts[|s.prompts|].userId == userId
  {
  }

  /** A caller whose prompt is the last stored sees it first. */
  lemma LastPromptShownFirst(d: Deployment, s: Server, header: Option<string>, c: Claims, before: seq<PromptRecord>, p: PromptRecord)
    requires Authenticate(d, header, s.clock) == Admitted(c)
    requires s.prompts == before + [p] && p.userId == c.userId
    ensures History(d, s, 0, header).reply == Reply(Created, PromptsBody(Recent(Owned(s.prompts, c.userId))))
    ensures |Recent(Owned(s.prompts, c.userId))| > 0 && Recent(Owned(s.prompts, c.userId))[0] == p
  {
    OwnedAppended(before, p);
    HistoryAdmitted(d, s, 0, header, c);
  }

  /** Right after a successful submission, which stores through `Store`,
      the submitter's history at the same instant starts with the new
      prompt. */
  lemma StoreThenHistory(d: Deployment, s: Server, now: nat, header: Option<string>, c: Claims, prompt: string, ups: seq<Upload>)
    requires Authenticate(d, header, now) == Admitted(c)
    ensures var s1 := Store(d.svc, s, now, c.userId, prompt, ups).next;
            && History(d, s1, 0, header).reply.status == Created
            && |History(d, s1, 0, header).reply.body.prompts| > 0
            && History(d, s1, 0, header).reply.body.prompts[0] == s1.prompts[|s.prompts|]
  {
    StoreAppends(d.svc, s, now, c.userId, prompt, ups);
    var s1 := Store(d.svc, s, now, c.userId, prompt, ups).next;
    LastPromptShownFirst(d, s1, header, c, s.prompts, s1.prompts[|s.prompts|]);
  }

  /** With `JWT_SECRET` unset, none of the protected routes ever succeeds. */
  lemma NoSecretNoProtectedRoute(d: Deployment, s: Server, elapsed: nat, req: Request)
    requires KeyLoaded(d) && "JWT_SECRET" !in d.env
    requires req.ProfileRequest? || req.SubmitRequest? || req.HistoryRequest?
    ensures Handle(d, s, elapsed, req).reply.status != Created
  {
    NoSecretNoAccess(d, req.header, s.clock + elapsed);
  }

  /** A single named file the filter refuses sinks an otherwise good
      submission with Express's error page for the filter's error. */
  lemma SingleFileRefused(d: Deployment, s: Server, elapsed: nat, header: Option<string>, prompt: Option<string>, u: Upload)
    requires Authenticate(d, header, s.clock + elapsed).Admitted?
    requires u.originalName != "" && !ExtensionAllowed(u.originalName)
    ensures Submit(d, s, elapsed, header, prompt, [u]).reply == Crash("Only .txt and .docker files are allowed")
  {
    var ups := [u];
    assert FirstRejection(Received(ups)) == Some(BadExtension) by {
      ReceivedAllNamed(ups);
      assert RejectionAt(0, ups[0]) == Some(BadExtension);
      FirstRefusedDecides(ups, 0);
    }
  }

  /** A part without a filename changes nothing: the submission is answered
      and stored as if it had not been sent. */
  lemma UnnamedPartIgnored(d: Deployment, s: Server, elapsed: nat, header: Option<string>, prompt: Option<string>,
                           before: seq<Upload>, u: Upload, after: seq<Upload>)
    requires u.originalName == ""
    ensures Submit(d, s, elapsed, header, prompt, before + [u] + after) == Submit(d, s, elapsed, header, prompt, before + after)
  {
    assert Received(before + [u] + after) == Received(before + after) by {
      ReceivedAppend(before + [u], after);
      ReceivedAppend(before, [u]);
      ReceivedAppend(before, after);
      assert Received([u]) == [];
    }
  }
}

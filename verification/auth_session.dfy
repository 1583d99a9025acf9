/** The client's session (`AuthContext`): the signed-in user, the loading
    flag, and the two storage entries that carry the session across page
    loads. The server's answers and the clock are inputs. */
module AuthSession {
  import opened Options
  import opened JsText
  import opened WebStorage

  const UserKey := "clustify-user"
  const TokenKey := "clustify-token"
  const DemoEmail := "demo@clustify.com"
  const DemoPassword := "demo123"
  const LoginFallback := "Something went wrong during login."

  /** The user object the client keeps, as the server's responses carry it
      or as the demo login makes it up. */
  datatype Profile = Profile(id: string, name: string, email: string, joinDate: string)

  /** `JSON.stringify` and `JSON.parse` on user objects; `parse` gives
      `None` where `JSON.parse` throws. */
  datatype Codec = Codec(stringify: Profile -> string, parse: string -> Option<Profile>)

  /** The provider's state: `user`, `isLoading` and the storage. */
  datatype Session = Session(user: Option<Profile>, isLoading: bool, storage: Storage)

  /** What a call to `login` or `register` returns, the text it shows with
      `alert`, if any, and the state it leaves behind. */
  datatype Outcome = Outcome(ok: bool, alert: Option<string>, session: Session)

  /** How the request to the server ended: a 2xx answer with its `token`
      and `user`, or a thrown error with the `error` field of the response
      body, if there was one, and the error's own message. */
  datatype Answer =
    | Answered(token: string, user: Profile)
    | Failed(serverError: Option<string>, message: string)

  /** A freshly mounted provider over the storage the browser kept: no user
      yet, and loading. */
  function Start(storage: Storage): Session {
    Session(None, true, storage)
  }

  /** Whether the storage holds a saved user, in the truthy sense the mount
      effect tests. */
  predicate HasSavedUser(storage: Storage) {
    UserKey in storage && storage[UserKey] != ""
  }

  /** The mount effect: a saved user is parsed and becomes the user, and
      loading ends. When `JSON.parse` throws, the error escapes the effect
      before `setIsLoading(false)`: `None`. The storage is only read. */
  function Restore(codec: Codec, s: Session): (r: Option<Session>)
    ensures r.None? <==> HasSavedUser(s.storage) && codec.parse(s.storage[UserKey]).None?
    ensures r.Some? ==> !r.value.isLoading && r.value.storage == s.storage
    ensures r.Some? && HasSavedUser(s.storage) ==> r.value.user == codec.parse(s.storage[UserKey])
    ensures r.Some? && !HasSavedUser(s.storage) ==> r.value.user == s.user
  {
    if !HasSavedUser(s.storage) then Some(s.(isLoading := false))
    else
      match codec.parse(s.storage[UserKey])
      case None => None
      case Some(u) => Some(s.(user := Some(u), isLoading := false))
  }

  /** `new Date().toISOString().split("T")[0]`: the text of `iso` before
      its first `T`. */
  function DatePart(iso: string): (d: string)
    ensures 'T' !in d && |d| <= |iso| && d == iso[..|d|]
    ensures |d| < |iso| ==> iso[|d|] == 'T'
  {
    if 'T' in iso then iso[..IndexOf(iso, 'T')] else iso
  }

  predicate IsDemo(email: string, password: string) {
    email == DemoEmail && password == DemoPassword
  }

  /** The user the demo credentials sign in as, dated from the ISO time
      `now`. */
  function DemoUser(email: string, now: string): (p: Profile)
    ensures p.id == "1" && p.name == "Demo User"
    ensures p.email == email && p.joinDate <= now && 'T' !in p.joinDate
  {
    Profile("1", "Demo User", email, DatePart(now))
  }

  /** The text `login` alerts on failure: the server's `error`, else the
      error's message, else a fixed fallback, each taken only when
      non-empty. */
  function AlertText(serverError: Option<string>, message: string): (t: string)
    ensures t != ""
    ensures serverError.Some? && serverError.value != "" ==> t == serverError.value
    ensures (serverError.None? || serverError.value == "") && message != "" ==> t == message
    ensures serverError == Some(t) || t == message || t == LoginFallback
  {
    if serverError.Some? && serverError.value != "" then serverError.value
    else if message != "" then message
    else LoginFallback
  }

  /** `login(email, password)` at ISO time `now`, the server answering
      `answer` if it is asked. The demo credentials never reach the server:
      they store the demo user, leave the token entry and the loading flag
      as they were, and succeed. Otherwise a 2xx answer stores the token
      and the user, a failure alerts and changes neither the user nor the
      storage, and either way loading ends. */
  function Login(codec: Codec, s: Session, email: string, password: string, now: string, answer: Answer): (o: Outcome)
    ensures o.ok <==> IsDemo(email, password) || answer.Answered?
    ensures o.alert.Some? <==> !o.ok
    ensures IsDemo(email, password) ==>
              && o.session.user == Some(DemoUser(email, now))
              && GetItem(o.session.storage, UserKey) == Some(codec.stringify(DemoUser(email, now)))
              && OthersKept(o.session.storage, s.storage, {UserKey})
              && o.session.isLoading == s.isLoading
    ensures !IsDemo(email, password) ==> !o.session.isLoading
    ensures !IsDemo(email, password) && answer.Answered? ==>
              && o.session.user == Some(answer.user)
              && GetItem(o.session.storage, TokenKey) == Some(answer.token)
              && GetItem(o.session.storage, UserKey) == Some(codec.stringify(answer.user))
              && OthersKept(o.session.storage, s.storage, {UserKey, TokenKey})
    ensures !IsDemo(email, password) && answer.Failed? ==>
              && o.session.user == s.user && o.session.storage == s.storage
              && o.alert == Some(AlertText(answer.serverError, answer.message))
  {
    if IsDemo(email, password) then
      var demo := DemoUser(email, now);
      Outcome(true, None, s.(user := Some(demo), storage := s.storage[UserKey := codec.stringify(demo)]))
    else
      match answer
      case Answered(token, u) =>
        Outcome(true, None, Session(Some(u), false, s.storage[TokenKey := token][UserKey := codec.stringify(u)]))
      case Failed(serverError, message) =>
        Outcome(false, Some(AlertText(serverError, message)), s.(isLoading := false))
  }

  /** `register(email, password, name)`, the server answering `answer`: a
      2xx answer stores the token and the user; a failure is only logged
      and changes neither the user nor the storage; either way loading
      ends. Nothing is alerted. */
  function Register(codec: Codec, s: Session, answer: Answer): (o: Outcome)
    ensures o.ok <==> answer.Answered?
    ensures o.alert.None? && !o.session.isLoading
    ensures answer.Answered? ==>
              && o.session.user == Some(answer.user)
              && GetItem(o.session.storage, TokenKey) == Some(answer.token)
              && GetItem(o.session.storage, UserKey) == Some(codec.stringify(answer.user))
              && OthersKept(o.session.storage, s.storage, {UserKey, TokenKey})
    ensures answer.Failed? ==> o.session.user == s.user && o.session.storage == s.storage
  {
    match answer
    case Answered(token, u) =>
      Outcome(true, None, Session(Some(u), false, s.storage[TokenKey := token][UserKey := codec.stringify(u)]))
    case Failed(_, _) => Outcome(false, None, s.(isLoading := false))
  }

  /** `logout()`: no user, and neither storage entry; every other entry and
      the loading flag stay. */
  function Logout(s: Session): (r: Session)
    ensures r.user.None? && r.isLoading == s.isLoading
    ensures GetItem(r.storage, UserKey).None? && GetItem(r.storage, TokenKey).None?
    ensures OthersKept(r.storage, s.storage, {UserKey, TokenKey})
  {
    Session(None, s.isLoading, s.storage - {UserKey, TokenKey})
  }

  /** The storage carries the session's user: the user's text under the
      user key, or no saved user at all when nobody is signed in. */
  predicate Persisted(codec: Codec, s: Session) {
    match s.user
    case None => !HasSavedUser(s.storage)
    case Some(u) => GetItem(s.storage, UserKey) == Some(codec.stringify(u))
  }

  /** The codec reads `u` back from its own text, and that text is truthy,
      as `JSON.stringify` of an object always is. */
  predicate ReadsBack(codec: Codec, u: Profile) {
    codec.parse(codec.stringify(u)) == Some(u) && codec.stringify(u) != ""
  }

  /** Reloading the page over a persisted session brings the same user
      back. */
  lemma ReloadRestores(codec: Codec, s: Session)
    requires Persisted(codec, s)
    requires s.user.Some? ==> ReadsBack(codec, s.user.value)
    ensures Restore(codec, Start(s.storage)) == Some(Session(s.user, false, s.storage))
  {
    if s.user.Some? {
      assert HasSavedUser(s.storage) && s.storage[UserKey] == codec.stringify(s.user.value);
    }
  }

  /** Login keeps the storage in step with the user: success writes the
      user it signs in, failure touches neither. */
  lemma LoginPersists(codec: Codec, s: Session, email: string, password: string, now: string, answer: Answer)
    requires Persisted(codec, s)
    ensures Persisted(codec, Login(codec, s, email, password, now, answer).session)
  {
  }

  /** Registration keeps the storage in step with the user. */
  lemma RegisterPersists(codec: Codec, s: Session, answer: Answer)
    requires Persisted(codec, s)
    ensures Persisted(codec, Register(codec, s, answer).session)
  {
  }

  /** Logout leaves nothing for a reload to restore. */
  lemma LogoutThenReload(codec: Codec, s: Session)
    ensures Restore(codec, Start(Logout(s).storage)) == Some(Session(None, false, Logout(s).storage))
  {
    assert !HasSavedUser(Logout(s).storage);
  }

  /** After a successful login, a reload signs the same user in again and
      the token stays stored. */
  lemma LoginThenReload(codec: Codec, s: Session, email: string, password: string, now: string, answer: Answer)
    requires Login(codec, s, email, password, now, answer).ok
    requires ReadsBack(codec, Login(codec, s, email, password, now, answer).session.user.value)
    ensures var after := Login(codec, s, email, password, now, answer).session;
            && Restore(codec, Start(after.storage)) == Some(Session(after.user, false, after.storage))
            && (!IsDemo(email, password) ==> GetItem(after.storage, TokenKey) == Some(answer.token))
  {
    var after := Login(codec, s, email, password, now, answer).session;
    assert Persisted(codec, after);
    ReloadRestores(codec, after);
  }

  /** The demo login does not depend on the server at all. */
  lemma DemoIgnoresServer(codec: Codec, s: Session, now: string, a: Answer, b: Answer)
    ensures Login(codec, s, DemoEmail, DemoPassword, now, a) == Login(codec, s, DemoEmail, DemoPassword, now, b)
  {
  }
}

/** The prompt routes: `POST /api/prompts` (submission with files) and
    `GET /api/prompts` (the caller's history). */
module Prompts {
  import opened Options
  import opened JsNumber
  import opened Collaborators
  import opened ServerState
  import opened AuthGate
  import opened Uploads

  const Opening := "Thank you for your prompt: \""
  const Middle := "\". I've received "
  const Closing := " file(s) for processing. This is a mock response from the server. In a real implementation, this would be processed by an AI agent."

  /** The mock answer the server stores and returns for a prompt with
      `count` files. */
  function MockResponse(prompt: string, count: nat): (r: string)
    ensures |r| >= |Opening| + |Closing| && r[..|Opening|] == Opening && r[|r| - |Closing|..] == Closing
  {
    Opening + prompt + Middle + Decimal(count) + Closing
  }

  /** Length of the longest all-decimal-digit suffix of `s`. */
  function TrailingDigits(s: string): (n: nat)
    ensures n <= |s|
    ensures AllRadixDigits(s[|s| - n..], 10)
    ensures n == |s| || !IsDecimalDigit(s[|s| - n - 1])
  {
    if |s| == 0 || !IsDecimalDigit(s[|s| - 1]) then 0
    else
      var t := s[..|s| - 1];
      var n := 1 + TrailingDigits(t);
      assert s[|s| - n..] == t[|t| - (n - 1)..] + [s[|s| - 1]];
      n
  }

  /** Reads a mock response back into the prompt and the file count it
      reports, reading the count from the right so that a prompt containing
      the middle text is still recovered whole. */
  function ReadMockResponse(r: string): (m: Option<(string, nat)>)
    ensures m.Some? ==> |r| >= |Opening| + |Closing| && r[..|Opening|] == Opening && r[|r| - |Closing|..] == Closing
  {
    if |r| < |Opening| + |Closing| || r[..|Opening|] != Opening || r[|r| - |Closing|..] != Closing then None
    else
      var inner := r[|Opening|..|r| - |Closing|];
      var n := TrailingDigits(inner);
      var head := inner[..|inner| - n];
      if n == 0 || |head| < |Middle| || head[|head| - |Middle|..] != Middle then None
      else Some((head[..|head| - |Middle|], ValueOf(inner[|inner| - n..], 10)))
  }

  /** The prompt and the file count can be read back from the response,
      whatever the prompt says. */
  lemma MockResponseRoundTrip(prompt: string, count: nat)
    ensures ReadMockResponse(MockResponse(prompt, count)) == Some((prompt, count))
  {
    var ds := Decimal(count);
    var r := MockResponse(prompt, count);
    assert r[..|Opening|] == Opening;
    var inner := r[|Opening|..|r| - |Closing|];
    assert inner == prompt + Middle + ds;
    TrailingDigitsOf(prompt + Middle, ds);
    var head := inner[..|inner| - |ds|];
    assert head == prompt + Middle;
    assert head[|head| - |Middle|..] == Middle;
    assert inner[|inner| - |ds|..] == ds;
  }

  /** Digits after a text that ends in a non-digit form the whole digit
      suffix. */
  lemma {:induction false} TrailingDigitsOf(head: string, ds: string)
    requires |head| > 0 && !IsDecimalDigit(head[|head| - 1])
    requires AllRadixDigits(ds, 10)
    ensures TrailingDigits(head + ds) == |ds|
    decreases |ds|
  {
    var s := head + ds;
    if |ds| == 0 {
      assert s == head;
    } else {
      assert s[..|s| - 1] == head + ds[..|ds| - 1];
      assert IsRadixDigit(ds[|ds| - 1], 10);
      TrailingDigitsOf(head, ds[..|ds| - 1]);
    }
  }

  /** `Prompt.find({ userId })`: the caller's prompts, in insertion order. */
  function Owned(ps: seq<PromptRecord>, userId: nat): (r: seq<PromptRecord>)
    ensures |r| <= |ps|
    ensures forall i | 0 <= i < |r| :: r[i] in ps && r[i].userId == userId
  {
    if |ps| == 0 then []
    else
      var init := ps[..|ps| - 1];
      var rest := Owned(init, userId);
      var last := ps[|ps| - 1];
      assert forall i | 0 <= i < |rest| :: rest[i] in ps by {
        assert forall x | x in init :: x in ps;
      }
      if last.userId == userId then rest + [last] else rest
  }

  /** Conversely, every prompt of the caller's is found. */
  lemma {:induction false} OwnedComplete(ps: seq<PromptRecord>, userId: nat, p: PromptRecord)
    requires p in ps && p.userId == userId
    ensures p in Owned(ps, userId)
    decreases |ps|
  {
    var init := ps[..|ps| - 1];
    if p != ps[|ps| - 1] {
      assert ps == init + [ps[|ps| - 1]];
      OwnedComplete(init, userId, p);
    }
  }

  /** `.limit(20)`. */
  const HistoryLimit: nat := 20

  /** Creation times never decrease along `ps`. */
  predicate InCreationOrder(ps: seq<PromptRecord>) {
    forall i, j | 0 <= i < j < |ps| :: ps[i].createdAt <= ps[j].createdAt
  }

  /** Creation times never increase along `ps`. */
  predicate NewestFirst(ps: seq<PromptRecord>) {
    forall i, j | 0 <= i < j < |ps| :: ps[i].createdAt >= ps[j].createdAt
  }

  /** `s` backwards. */
  function Reverse<T>(s: seq<T>): (r: seq<T>)
    ensures |r| == |s|
    ensures forall i | 0 <= i < |s| :: r[i] == s[|s| - 1 - i]
  {
    if |s| == 0 then [] else [s[|s| - 1]] + Reverse(s[..|s| - 1])
  }

  /** How many prompts the history shows out of `n`. */
  function Shown(n: nat): (k: nat)
    ensures k <= n && k <= HistoryLimit
    ensures k == n || k == HistoryLimit
  {
    if n < HistoryLimit then n else HistoryLimit
  }

  /** `.sort({ createdAt: -1 }).limit(20)` on prompts kept in creation
      order: the `i`-th shown is the `i`-th from the end, so the last twenty
      come newest first. Prompts created in the same instant come out in
      reverse insertion order. */
  function Recent(owned: seq<PromptRecord>): (r: seq<PromptRecord>)
    ensures |r| == Shown(|owned|)
    ensures forall i | 0 <= i < |r| :: r[i] == owned[|owned| - 1 - i]
    ensures InCreationOrder(owned) ==> NewestFirst(r)
  {
    Reverse(owned[|owned| - Shown(|owned|)..])
  }

  /** Keeping only one user's prompts keeps the creation order. */
  lemma {:induction false} OwnedInCreationOrder(ps: seq<PromptRecord>, userId: nat)
    requires InCreationOrder(ps)
    ensures InCreationOrder(Owned(ps, userId))
    decreases |ps|
  {
    if |ps| > 0 {
      var init := ps[..|ps| - 1];
      var last := ps[|ps| - 1];
      OwnedInCreationOrder(init, userId);
      var rest := Owned(init, userId);
      forall i | 0 <= i < |rest|
        ensures rest[i].createdAt <= last.createdAt
      {
        var j :| 0 <= j < |init| && init[j] == rest[i];
      }
    }
  }

  /** The write of a successful submission at time `now`: the files take
      uuid numbers `nextId` onwards, the prompt the id after them, and the
      stored record carries the caller's id, the prompt text, the file
      descriptors and the mock response. */
  function Store(svc: Services, s: Server, now: nat, userId: nat, prompt: string, ups: seq<Upload>): (st: Step)
    ensures st.next.users == s.users && st.next.clock == now && st.next.nextId > s.nextId
    ensures |st.next.prompts| == |s.prompts| + 1 && st.next.prompts[..|s.prompts|] == s.prompts
    ensures var p := st.next.prompts[|s.prompts|];
            && p.userId == userId && p.prompt == prompt && p.createdAt == now
            && s.nextId <= p.id < st.next.nextId
            && p.files == FileRecords(svc, s.nextId, ups)
            && (forall k | 0 <= k < |ups| :: p.files[k].originalName == ups[k].originalName)
            && p.response == MockResponse(prompt, |ups|)
            && st.reply == Reply(Created, SubmittedBody("Prompt processed successfully", p.response, p.id))
  {
    var id := s.nextId + |ups|;
    var response := MockResponse(prompt, |ups|);
    var p := PromptRecord(id, userId, prompt, FileRecords(svc, s.nextId, ups), response, now);
    var next := s.(prompts := s.prompts + [p], nextId := id + 1, clock := now);
    assert next.prompts[..|s.prompts|] == s.prompts;
    Step(Reply(Created, SubmittedBody("Prompt processed successfully", response, id)), next)
  }

  /** `POST /api/prompts`: the gate first, then multer, which drops the
      parts without a filename and passes its rejections to Express's
      default error handler (500 and its error page); then a missing or
      empty prompt fails the schema's `required` check at save time and
      lands in the catch. Only a 201 writes, recording the files multer
      handed on. */
  function Submit(d: Deployment, s: Server, elapsed: nat, header: Option<string>, prompt: Option<string>, ups: seq<Upload>): (st: Step)
    ensures st.reply.status in {Created, Unauthorized, Forbidden, ServerError}
    ensures Authenticate(d, header, s.clock + elapsed).Refused? ==>
              st.reply == Authenticate(d, header, s.clock + elapsed).reply
    ensures Authenticate(d, header, s.clock + elapsed).Admitted? && FirstRejection(Received(ups)).Some? ==>
              st.reply == Crash(FirstRejection(Received(ups)).value.Message())
    ensures Authenticate(d, header, s.clock + elapsed).Admitted? && FirstRejection(Received(ups)).None?
            && (prompt.None? || prompt.value == "") ==>
              st.reply == Fail(ServerError, "Server error processing prompt")
    ensures st.reply.status == Created <==>
              && Authenticate(d, header, s.clock + elapsed).Admitted?
              && FirstRejection(Received(ups)).None?
              && prompt.Some? && prompt.value != ""
    ensures st.reply.status != Created ==> st.next == s.(clock := s.clock + elapsed)
    ensures st.reply.status == Created ==>
              st == Store(d.svc, s, s.clock + elapsed, Authenticate(d, header, s.clock + elapsed).claims.userId,
                          prompt.value, Received(ups))
  {
    var now := s.clock + elapsed;
    var s0 := s.(clock := now);
    match Authenticate(d, header, now)
    case Refused(reply) => Step(reply, s0)
    case Admitted(claims) =>
      var files := Received(ups);
      var rejection := FirstRejection(files);
      if rejection.Some? then Step(Crash(rejection.value.Message()), s0)
      else if prompt.None? || prompt.value == "" then Step(Fail(ServerError, "Server error processing prompt"), s0)
      else Store(d.svc, s, now, claims.userId, prompt.value, files)
  }

  /** `GET /api/prompts`: behind the gate, the caller's twenty most recent
      prompts, newest first. Nothing is written. */
  function History(d: Deployment, s: Server, elapsed: nat, header: Option<string>): (st: Step)
    ensures st.next == s.(clock := s.clock + elapsed)
    ensures st.reply.status in {Created, Unauthorized, Forbidden}
    ensures Authenticate(d, header, s.clock + elapsed).Refused? ==>
              st.reply == Authenticate(d, header, s.clock + elapsed).reply
    ensures st.reply.status == Created <==> Authenticate(d, header, s.clock + elapsed).Admitted?
    ensures st.reply.status == Created ==>
              && st.reply.body.PromptsBody?
              && var userId := Authenticate(d, header, s.clock + elapsed).claims.userId;
                 && (forall i | 0 <= i < |st.reply.body.prompts| ::
                       st.reply.body.prompts[i] in s.prompts && st.reply.body.prompts[i].userId == userId)
                 && |st.reply.body.prompts| == Shown(|Owned(s.prompts, userId)|)
                 && st.reply.body.prompts == Recent(Owned(s.prompts, userId))
  {
    var now := s.clock + elapsed;
    var s0 := s.(clock := now);
    match Authenticate(d, header, now)
    case Refused(reply) => Step(reply, s0)
    case Admitted(claims) => Step(Reply(Created, PromptsBody(Recent(Owned(s.prompts, claims.userId)))), s0)
  }

  /** The twenty shown are the newest: every prompt left out, one of the
      first `|owned| - Shown(|owned|)`, is no newer than any shown. */
  lemma RecentAreNewest(owned: seq<PromptRecord>)
    requires InCreationOrder(owned)
    ensures forall i, j | 0 <= i < |owned| - Shown(|owned|) && 0 <= j < |Recent(owned)| ::
              owned[i].createdAt <= Recent(owned)[j].createdAt
  {
    var r := Recent(owned);
    forall i, j | 0 <= i < |owned| - Shown(|owned|) && 0 <= j < |r|
      ensures owned[i].createdAt <= r[j].createdAt
    {
      assert r[j] == owned[|owned| - 1 - j];
    }
  }

  /** On a valid server the history is newest first, and no prompt of the
      caller's left out is newer than one shown. */
  lemma HistoryNewest(d: Deployment, s: Server, elapsed: nat, header: Option<string>)
    requires Valid(s)
    requires History(d, s, elapsed, header).reply.status == Created
    ensures var shown := History(d, s, elapsed, header).reply.body.prompts;
            var owned := Owned(s.prompts, Authenticate(d, header, s.clock + elapsed).claims.userId);
            && NewestFirst(shown)
            && forall i, j | 0 <= i < |owned| - |shown| && 0 <= j < |shown| :: owned[i].createdAt <= shown[j].createdAt
  {
    var userId := Authenticate(d, header, s.clock + elapsed).claims.userId;
    assert InCreationOrder(s.prompts);
    OwnedInCreationOrder(s.prompts, userId);
    RecentAreNewest(Owned(s.prompts, userId));
  }
}

/**
 The auto-resolve protocol of `AuthzMiddleware` as a transition system over the event loop.

 A step is a stretch of code without an `await`. The scheduler, the clock, Duar's answers,
 the outcome of signature checks and disconnecting callers are chosen by the environment.
 `log` and `failed`, and the mint number carried with a token, are history variables:
 no branch of `Step` looks at them.
 */
module MintProtocol {
  import opened Common
  import opened OrderedDict
  import opened Identifiers
  import opened ResolveCache

  /** The claims of a verified authz token that the middleware reads. */
  datatype Claims = Claims(idpSub: Option<string>, svc: Option<string>, wid: Option<string>, otherClaimsParse: bool)

  /** Library code: the parser of UUID text and the content of a token. */
  datatype World = World(parseUuid: string -> Option<Uuid>, decode: string -> Claims)

  /** A request whose IdP token has been verified: its `sub` claim and its two optional headers. */
  datatype Incoming = Incoming(sub: Option<string>, workspaceHeader: Option<string>, authzHeader: Option<string>)

  /** How a request came by its authz token. */
  datatype Source = Presented | Resolved(key: string, mint: nat)

  datatype Phase =
    | Waiting(key: string, task: nat)
    | Holding(token: string, source: Source)
    | Admitted(workspace: Uuid, token: string, source: Source)
    | Replied(status: int)
    | Cancelled

  datatype Request = Request(incoming: Incoming, phase: Phase)

  datatype Outcome = Minting | Minted(token: string, mint: nat) | MintFailed(status: Option<int>) | MintCancelled
  datatype Task = Task(key: string, sub: string, workspace: Uuid, outcome: Outcome)

  /** What `/authz/resolve` came back with; `token` is `None` unless the body is an object with a string there. */
  datatype Answer = Body(token: Option<string>, expiresIn: Option<real>) | Unusable | Refused(status: Option<int>)

  datatype State = State(
    now: real,
    cache: Cache,               // _resolve_cache
    pending: map<string, nat>,  // _resolve_pending
    tasks: seq<Task>,           // every mint task ever created
    doneQueue: seq<nat>,        // finished tasks whose _done callback has not run yet
    requests: map<nat, Request>,
    log: seq<Mint>,
    failed: set<string>)        // auto-resolved tokens that failed verification

  datatype Event =
    | Tick(dt: real)
    | Arrive(r: nat, incoming: Incoming)
    | MintReturns(task: nat, answer: Answer)
    | DoneRuns
    | Resume(r: nat)
    | Disconnect(r: nat)
    | Verified(r: nat, scope: string)
    | VerifyFails(r: nat)

  function Init(now: real): State {
    State(now, [], map[], [], [], map[], [], {})
  }

  /** The key a request is resolved under, when its subject and workspace header are usable. */
  function ResolveKey(w: World, q: Incoming): Option<string> {
    if Truthy(q.sub) && Truthy(q.workspaceHeader) && w.parseUuid(q.workspaceHeader.value).Some? then
      Some(CacheKey(q.sub.value, w.parseUuid(q.workspaceHeader.value).value))
    else
      None
  }

  function WithPhase(s: State, r: nat, phase: Phase): State
    requires r in s.requests
  {
    s.(requests := s.requests[r := s.requests[r].(phase := phase)])
  }

  /** The cache hit test: present, and the deadline strictly in the future. */
  function CacheHit(cache: Cache, key: string, now: real): Option<string> {
    match Get(cache, key)
    case Some(c) => if c.deadline > now then Some(c.token) else None
    case None => None
  }

  /** Where an arriving request goes, and the mint it starts, if any. */
  datatype Placement = Placement(phase: Phase, starts: Option<Task>)

  /** Cache, then in-flight mint, then a new mint. */
  function AutoResolve(s: State, sub: string, workspace: Uuid): Placement {
    var key := CacheKey(sub, workspace);
    match CacheHit(s.cache, key, s.now)
    case Some(token) =>
      var n := LastMint(s.log, key);
      Placement(Holding(token, Resolved(key, if n < 0 then 0 else n)), None)
    case None =>
      if key in s.pending then
        Placement(Waiting(key, s.pending[key]), None)
      else
        Placement(Waiting(key, |s.tasks|), Some(Task(key, sub, workspace, Minting)))
  }

  function Place(w: World, s: State, q: Incoming): Placement {
    if Truthy(q.authzHeader) then Placement(Holding(q.authzHeader.value, Presented), None)
    else if !Truthy(q.sub) then Placement(Replied(401), None)
    else if !Truthy(q.workspaceHeader) then Placement(Replied(401), None)
    else
      match w.parseUuid(q.workspaceHeader.value)
      case None => Placement(Replied(400), None)
      case Some(u) => AutoResolve(s, q.sub.value, u)
  }

  function StepArrive(s: State, r: nat, q: Incoming, p: Placement): State {
    var f := s.(requests := s.requests[r := Request(q, p.phase)]);
    match p.starts
    case None => f
    case Some(task) => f.(tasks := s.tasks + [task], pending := s.pending[task.key := |s.tasks|])
  }

  /** The task ends; its `_done` callback is queued. */
  function Finish(s: State, t: nat, outcome: Outcome): State
    requires t < |s.tasks|
  {
    s.(tasks := s.tasks[t := s.tasks[t].(outcome := outcome)], doneQueue := s.doneQueue + [t])
  }

  function OutcomeOf(answer: Answer, number: nat): Outcome {
    match answer
    case Refused(status) => MintFailed(status)
    case Unusable => MintFailed(None)
    case Body(token, _) => if Truthy(token) then Minted(token.value, number) else MintFailed(None)
  }

  function StepMintReturns(s: State, t: nat, answer: Answer): State
    requires t < |s.tasks|
  {
    var outcome := OutcomeOf(answer, |s.log|);
    var f := Finish(s, t, outcome);
    if outcome.Minted? then
      var m := Mint(s.tasks[t].key, outcome.token, s.now, answer.expiresIn);
      f.(cache := Store(s.cache, m), log := s.log + [m])
    else f
  }

  function StepDone(s: State): State
    requires s.doneQueue != [] && s.doneQueue[0] < |s.tasks|
  {
    s.(pending := s.pending - {s.tasks[s.doneQueue[0]].key}, doneQueue := s.doneQueue[1..])
  }

  /** The response to a failed mint, by the status Duar answered with. */
  function MintErrorStatus(status: Option<int>): int {
    match status
    case Some(400) => 401
    case Some(401) => 503
    case Some(403) => 403
    case Some(409) => 403
    case Some(429) => 429
    case _ => 503
  }

  function StepResume(s: State, r: nat): State
    requires r in s.requests && s.requests[r].phase.Waiting?
    requires s.requests[r].phase.task < |s.tasks|
  {
    var p := s.requests[r].phase;
    match s.tasks[p.task].outcome
    case Minted(token, n) => WithPhase(s, r, Holding(token, Resolved(p.key, n)))
    case MintFailed(status) => WithPhase(s, r, Replied(MintErrorStatus(status)))
    case MintCancelled => WithPhase(s, r, Cancelled)
    case Minting => s
  }

  // ---- Cancellation ----

  /** What a cancellation can reach: a request's task, the future `shield` made for it, a mint task, and its HTTP call. */
  datatype Awaitable = Caller(r: nat) | Outer(r: nat) | MintTask(t: nat) | HttpCall(t: nat)

  function Rank(n: Awaitable): nat {
    match n
    case Caller(_) => 2
    case MintTask(_) => 1
    case _ => 0
  }

  /**
   What `n` is suspended on. A waiting request awaits its own outer future when `shielded`, else the mint
   task itself. An outer future awaits nothing: a callback of the mint task sets it.
   */
  function AwaitedBy(s: State, n: Awaitable, shielded: bool): (m: Option<Awaitable>)
    ensures m.Some? ==> Rank(m.value) < Rank(n)
  {
    match n
    case Caller(r) =>
      if r in s.requests && s.requests[r].phase.Waiting? then
        Some(if shielded then Outer(r) else MintTask(s.requests[r].phase.task))
      else
        None
    case MintTask(t) => if t < |s.tasks| && s.tasks[t].outcome.Minting? then Some(HttpCall(t)) else None
    case _ => None
  }

  /**
   `cancel()` on a suspended task cancels what it awaits, and the exception then ends the task: neither
   `_mint` nor `_auto_resolve` catches it. What has finished is not cancelled. From a request's task
   a shielded chain ends at the request's own outer future.
   */
  function Cancel(s: State, n: Awaitable, shielded: bool): (f: State)
    ensures shielded && n.Caller? && n.r in s.requests ==> f == WithPhase(s, n.r, Cancelled)
    decreases Rank(n)
  {
    var awaited := AwaitedBy(s, n, shielded);
    var below := if awaited.Some? then Cancel(s, awaited.value, shielded) else s;
    match n
    case Caller(r) => if r in below.requests then WithPhase(below, r, Cancelled) else below
    case MintTask(t) =>
      if t < |below.tasks| && below.tasks[t].outcome.Minting? then Finish(below, t, MintCancelled) else below
    case _ => below
  }

  /** A mint survives the cancellation of a request that waits for it if and only if the wait is shielded. */
  lemma OnlyShieldProtectsMint(s: State, r: nat, shielded: bool)
    requires r in s.requests && s.requests[r].phase.Waiting?
    requires s.requests[r].phase.task < |s.tasks| && s.tasks[s.requests[r].phase.task].outcome.Minting?
    ensures var t, f := s.requests[r].phase.task, Cancel(s, Caller(r), shielded);
      && r in f.requests && f.requests[r].phase == Cancelled
      && |f.tasks| == |s.tasks|
      && f.tasks[t].outcome == (if shielded then Minting else MintCancelled)
  {
    var t := s.requests[r].phase.task;
    if !shielded {
      assert Cancel(s, HttpCall(t), false) == s;
      assert Cancel(s, MintTask(t), false) == Finish(s, t, MintCancelled);
    }
  }

  /** The signature is good: check the subject binding, the scope, and the claims. */
  function StepVerified(w: World, s: State, r: nat, scope: string): State
    requires r in s.requests && s.requests[r].phase.Holding?
  {
    var p, q := s.requests[r].phase, s.requests[r].incoming;
    var c := w.decode(p.token);
    if !Truthy(q.sub) || !Truthy(c.idpSub) || q.sub != c.idpSub then WithPhase(s, r, Replied(401))
    else if !Truthy(c.svc) || c.svc.value != scope then WithPhase(s, r, Replied(403))
    else if c.wid.None? || w.parseUuid(c.wid.value).None? || !c.otherClaimsParse then WithPhase(s, r, Replied(401))
    else WithPhase(s, r, Admitted(w.parseUuid(c.wid.value).value, p.token, p.source))
  }

  /** A minted token that does not verify is popped from the cache, by key. */
  function StepVerifyFails(s: State, r: nat): State
    requires r in s.requests && s.requests[r].phase.Holding?
  {
    var p := s.requests[r].phase;
    var replied := WithPhase(s, r, Replied(401));
    match p.source
    case Presented => replied
    case Resolved(key, _) => replied.(cache := Remove(s.cache, key), failed := s.failed + {p.token})
  }

  /**
   The `_done` callback of mint number `n` is not waiting to run. It is the first callback
   registered on the task and the ready queue is first-in first-out, so it runs before any waiter
   wakes up and before any verification of that mint's token, begun later, is reported.
   */
  predicate CallbackRan(s: State, n: nat) {
    forall i :: 0 <= i < |s.doneQueue| ==>
      s.doneQueue[i] < |s.tasks| &&
      var o := s.tasks[s.doneQueue[i]].outcome;
      o.Minted? ==> o.mint != n
  }

  predicate CanVerify(s: State, r: nat) {
    && r in s.requests && s.requests[r].phase.Holding?
    && (s.requests[r].phase.source.Resolved? ==> CallbackRan(s, s.requests[r].phase.source.mint))
  }

  predicate Enabled(s: State, e: Event) {
    match e
    case Tick(dt) => dt >= 0.0
    case Arrive(r, _) => r !in s.requests
    case MintReturns(t, _) => t < |s.tasks| && s.tasks[t].outcome.Minting?
    case DoneRuns => s.doneQueue != [] && s.doneQueue[0] < |s.tasks|
    case Resume(r) =>
      && r in s.requests && s.requests[r].phase.Waiting?
      && s.requests[r].phase.task < |s.tasks|
      && !s.tasks[s.requests[r].phase.task].outcome.Minting?
      && s.requests[r].phase.task !in s.doneQueue
    case Disconnect(r) => r in s.requests && (s.requests[r].phase.Waiting? || s.requests[r].phase.Holding?)
    case Verified(r, _) => CanVerify(s, r)
    case VerifyFails(r) => CanVerify(s, r)
  }

  function Step(w: World, s: State, e: Event): State
    requires Enabled(s, e)
  {
    match e
    case Tick(dt) => s.(now := s.now + dt)
    case Arrive(r, q) => StepArrive(s, r, q, Place(w, s, q))
    case MintReturns(t, answer) => StepMintReturns(s, t, answer)
    case DoneRuns => StepDone(s)
    case Resume(r) => StepResume(s, r)
    case Disconnect(r) => Cancel(s, Caller(r), true)
    case Verified(r, scope) => StepVerified(w, s, r, scope)
    case VerifyFails(r) => StepVerifyFails(s, r)
  }

  // ---- Invariants ----

  /** The single-flight table against the tasks. */
  ghost predicate FlightInv(s: State) {
    && (forall k :: k in s.pending ==> s.pending[k] < |s.tasks| && s.tasks[s.pending[k]].key == k)
    && (forall k :: k in s.pending ==> s.tasks[s.pending[k]].outcome.Minting? || s.pending[k] in s.doneQueue)
    && (forall t :: 0 <= t < |s.tasks| && s.tasks[t].outcome.Minting? ==>
          s.tasks[t].key in s.pending && s.pending[s.tasks[t].key] == t)
    && (forall t :: t in s.doneQueue ==>
          t < |s.tasks| && !s.tasks[t].outcome.Minting? &&
          s.tasks[t].key in s.pending && s.pending[s.tasks[t].key] == t)
    && (forall i, j :: 0 <= i < j < |s.doneQueue| ==> s.doneQueue[i] != s.doneQueue[j])
    && NoneCancelled(s.tasks)
  }

  ghost predicate NoneCancelled(tasks: seq<Task>) {
    forall t :: 0 <= t < |tasks| ==> !tasks[t].outcome.MintCancelled?
  }

  /** The cache and the tasks against the log. */
  ghost predicate LogInv(s: State) {
    && CacheInv(s.cache, s.log)
    && (forall n :: 0 <= n < |s.log| ==> s.log[n].receivedAt <= s.now)
    && (forall t :: 0 <= t < |s.tasks| ==>
          s.tasks[t].key == CacheKey(s.tasks[t].sub, s.tasks[t].workspace))
    && (forall t :: 0 <= t < |s.tasks| && s.tasks[t].outcome.Minted? ==>
          var n := s.tasks[t].outcome.mint;
          n < |s.log| && s.log[n].token == s.tasks[t].outcome.token && s.log[n].key == s.tasks[t].key)
  }

  /** A request waits for, or holds, a token minted under its own key. */
  ghost predicate RequestOk(w: World, s: State, q: Request) {
    match q.phase
    case Waiting(key, t) => Some(key) == ResolveKey(w, q.incoming) && t < |s.tasks| && s.tasks[t].key == key
    case Holding(token, Resolved(key, n)) =>
      Some(key) == ResolveKey(w, q.incoming) && n < |s.log| && s.log[n].token == token && s.log[n].key == key
    case Admitted(_, token, Resolved(key, n)) =>
      Some(key) == ResolveKey(w, q.incoming) && n < |s.log| && s.log[n].token == token && s.log[n].key == key
    case _ => true
  }

  ghost predicate RequestInv(w: World, s: State) {
    forall r :: r in s.requests ==> RequestOk(w, s, s.requests[r])
  }

  ghost predicate Inv(w: World, s: State) {
    FlightInv(s) && LogInv(s) && RequestInv(w, s)
  }

  lemma InitInv(w: World, now: real)
    ensures Inv(w, Init(now))
  {
  }

  lemma FlightStep(w: World, s: State, e: Event)
    requires FlightInv(s) && Enabled(s, e)
    ensures FlightInv(Step(w, s, e))
  {
    match e
    case Arrive(r, q) =>
      StartsOnlyWhenIdle(w, s, q);
      FlightArrive(s, r, q, Place(w, s, q));
    case DoneRuns => FlightDone(s);
    case MintReturns(t, answer) => FlightMintReturns(s, t, answer);
    case _ => FlightFrame(s, Step(w, s, e));
  }

  lemma FlightFrame(s: State, f: State)
    requires FlightInv(s)
    requires f.pending == s.pending && f.tasks == s.tasks && f.doneQueue == s.doneQueue
    ensures FlightInv(f)
  {
  }

  /** A mint is started only for a key with no mint in flight. */
  lemma StartsOnlyWhenIdle(w: World, s: State, q: Incoming)
    ensures var p := Place(w, s, q);
      p.starts.Some? ==>
        && p.starts.value.key !in s.pending && p.starts.value.outcome.Minting?
        && p.starts.value.key == CacheKey(p.starts.value.sub, p.starts.value.workspace)
        && Some(p.starts.value.key) == ResolveKey(w, q)
        && p.phase == Waiting(p.starts.value.key, |s.tasks|)
        && CacheHit(s.cache, p.starts.value.key, s.now).None?
  {
  }

  lemma FlightArrive(s: State, r: nat, q: Incoming, p: Placement)
    requires FlightInv(s)
    requires p.starts.Some? ==> p.starts.value.key !in s.pending && p.starts.value.outcome.Minting?
    ensures FlightInv(StepArrive(s, r, q, p))
  {
    var f := StepArrive(s, r, q, p);
    if p.starts.None? {
      FlightFrame(s, f);
    } else {
      var task := p.starts.value;
      FlightStart(s, task.key, task);
      FlightFrame(s.(tasks := s.tasks + [task], pending := s.pending[task.key := |s.tasks|]), f);
    }
  }

  lemma FlightStart(s: State, key: string, task: Task)
    requires FlightInv(s) && key !in s.pending && task.key == key && task.outcome.Minting?
    ensures FlightInv(s.(tasks := s.tasks + [task], pending := s.pending[key := |s.tasks|]))
  {
    hide NoneCancelled;
    NoneCancelledAppend(s.tasks, task);
  }

  lemma NoneCancelledAppend(tasks: seq<Task>, task: Task)
    requires NoneCancelled(tasks) && !task.outcome.MintCancelled?
    ensures NoneCancelled(tasks + [task])
  {
  }

  lemma FlightMintReturns(s: State, t: nat, answer: Answer)
    requires FlightInv(s) && t < |s.tasks| && s.tasks[t].outcome.Minting?
    ensures FlightInv(StepMintReturns(s, t, answer))
  {
    var f := StepMintReturns(s, t, answer);
    FlightFinish(s, t, f.tasks[t].outcome);
    FlightFrame(Finish(s, t, f.tasks[t].outcome), f);
  }

  lemma FlightFinish(s: State, t: nat, o: Outcome)
    requires FlightInv(s) && t < |s.tasks| && s.tasks[t].outcome.Minting? && !o.Minting? && !o.MintCancelled?
    ensures FlightInv(Finish(s, t, o))
  {
    var f := Finish(s, t, o);
    assert t !in s.doneQueue;
    assert forall u :: u in f.doneQueue <==> u in s.doneQueue || u == t;
  }

  lemma FlightDone(s: State)
    requires FlightInv(s) && Enabled(s, DoneRuns)
    ensures FlightInv(StepDone(s))
  {
    hide NoneCancelled;
    var f := StepDone(s);
    var head := s.doneQueue[0];
    assert s.doneQueue == [head] + f.doneQueue;
    assert head in s.doneQueue;
    forall t | t in f.doneQueue ensures t in s.doneQueue && s.tasks[t].key != s.tasks[head].key {
      var i :| 0 <= i < |f.doneQueue| && f.doneQueue[i] == t;
      assert s.doneQueue[i + 1] == t;
    }
    forall k | k in f.pending ensures s.pending[k] != head {
    }
  }

  lemma LogStep(w: World, s: State, e: Event)
    requires LogInv(s) && Enabled(s, e)
    ensures LogInv(Step(w, s, e))
  {
    hide CacheInv, Store, Remove, Place, CallbackRan, CacheKey, StepVerified, StepResume, StepVerifyFails;
    var f := Step(w, s, e);
    match e
    case MintReturns(t, answer) => LogMintReturns(s, t, answer);
    case VerifyFails(r) => LogVerifyFails(s, r);
    case Verified(r, scope) => VerifiedTouchesRequest(w, s, r, scope);
    case Resume(r) => ResumeTouchesRequest(s, r);
    case Arrive(r, q) =>
      StartsOnlyWhenIdle(w, s, q);
      LogArrive(s, r, q, Place(w, s, q));
    case _ => LogFrame(s, f);
    if e.Verified? || e.Resume? {
      LogFrame(s, f);
    }
  }

  lemma VerifiedTouchesRequest(w: World, s: State, r: nat, scope: string)
    requires r in s.requests && s.requests[r].phase.Holding?
    ensures StepVerified(w, s, r, scope) == s.(requests := StepVerified(w, s, r, scope).requests)
  {
  }

  lemma ResumeTouchesRequest(s: State, r: nat)
    requires Enabled(s, Resume(r))
    ensures StepResume(s, r) == s.(requests := StepResume(s, r).requests)
  {
  }

  lemma LogVerifyFails(s: State, r: nat)
    requires LogInv(s) && r in s.requests && s.requests[r].phase.Holding?
    ensures LogInv(StepVerifyFails(s, r))
  {
    hide CacheInv, Remove;
    if s.requests[r].phase.source.Resolved? {
      RemoveKeepsInv(s.cache, s.log, s.requests[r].phase.source.key);
    }
    LogFrame(s, StepVerifyFails(s, r));
  }

  lemma LogFrame(s: State, f: State)
    requires LogInv(s) && f.log == s.log && f.tasks == s.tasks && f.now >= s.now && CacheInv(f.cache, f.log)
    ensures LogInv(f)
  {
  }

  lemma LogArrive(s: State, r: nat, q: Incoming, p: Placement)
    requires LogInv(s)
    requires p.starts.Some? ==>
      p.starts.value.outcome.Minting? && p.starts.value.key == CacheKey(p.starts.value.sub, p.starts.value.workspace)
    ensures LogInv(StepArrive(s, r, q, p))
  {
  }

  lemma LogMintReturns(s: State, t: nat, answer: Answer)
    requires LogInv(s) && t < |s.tasks| && s.tasks[t].outcome.Minting?
    ensures LogInv(StepMintReturns(s, t, answer))
  {
    hide CacheInv, Store;
    if OutcomeOf(answer, |s.log|).Minted? {
      StoreKeepsInv(s.cache, s.log, Mint(s.tasks[t].key, answer.token.value, s.now, answer.expiresIn));
    }
  }

  /** A cached token is the one of its key's last mint. */
  lemma HitIsLastMint(cache: Cache, log: seq<Mint>, key: string, now: real)
    requires CacheInv(cache, log) && CacheHit(cache, key, now).Some?
    ensures LastMint(log, key) >= 0
    ensures var m := log[LastMint(log, key)];
      CacheHit(cache, key, now).value == m.token && now < m.receivedAt + ReuseTime(m.expiresIn)
  {
    var i := IndexOf(cache, key);
    assert cache[i].key == key;
  }

  /** Tasks keep their keys, and the log only grows. */
  ghost predicate Grows(s: State, f: State) {
    && |s.tasks| <= |f.tasks|
    && (forall t :: 0 <= t < |s.tasks| ==> s.tasks[t].key == f.tasks[t].key)
    && |s.log| <= |f.log|
    && (forall n :: 0 <= n < |s.log| ==> s.log[n] == f.log[n])
  }

  lemma StepGrows(w: World, s: State, e: Event)
    requires Enabled(s, e)
    ensures Grows(s, Step(w, s, e))
  {
    var f := Step(w, s, e);
    if !e.MintReturns? && !e.Arrive? {
      assert f.tasks == s.tasks && f.log == s.log;
    }
  }

  lemma RequestOkLater(w: World, s: State, f: State, q: Request)
    requires RequestOk(w, s, q) && Grows(s, f)
    ensures RequestOk(w, f, q)
  {
  }

  /** A step changes at most the request it is about. */
  lemma OtherRequests(w: World, s: State, e: Event, r: nat)
    requires Enabled(s, e)
    requires r in s.requests
    requires !(e.Resume? || e.Disconnect? || e.Verified? || e.VerifyFails?) || e.r != r
    ensures r in Step(w, s, e).requests && Step(w, s, e).requests[r] == s.requests[r]
  {
  }

  lemma RequestKeys(w: World, s: State, e: Event)
    requires Enabled(s, e)
    ensures Step(w, s, e).requests.Keys == s.requests.Keys + if e.Arrive? then {e.r} else {}
  {
  }

  lemma RequestStep(w: World, s: State, e: Event)
    requires Inv(w, s) && Enabled(s, e)
    ensures RequestInv(w, Step(w, s, e))
  {
    hide Step, LogInv, FlightInv, RequestOk;
    var f := Step(w, s, e);
    StepGrows(w, s, e);
    RequestKeys(w, s, e);
    forall r | r in f.requests ensures RequestOk(w, f, f.requests[r]) {
      if e.Arrive? && e.r == r {
        ArriveOk(w, s, r, e.incoming);
      } else {
        RequestOkLater(w, s, f, s.requests[r]);
        if (e.Resume? || e.Disconnect? || e.Verified? || e.VerifyFails?) && e.r == r {
          OwnStepOk(w, s, e, r);
        } else {
          OtherRequests(w, s, e, r);
        }
      }
    }
  }

  lemma OwnStepOk(w: World, s: State, e: Event, r: nat)
    requires LogInv(s) && Enabled(s, e)
    requires (e.Resume? || e.Disconnect? || e.Verified? || e.VerifyFails?) && e.r == r
    requires r in s.requests && RequestOk(w, s, s.requests[r])
    ensures r in Step(w, s, e).requests && RequestOk(w, Step(w, s, e), Step(w, s, e).requests[r])
  {
    match e
    case Resume(_) => ResumeOk(w, s, r);
    case Verified(_, scope) => VerifiedKeepsOk(w, s, r, scope);
    case Disconnect(_) =>
    case VerifyFails(_) =>
  }

  lemma VerifiedKeepsOk(w: World, s: State, r: nat, scope: string)
    requires r in s.requests && s.requests[r].phase.Holding? && RequestOk(w, s, s.requests[r])
    ensures RequestOk(w, StepVerified(w, s, r, scope), StepVerified(w, s, r, scope).requests[r])
  {
    hide ResolveKey;
  }

  lemma ResumeOk(w: World, s: State, r: nat)
    requires LogInv(s) && Enabled(s, Resume(r)) && RequestOk(w, s, s.requests[r])
    ensures RequestOk(w, StepResume(s, r), StepResume(s, r).requests[r])
  {
    hide CacheInv, ResolveKey, CacheKey, MintErrorStatus;
  }

  lemma ArriveOk(w: World, s: State, r: nat, q: Incoming)
    requires Inv(w, s) && Enabled(s, Arrive(r, q))
    ensures var f := Step(w, s, Arrive(r, q)); r in f.requests && RequestOk(w, f, f.requests[r])
  {
    hide RequestInv;
    StartsOnlyWhenIdle(w, s, q);
    var key := ResolveKey(w, q);
    if key.Some? && CacheHit(s.cache, key.value, s.now).Some? {
      HitIsLastMint(s.cache, s.log, key.value, s.now);
    }
  }

  /** The log changes only when a mint succeeds, by one record. */
  lemma LogChange(w: World, s: State, e: Event)
    requires Enabled(s, e)
    ensures var f := Step(w, s, e);
      if e.MintReturns? && OutcomeOf(e.answer, |s.log|).Minted? then
        f.log == s.log + [Mint(s.tasks[e.task].key, e.answer.token.value, s.now, e.answer.expiresIn)]
      else
        f.log == s.log
  {
  }

  lemma InvStep(w: World, s: State, e: Event)
    requires Inv(w, s) && Enabled(s, e)
    ensures Inv(w, Step(w, s, e))
  {
    FlightStep(w, s, e);
    LogStep(w, s, e);
    RequestStep(w, s, e);
  }
}

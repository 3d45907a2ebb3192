/**
 `RequestAuth` on top of a `PermissionClient` that other requests use too. The client's own run is given,
 with the reads that this request made marked in it, and between its steps what the request does without
 that client: `check_action`, and asking what the memo knows. The memo follows by its own steps.
 */
module RequestAuthStack {
  import opened Common
  import opened Identifiers
  import opened TtlCache
  import PermissionClient
  import RequestAuth

  /** The token and the workspace a `RequestAuth` passes along. */
  datatype Caller = Caller(token: string, workspace: Uuid)

  /** The client call behind a `can` or `accessible` that the memo cannot answer; `check_action` has another client. */
  function Upstream(a: Caller, q: RequestAuth.Query): PermissionClient.Query
    requires !q.ActionQuery?
  {
    match q
    case CanQuery(resourceType, resource, action) =>
      PermissionClient.CanQuery(a.token, resourceType, resource, action)
    case AccessibleQuery(resourceType, action, limit) =>
      PermissionClient.AccessibleQuery(a.token, resourceType, action, a.workspace, limit)
  }

  /** The client is asked with the caller's own token and workspace and the arguments of `q`. */
  predicate SameArguments(a: Caller, q: RequestAuth.Query, p: PermissionClient.Query) {
    match q
    case CanQuery(resourceType, resource, action) =>
      && p.CanQuery? && p.token == a.token
      && p.resourceType == resourceType && p.resource == resource && p.action == action
    case AccessibleQuery(resourceType, action, limit) =>
      && p.AccessibleQuery? && p.token == a.token && p.workspace == a.workspace
      && p.resourceType == resourceType && p.action == action && p.limit == limit
    case ActionQuery(_) => false
  }

  // ---- What does not reach the permission client ----

  /** `check_action` from its start to its end, and any question the memo answers. */
  predicate Aside(m: RequestAuth.State, e: RequestAuth.Event) {
    && RequestAuth.Enabled(m, e)
    && match e
       case Ask(_, q) => q.ActionQuery? || RequestAuth.MemoKey(q) in m.memo
       case Return(id, _) => m.calls[id].ActionQuery?
  }

  ghost predicate CanDo(m: RequestAuth.State, es: seq<RequestAuth.Event>)
    decreases es
  {
    es == [] || (Aside(m, es[0]) && CanDo(RequestAuth.Step(m, es[0]), es[1..]))
  }

  ghost function After(m: RequestAuth.State, es: seq<RequestAuth.Event>): RequestAuth.State
    requires CanDo(m, es)
    decreases es
  {
    if es == [] then m else After(RequestAuth.Step(m, es[0]), es[1..])
  }

  /** The permission calls in flight and the permission answers memoized are the same. */
  ghost predicate SamePermissions(m: RequestAuth.State, n: RequestAuth.State) {
    && (forall id :: id in n.calls && !n.calls[id].ActionQuery? ==> id in m.calls && m.calls[id] == n.calls[id])
    && (forall q: RequestAuth.Query :: !q.ActionQuery? ==> Known(m, q) == Known(n, q))
  }

  function Known(m: RequestAuth.State, q: RequestAuth.Query): Option<Value> {
    if RequestAuth.MemoKey(q) in m.memo then Some(m.memo[RequestAuth.MemoKey(q)]) else None
  }

  lemma AsideStep(m: RequestAuth.State, e: RequestAuth.Event)
    requires Aside(m, e)
    ensures SamePermissions(m, RequestAuth.Step(m, e))
  {
    hide RequestAuth.MemoKey;
    forall q: RequestAuth.Query | !q.ActionQuery? ensures Known(m, q) == Known(RequestAuth.Step(m, e), q) {
      if e.Return? {
        RequestAuth.MemoKeyInjective(m.calls[e.id], q);
      }
    }
  }

  lemma {:induction false} AsideKeeps(m: RequestAuth.State, es: seq<RequestAuth.Event>)
    requires CanDo(m, es)
    ensures SamePermissions(m, After(m, es))
    decreases es
  {
    hide Known;
    if es != [] {
      AsideStep(m, es[0]);
      AsideKeeps(RequestAuth.Step(m, es[0]), es[1..]);
    }
  }

  // ---- What does ----

  /** The memo after asking the client: an answer from the client's cache comes without suspending. */
  function AfterAsk(m: RequestAuth.State, id: nat, q: RequestAuth.Query, hit: Option<Value>): RequestAuth.State
    requires id !in m.calls && RequestAuth.MemoKey(q) !in m.memo
  {
    var asked := RequestAuth.Step(m, RequestAuth.Ask(id, q));
    assert id in asked.calls;
    if hit.Some? then RequestAuth.Step(asked, RequestAuth.Return(id, hit)) else asked
  }

  function AnswerOf(reply: PermissionClient.Reply): Option<Value> {
    if reply.Failure? then None else Some(PermissionClient.ValueOf(reply))
  }

  /** One step of the client, seen from this request's memo. */
  ghost predicate Follows(
      a: Caller, c: PermissionClient.Config, s: PermissionClient.State, e: PermissionClient.Event,
      ask: Option<RequestAuth.Query>, m: RequestAuth.State, n: RequestAuth.State) {
    if ask.Some? then
      && e.Read? && !ask.value.ActionQuery? && e.query == Upstream(a, ask.value)
      && RequestAuth.MemoKey(ask.value) !in m.memo && e.id !in m.calls
      && n == AfterAsk(m, e.id, ask.value, PermissionClient.Hit(c, s, e.query))
    else if e.Respond? && e.id in m.calls && !m.calls[e.id].ActionQuery? then
      n == RequestAuth.Step(m, RequestAuth.Return(e.id, AnswerOf(e.reply)))
    else
      n == m
  }

  /**
   A run of the client and one request's memo along it. `asides[i]` is what the request does before the client's
   step `i` without it, and `asks[i]` marks the step as a read of this request.
   */
  datatype Stack = Stack(
    caller: Caller, config: PermissionClient.Config,
    run: seq<PermissionClient.State>, ev: seq<PermissionClient.Event>,
    asides: seq<seq<RequestAuth.Event>>, asks: seq<Option<RequestAuth.Query>>, memo: seq<RequestAuth.State>)

  ghost predicate IsStack(k: Stack) {
    && PermissionClient.IsRun(k.config, k.run, k.ev)
    && |k.asks| == |k.asides| == |k.ev| && |k.memo| == |k.run| && k.memo[0] == RequestAuth.State(map[], map[])
    && forall i :: 0 <= i < |k.ev| ==>
         CanDo(k.memo[i], k.asides[i]) &&
         Follows(k.caller, k.config, k.run[i], k.ev[i], k.asks[i], After(k.memo[i], k.asides[i]), k.memo[i + 1])
  }

  /** Each permission call the memo waits for is the client's call for the same arguments. */
  ghost predicate SameCalls(a: Caller, s: PermissionClient.State, m: RequestAuth.State) {
    forall id :: id in m.calls && !m.calls[id].ActionQuery? ==>
      id in s.calls && s.calls[id].query == Upstream(a, m.calls[id])
  }

  lemma {:induction false} CallsMatch(k: Stack, i: nat)
    requires IsStack(k) && i < |k.run|
    ensures SameCalls(k.caller, k.run[i], k.memo[i])
    ensures i < |k.ev| ==> SameCalls(k.caller, k.run[i], After(k.memo[i], k.asides[i]))
  {
    hide Follows, CanDo, After;
    if i > 0 {
      CallsMatch(k, i - 1);
      SameCallsStep(k.caller, k.config, k.run[i - 1], k.ev[i - 1], k.asks[i - 1],
        After(k.memo[i - 1], k.asides[i - 1]), k.memo[i]);
    }
    if i < |k.ev| {
      AsideKeeps(k.memo[i], k.asides[i]);
    }
  }

  lemma SameCallsStep(
      a: Caller, c: PermissionClient.Config, s: PermissionClient.State, e: PermissionClient.Event,
      ask: Option<RequestAuth.Query>, m: RequestAuth.State, n: RequestAuth.State)
    requires PermissionClient.Enabled(s, e) && Follows(a, c, s, e, ask, m, n) && SameCalls(a, s, m)
    ensures SameCalls(a, PermissionClient.Step(c, s, e), n)
  {
    hide PermissionClient.Hit, PermissionClient.KeyOf, RequestAuth.MemoKey, Upstream;
    hide AfterSet, AfterGet, AfterInvalidate;
  }

  lemma LogGrows(c: PermissionClient.Config, s: PermissionClient.State, e: PermissionClient.Event)
    requires PermissionClient.Enabled(s, e)
    ensures s.log <= PermissionClient.Step(c, s, e).log
  {
  }

  /** A step that changes what is memoized for `q` is a hit for `q`'s call, or the reply to it. */
  lemma MemoChange(
      a: Caller, c: PermissionClient.Config, s: PermissionClient.State, e: PermissionClient.Event,
      ask: Option<RequestAuth.Query>, m: RequestAuth.State, n: RequestAuth.State, q: RequestAuth.Query)
    requires Follows(a, c, s, e, ask, m, n) && SameCalls(a, s, m)
    requires !q.ActionQuery? && Known(n, q).Some?
    ensures
      || Known(m, q) == Known(n, q)
      || (e.Read? && PermissionClient.Hit(c, s, Upstream(a, q)) == Known(n, q))
      || (&& e.Respond? && e.id in s.calls && s.calls[e.id].query == Upstream(a, q)
          && AnswerOf(e.reply) == Known(n, q))
  {
    hide PermissionClient.Hit, PermissionClient.KeyOf, RequestAuth.MemoKey, PermissionClient.ValueOf;
    if ask.Some? {
      RequestAuth.MemoKeyInjective(ask.value, q);
    } else if e.Respond? && e.id in m.calls {
      RequestAuth.MemoKeyInjective(m.calls[e.id], q);
    }
  }

  /**
   What is memoized for `q` at step `i` is what the reply at step `replied` says, to the call made at step `asked`
   with the same token and arguments. It was memoized at step `g`, unchanged since, and then the reply was
   just arriving or at most the client's `ttl` old.
   */
  ghost predicate HasSource(k: Stack, i: nat, q: RequestAuth.Query, asked: nat, replied: nat, g: nat) {
    && i < |k.memo| && Known(k.memo[i], q).Some?
    && asked < replied <= g < i && i <= |k.ev| && i <= |k.run|
    && k.ev[asked].Read? && SameArguments(k.caller, q, k.ev[asked].query)
    && k.ev[replied].Respond? && k.ev[replied].id == k.ev[asked].id
    && PermissionClient.Says(k.ev[replied].reply, Known(k.memo[i], q).value)
    && (forall m :: g < m <= i ==> Known(k.memo[m], q) == Known(k.memo[i], q))
    && (replied == g || k.run[g].now - k.config.ttl <= k.run[replied].now <= k.run[g].now)
  }

  lemma SourceStays(k: Stack, i: nat, q: RequestAuth.Query, asked: nat, replied: nat, g: nat)
    requires 0 < i < |k.memo| && i <= |k.ev| && i <= |k.run|
    requires HasSource(k, i - 1, q, asked, replied, g) && Known(k.memo[i - 1], q) == Known(k.memo[i], q)
    ensures HasSource(k, i, q, asked, replied, g)
  {
  }

  /**
   Through both caches: what a request has memoized for `can` or `accessible` has its source in a reply of the
   server, to a call made by this request or by another one.
   */
  lemma {:induction false} MemoIsServerReply(k: Stack, i: nat, q: RequestAuth.Query)
      returns (asked: nat, replied: nat, g: nat)
    requires IsStack(k) && i < |k.run| && !q.ActionQuery? && Known(k.memo[i], q).Some?
    requires PermissionClient.NoCollision(k.config, k.run[i], Upstream(k.caller, q))
    ensures HasSource(k, i, q, asked, replied, g)
  {
    hide Known, HasSource, CanDo, After, Follows, Upstream, PermissionClient.NoCollision;
    if i == 0 {
      NothingKnown(k, q);
    } else if Known(k.memo[i - 1], q) == Known(k.memo[i], q) {
      CollisionsGrow(k, i, q);
      asked, replied, g := MemoIsServerReply(k, i - 1, q);
      SourceStays(k, i, q, asked, replied, g);
    } else {
      g := i - 1;
      asked, replied := MemoizedFromReply(k, g, q);
    }
  }

  lemma CollisionsGrow(k: Stack, i: nat, q: RequestAuth.Query)
    requires IsStack(k) && 0 < i < |k.run| && !q.ActionQuery?
    requires PermissionClient.NoCollision(k.config, k.run[i], Upstream(k.caller, q))
    ensures PermissionClient.NoCollision(k.config, k.run[i - 1], Upstream(k.caller, q))
  {
    hide PermissionClient.Step, Follows, CanDo, After;
    LogGrows(k.config, k.run[i - 1], k.ev[i - 1]);
  }

  /** The answer is a hit in the client's cache. */
  lemma SourceOfHit(k: Stack, g: nat, q: RequestAuth.Query) returns (asked: nat, replied: nat)
    requires IsStack(k) && g < |k.ev| && !q.ActionQuery? && Known(k.memo[g + 1], q).Some?
    requires PermissionClient.Hit(k.config, k.run[g], Upstream(k.caller, q)) == Known(k.memo[g + 1], q)
    requires PermissionClient.NoCollision(k.config, k.run[g], Upstream(k.caller, q))
    ensures HasSource(k, g + 1, q, asked, replied, g)
  {
    hide Follows, CanDo, After, Known, PermissionClient.Hit, PermissionClient.Says;
    hide PermissionClient.Step, PermissionClient.Enabled, PermissionClient.NoCollision;
    var n;
    n, asked, replied :=
      PermissionClient.HitPredatesWriteOnlyByOverlap(k.config, k.run, k.ev, g, Upstream(k.caller, q));
  }

  /** The answer is in the reply that is just arriving. */
  lemma SourceOfReply(k: Stack, g: nat, q: RequestAuth.Query) returns (asked: nat)
    requires IsStack(k) && g < |k.ev| && !q.ActionQuery? && Known(k.memo[g + 1], q).Some?
    requires k.ev[g].Respond? && k.ev[g].id in k.run[g].calls
    requires k.run[g].calls[k.ev[g].id].query == Upstream(k.caller, q)
    requires AnswerOf(k.ev[g].reply) == Known(k.memo[g + 1], q)
    ensures HasSource(k, g + 1, q, asked, g, g)
  {
    hide Follows, CanDo, After, Known, PermissionClient.Step, PermissionClient.Enabled;
    asked := PermissionClient.CallHasRead(k.config, k.run, k.ev, g, k.ev[g].id);
  }

  /** The step that memoizes an answer has it from a reply, just arriving or from the client's cache. */
  lemma MemoizedFromReply(k: Stack, g: nat, q: RequestAuth.Query) returns (asked: nat, replied: nat)
    requires IsStack(k) && g < |k.ev| && !q.ActionQuery? && Known(k.memo[g + 1], q).Some?
    requires Known(k.memo[g], q) != Known(k.memo[g + 1], q)
    requires PermissionClient.NoCollision(k.config, k.run[g + 1], Upstream(k.caller, q))
    ensures HasSource(k, g + 1, q, asked, replied, g)
  {
    hide Follows, SameCalls, Known, CanDo, After, HasSource, Upstream, AnswerOf;
    hide PermissionClient.Step, PermissionClient.Enabled, PermissionClient.NoCollision, PermissionClient.Hit;
    var s, e := k.run[g], k.ev[g];
    CallsMatch(k, g);
    AsideKeeps(k.memo[g], k.asides[g]);
    MemoChange(k.caller, k.config, s, e, k.asks[g], After(k.memo[g], k.asides[g]), k.memo[g + 1], q);
    CollisionsGrow(k, g + 1, q);
    if e.Respond? {
      replied := g;
      asked := SourceOfReply(k, g, q);
    } else {
      asked, replied := SourceOfHit(k, g, q);
    }
  }

  lemma NothingKnown(k: Stack, q: RequestAuth.Query)
    requires IsStack(k)
    ensures Known(k.memo[0], q).None?
  {
  }

  // ---- The memo is one the memo's own protocol reaches ----

  ghost predicate Reachable(m: RequestAuth.State) {
    exists run, ev :: RequestAuth.IsRun(run, ev) && run[|ev|] == m
  }

  lemma ReachableStep(m: RequestAuth.State, e: RequestAuth.Event)
    requires Reachable(m) && RequestAuth.Enabled(m, e)
    ensures Reachable(RequestAuth.Step(m, e))
  {
    hide RequestAuth.Step, RequestAuth.Enabled;
    var run, ev :| RequestAuth.IsRun(run, ev) && run[|ev|] == m;
    var run', ev' := run + [RequestAuth.Step(m, e)], ev + [e];
    assert RequestAuth.IsRun(run', ev') && run'[|ev'|] == RequestAuth.Step(m, e);
  }

  lemma {:induction false} ReachableAfter(m: RequestAuth.State, es: seq<RequestAuth.Event>)
    requires Reachable(m) && CanDo(m, es)
    ensures Reachable(After(m, es))
    decreases es
  {
    if es != [] {
      ReachableStep(m, es[0]);
      ReachableAfter(RequestAuth.Step(m, es[0]), es[1..]);
    }
  }

  lemma ReachableFollows(
      a: Caller, c: PermissionClient.Config, s: PermissionClient.State, e: PermissionClient.Event,
      ask: Option<RequestAuth.Query>, m: RequestAuth.State, n: RequestAuth.State)
    requires Reachable(m) && Follows(a, c, s, e, ask, m, n)
    ensures Reachable(n)
  {
    hide Reachable, RequestAuth.MemoKey, PermissionClient.Hit, AnswerOf;
    if ask.Some? {
      var ask', hit := RequestAuth.Ask(e.id, ask.value), PermissionClient.Hit(c, s, e.query);
      ReachableStep(m, ask');
      if hit.Some? {
        ReachableStep(RequestAuth.Step(m, ask'), RequestAuth.Return(e.id, hit));
      }
    } else if n != m {
      ReachableStep(m, RequestAuth.Return(e.id, AnswerOf(e.reply)));
    }
  }

  /** Stacked on the client, the memo does only what its own protocol allows: every theorem about that holds of it. */
  lemma {:induction false} MemoIsReachable(k: Stack, i: nat)
    requires IsStack(k) && i < |k.run|
    ensures Reachable(k.memo[i])
  {
    if i > 0 {
      MemoIsReachable(k, i - 1);
      ReachableAfter(k.memo[i - 1], k.asides[i - 1]);
      ReachableFollows(k.caller, k.config, k.run[i - 1], k.ev[i - 1], k.asks[i - 1],
        After(k.memo[i - 1], k.asides[i - 1]), k.memo[i]);
    } else {
      assert RequestAuth.IsRun([k.memo[0]], []);
    }
  }
}

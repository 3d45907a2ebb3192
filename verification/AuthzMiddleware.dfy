/**
 The fields of `AuthzMiddleware` that auto-resolve updates in place. Each method is the code
 between two awaits, proved to do to the fields what the protocol's step does to its state.
 */
module AuthzMiddlewareClass {
  import opened Common
  import opened OrderedDict
  import opened Identifiers
  import opened ResolveCache
  import opened MintProtocol

  /** What `_auto_resolve` does next: return a cached token, await a task (perhaps a new one), or answer. */
  datatype Decision = Serve(token: string, key: string) | Await(task: nat, key: string, isNew: bool) | Respond(status: int)

  /** How `_mint` ends: with a token, or with `DuarError` and the status it carries. */
  datatype MintEnd = Returned(token: string) | Raised(status: Option<int>)

  ghost predicate EndsAs(d: MintEnd, o: Outcome) {
    match o
    case Minted(token, _) => d == Returned(token)
    case MintFailed(status) => d == Raised(status)
    case _ => false
  }

  /** The decision that puts a request into `phase`. */
  ghost predicate Agrees(d: Decision, p: Placement) {
    match p.phase
    case Holding(token, Resolved(key, _)) => d == Serve(token, key)
    case Waiting(key, t) => d == Await(t, key, p.starts.Some?)
    case Replied(status) => d == Respond(status)
    case _ => false
  }

  class AuthzMiddleware {
    var resolveCache: Cache
    var resolvePending: map<string, nat>

    constructor ()
      ensures resolveCache == [] && resolvePending == map[]
    {
      resolveCache, resolvePending := [], map[];
    }

    /** The fields are the shared part of the protocol's state. */
    ghost predicate Holds(s: State)
      reads this
    {
      resolveCache == s.cache && resolvePending == s.pending
    }

    /** `_auto_resolve` up to its await; the task table of the event loop hands out `nextTask`. */
    method AutoResolve(w: World, q: Incoming, now: real, nextTask: nat, ghost s: State, ghost r: nat) returns (d: Decision)
      requires Holds(s) && s.now == now && |s.tasks| == nextTask
      requires !Truthy(q.authzHeader)
      modifies this
      ensures Agrees(d, Place(w, s, q))
      ensures Holds(StepArrive(s, r, q, Place(w, s, q)))
    {
      if !Truthy(q.sub) {
        return Respond(401);
      }
      if !Truthy(q.workspaceHeader) {
        return Respond(401);
      }
      var workspace := w.parseUuid(q.workspaceHeader.value);
      if workspace.None? {
        return Respond(400);
      }
      var key := CacheKey(q.sub.value, workspace.value);
      var cached := Get(resolveCache, key);
      if cached.Some? && cached.value.deadline > now {
        return Serve(cached.value.token, key);
      }
      if key in resolvePending {
        return Await(resolvePending[key], key, false);
      }
      resolvePending := resolvePending[key := nextTask];
      return Await(nextTask, key, true);
    }

    /** The end of `_mint`: insert, move to the end, evict from the front. */
    method StoreMinted(key: string, token: string, expiresIn: Option<real>, now: real)
      requires Distinct(resolveCache)
      modifies this
      ensures resolveCache == Store(old(resolveCache), Mint(key, token, now, expiresIn))
      ensures Get(resolveCache, key) ==
        Some(Cached(token, if expiresIn.Some? then now + 0.8 * expiresIn.value else now + 240.0))
      ensures resolvePending == old(resolvePending)
    {
      hide Store, Put, MoveToEnd, Remove, Get;
      var ttl := if expiresIn.Some? then 0.8 * expiresIn.value else 240.0;
      var cached := Cached(token, now + ttl);
      StoreInSteps(resolveCache, Mint(key, token, now, expiresIn));
      StoreKeepsNewest(resolveCache, Mint(key, token, now, expiresIn));
      ghost var stored := Store(resolveCache, Mint(key, token, now, expiresIn));
      assert Get(stored, key) == Some(cached);
      resolveCache := Put(resolveCache, key, cached);
      resolveCache := MoveToEnd(resolveCache, key);
      while |resolveCache| > RESOLVE_CACHE_MAX
        invariant Trim(resolveCache) == stored
        invariant resolvePending == old(resolvePending)
      {
        TrimTail(resolveCache);
        resolveCache := resolveCache[1..];
      }
    }

    /** `_mint` from Duar's answer on. */
    method MintReturned(key: string, answer: Answer, now: real, ghost s: State, ghost t: nat) returns (end: MintEnd)
      requires Holds(s) && LogInv(s) && s.now == now
      requires Enabled(s, MintReturns(t, answer)) && s.tasks[t].key == key
      modifies this
      ensures EndsAs(end, StepMintReturns(s, t, answer).tasks[t].outcome)
      ensures Holds(StepMintReturns(s, t, answer))
    {
      match answer
      case Refused(status) => return Raised(status);
      case Unusable => return Raised(None);
      case Body(token, expiresIn) =>
        if !Truthy(token) {
          return Raised(None);
        }
        StoreMinted(key, token.value, expiresIn, now);
        return Returned(token.value);
    }

    /** The `_done` callback. */
    method Done(key: string, ghost s: State)
      requires Holds(s) && Enabled(s, DoneRuns) && s.tasks[s.doneQueue[0]].key == key
      modifies this
      ensures Holds(StepDone(s))
    {
      resolvePending := resolvePending - {key};
    }

    /** The two `except` branches of `dispatch` around the authz token's verification; a resolved key is never empty. */
    method Unverifiable(resolvedKey: Option<string>, ghost w: World, ghost s: State, ghost r: nat)
      requires Holds(s) && RequestInv(w, s) && Enabled(s, VerifyFails(r))
      requires var source := s.requests[r].phase.source;
        resolvedKey == if source.Resolved? then Some(source.key) else None
      modifies this
      ensures Holds(StepVerifyFails(s, r))
    {
      assert RequestOk(w, s, s.requests[r]);
      if Truthy(resolvedKey) {
        resolveCache := Remove(resolveCache, resolvedKey.value);
      }
    }
  }
}

/** What every run of the auto-resolve protocol guarantees. */
module MintProtocolRuns {
  import opened Common
  import opened OrderedDict
  import opened Identifiers
  import opened ResolveCache
  import opened MintProtocol

  ghost predicate IsRun(w: World, run: seq<State>, ev: seq<Event>) {
    && |run| == |ev| + 1
    && run[0] == Init(run[0].now)
    && forall i :: 0 <= i < |ev| ==> Enabled(run[i], ev[i]) && run[i + 1] == Step(w, run[i], ev[i])
  }

  lemma {:induction false} RunInv(w: World, run: seq<State>, ev: seq<Event>, i: nat)
    requires IsRun(w, run, ev) && i < |run|
    ensures Inv(w, run[i])
  {
    if i == 0 {
      InitInv(w, run[0].now);
    } else {
      RunInv(w, run, ev, i - 1);
      InvStep(w, run[i - 1], ev[i - 1]);
    }
  }

  // ---- Single flight ----

  /** At most one unfinished mint per key, and the table holds it until its callback has run. */
  lemma SingleFlight(w: World, run: seq<State>, ev: seq<Event>, i: nat)
    requires IsRun(w, run, ev) && i < |run|
    ensures var s := run[i];
      && (forall t, u :: 0 <= t < u < |s.tasks| && s.tasks[t].key == s.tasks[u].key ==>
            !s.tasks[t].outcome.Minting? || !s.tasks[u].outcome.Minting?)
      && (forall t :: 0 <= t < |s.tasks| ==>
            (s.tasks[t].outcome.Minting? || t in s.doneQueue
             <==> s.tasks[t].key in s.pending && s.pending[s.tasks[t].key] == t))
      && (forall k :: k in s.pending ==> s.pending[k] < |s.tasks| && s.tasks[s.pending[k]].key == k)
  {
    RunInv(w, run, ev, i);
  }

  ghost predicate StartsMint(w: World, s: State, e: Event, key: string) {
    e.Arrive? && Place(w, s, e.incoming).starts.Some? && Place(w, s, e.incoming).starts.value.key == key
  }

  /** A mint is started only when no mint of that key is unfinished or still has its callback to run. */
  lemma MintStartsAlone(w: World, run: seq<State>, ev: seq<Event>, i: nat, key: string)
    requires IsRun(w, run, ev) && i < |ev| && StartsMint(w, run[i], ev[i], key)
    ensures forall t :: 0 <= t < |run[i].tasks| && run[i].tasks[t].key == key ==>
      !run[i].tasks[t].outcome.Minting? && t !in run[i].doneQueue
    ensures |run[i + 1].tasks| == |run[i].tasks| + 1 && run[i + 1].tasks[|run[i].tasks|].key == key
  {
    RunInv(w, run, ev, i);
    StartsOnlyWhenIdle(w, run[i], ev[i].incoming);
  }

  lemma OutcomeStep(w: World, s: State, e: Event, t: nat)
    requires Enabled(s, e) && t < |s.tasks| && !s.tasks[t].outcome.Minting?
    ensures t < |Step(w, s, e).tasks| && Step(w, s, e).tasks[t] == s.tasks[t]
  {
  }

  lemma {:induction false} OutcomeIsFinal(w: World, run: seq<State>, ev: seq<Event>, i: nat, j: nat, t: nat)
    requires IsRun(w, run, ev) && i <= j < |run|
    requires t < |run[i].tasks| && !run[i].tasks[t].outcome.Minting?
    ensures t < |run[j].tasks| && run[j].tasks[t] == run[i].tasks[t]
  {
    hide Step;
    if i < j {
      OutcomeIsFinal(w, run, ev, i, j - 1, t);
      OutcomeStep(w, run[j - 1], ev[j - 1], t);
    }
  }

  /** All who awaited one mint, whenever they wake up, get the same token or the same refusal. */
  lemma AwaitersShareOutcome(w: World, run: seq<State>, ev: seq<Event>, i: nat, j: nat)
    requires IsRun(w, run, ev) && i <= j < |ev| && ev[i].Resume? && ev[j].Resume?
    requires ev[i].r in run[i].requests && ev[j].r in run[j].requests
    requires run[i].requests[ev[i].r].phase.Waiting? && run[j].requests[ev[j].r].phase.Waiting?
    requires run[i].requests[ev[i].r].phase.task == run[j].requests[ev[j].r].phase.task
    ensures ev[i].r in run[i + 1].requests && ev[j].r in run[j + 1].requests
    ensures run[i + 1].requests[ev[i].r].phase == run[j + 1].requests[ev[j].r].phase
    ensures var waited, p := run[i].requests[ev[i].r].phase, run[i + 1].requests[ev[i].r].phase;
      waited.task < |run[i].tasks| && match run[i].tasks[waited.task].outcome
      case Minted(token, n) => p == Holding(token, Resolved(waited.key, n))
      case _ => p.Replied?
  {
    hide FlightInv, LogInv;
    RunInv(w, run, ev, i);
    RunInv(w, run, ev, j);
    SameKeyOfTask(w, run[i], ev[i].r);
    SameKeyOfTask(w, run[j], ev[j].r);
    OutcomeIsFinal(w, run, ev, i, j, run[i].requests[ev[i].r].phase.task);
    NoMintCancelled(run[i], run[i].requests[ev[i].r].phase.task);
  }

  lemma NoMintCancelled(s: State, t: nat)
    requires FlightInv(s) && t < |s.tasks|
    ensures !s.tasks[t].outcome.MintCancelled?
  {
  }

  lemma SameKeyOfTask(w: World, s: State, r: nat)
    requires RequestInv(w, s) && r in s.requests && s.requests[r].phase.Waiting?
    ensures s.requests[r].phase.task < |s.tasks| && s.tasks[s.requests[r].phase.task].key == s.requests[r].phase.key
  {
    assert RequestOk(w, s, s.requests[r]);
  }

  ghost predicate CanRun(w: World, s: State, es: seq<Event>)
    decreases es
  {
    es == [] || (Enabled(s, es[0]) && CanRun(w, Step(w, s, es[0]), es[1..]))
  }

  ghost function RunFrom(w: World, s: State, es: seq<Event>): State
    requires CanRun(w, s, es)
    decreases es
  {
    if es == [] then s else RunFrom(w, Step(w, s, es[0]), es[1..])
  }

  /** However many callers disconnect, nothing shared changes and no other caller is touched. */
  lemma {:induction false} DisconnectsTouchNothingShared(w: World, s: State, es: seq<Event>)
    requires CanRun(w, s, es)
    requires forall e :: e in es ==> e.Disconnect?
    ensures var f := RunFrom(w, s, es);
      && f == s.(requests := f.requests)
      && f.requests.Keys == s.requests.Keys
      && forall r :: r in s.requests && Disconnect(r) !in es ==> f.requests[r] == s.requests[r]
    decreases es
  {
    if es != [] {
      var g := Step(w, s, es[0]);
      assert es[0] in es && es[0].Disconnect?;
      assert g == WithPhase(s, es[0].r, Cancelled);
      assert g.requests.Keys == s.requests.Keys;
      DisconnectsTouchNothingShared(w, g, es[1..]);
    }
  }

  lemma MintingStep(w: World, s: State, e: Event, t: nat)
    requires Enabled(s, e) && t < |s.tasks| && s.tasks[t].outcome.Minting?
    ensures t < |Step(w, s, e).tasks| && !Step(w, s, e).tasks[t].outcome.MintCancelled?
    ensures Step(w, s, e).tasks[t].outcome.Minting? <==> (e.MintReturns? ==> e.task != t)
  {
    if !e.MintReturns? && !e.Arrive? {
      assert Step(w, s, e).tasks == s.tasks;
    }
  }

  /** Whoever disconnects, a mint ends only with its own answer, and none is ever cancelled. */
  lemma {:induction false} MintOutlivesCallers(w: World, run: seq<State>, ev: seq<Event>, i: nat, j: nat, t: nat)
    requires IsRun(w, run, ev) && i <= j < |run|
    requires t < |run[i].tasks| && run[i].tasks[t].outcome.Minting?
    ensures t < |run[j].tasks| && !run[j].tasks[t].outcome.MintCancelled?
    ensures run[j].tasks[t].outcome.Minting? <==> forall m :: i <= m < j && ev[m].MintReturns? ==> ev[m].task != t
  {
    hide Step;
    if i < j {
      MintOutlivesCallers(w, run, ev, i, j - 1, t);
      if run[j - 1].tasks[t].outcome.Minting? {
        MintingStep(w, run[j - 1], ev[j - 1], t);
      } else {
        OutcomeStep(w, run[j - 1], ev[j - 1], t);
      }
    }
  }

  // ---- What a request is told ----

  /** `None`, or text that Python takes for false. */
  predicate Absent(o: Option<string>) {
    o == None || o == Some("")
  }

  /** Why a request is answered with `status` in this step. */
  ghost predicate Reason(w: World, s: State, e: Event, r: nat, status: int) {
    match e
    case Arrive(x, q) =>
      && x == r && Absent(q.authzHeader)
      && if Absent(q.sub) || Absent(q.workspaceHeader) then status == 401
         else w.parseUuid(q.workspaceHeader.value).None? && status == 400
    case Resume(x) =>
      && x == r && r in s.requests && s.requests[r].phase.Waiting?
      && s.requests[r].phase.task < |s.tasks| && s.tasks[s.requests[r].phase.task].outcome.MintFailed?
      && var d := s.tasks[s.requests[r].phase.task].outcome.status;
         || (status == 401 && d == Some(400))
         || (status == 403 && (d == Some(403) || d == Some(409)))
         || (status == 429 && d == Some(429))
         || (status == 503 && d != Some(400) && d != Some(403) && d != Some(409) && d != Some(429))
    case Verified(x, scope) =>
      && x == r && r in s.requests && s.requests[r].phase.Holding?
      && var sub, c := s.requests[r].incoming.sub, w.decode(s.requests[r].phase.token);
         var bound := !Absent(sub) && c.idpSub == sub;
         var ours := !Absent(c.svc) && c.svc == Some(scope);
         var parses := c.wid.Some? && w.parseUuid(c.wid.value).Some? && c.otherClaimsParse;
         (status == 401 && (!bound || (ours && !parses))) || (status == 403 && bound && !ours)
    case VerifyFails(x) => x == r && status == 401
    case _ => false
  }

  predicate IsReplied(s: State, r: nat, status: int) {
    r in s.requests && s.requests[r].phase == Replied(status)
  }

  lemma RepliesExactly(w: World, s: State, e: Event, r: nat, status: int)
    requires Enabled(s, e) && !(r in s.requests && s.requests[r].phase.Replied?)
    ensures IsReplied(Step(w, s, e), r, status) <==> Reason(w, s, e, r, status)
  {
    if !((e.Arrive? || e.Resume? || e.Disconnect? || e.Verified? || e.VerifyFails?) && e.r == r) {
      if r in s.requests {
        OtherRequests(w, s, e, r);
      } else {
        RequestKeys(w, s, e);
      }
    }
  }

  lemma RepliedStays(w: World, s: State, e: Event, r: nat)
    requires Enabled(s, e) && r in s.requests && s.requests[r].phase.Replied?
    ensures r in Step(w, s, e).requests && Step(w, s, e).requests[r] == s.requests[r]
  {
    OtherRequests(w, s, e, r);
  }

  /** A request is answered with a status exactly when there was a step with a reason for that status. */
  lemma {:induction false} RepliedExactlyForReason(
      w: World, run: seq<State>, ev: seq<Event>, i: nat, r: nat, status: int)
    requires IsRun(w, run, ev) && i < |run|
    ensures IsReplied(run[i], r, status) <==> exists j :: 0 <= j < i && Reason(w, run[j], ev[j], r, status)
  {
    hide Step, Reason, Enabled;
    if i > 0 {
      RepliedExactlyForReason(w, run, ev, i - 1, r, status);
      if r in run[i - 1].requests && run[i - 1].requests[r].phase.Replied? {
        RepliedStays(w, run[i - 1], ev[i - 1], r);
        NoReasonAfterReply(w, run[i - 1], ev[i - 1], r, status);
      } else {
        RepliesExactly(w, run[i - 1], ev[i - 1], r, status);
      }
    }
  }

  lemma NoReasonAfterReply(w: World, s: State, e: Event, r: nat, status: int)
    requires Enabled(s, e) && r in s.requests && s.requests[r].phase.Replied?
    ensures !Reason(w, s, e, r, status)
  {
  }

  /** A token in the request's own header is the only one it goes by, whatever other headers it has. */
  ghost predicate GoesByOwnToken(q: Request) {
    match q.phase
    case Waiting(_, _) => Absent(q.incoming.authzHeader)
    case Holding(token, source) =>
      if Absent(q.incoming.authzHeader) then source.Resolved? else source.Presented? && Some(token) == q.incoming.authzHeader
    case Admitted(_, token, source) =>
      if Absent(q.incoming.authzHeader) then source.Resolved? else source.Presented? && Some(token) == q.incoming.authzHeader
    case _ => true
  }

  lemma OwnTokenStep(w: World, s: State, e: Event, r: nat)
    requires Enabled(s, e) && r in Step(w, s, e).requests
    requires r in s.requests ==> GoesByOwnToken(s.requests[r])
    ensures GoesByOwnToken(Step(w, s, e).requests[r])
    ensures e.Arrive? && e.r == r && !Absent(e.incoming.authzHeader) ==>
      Step(w, s, e).tasks == s.tasks && Step(w, s, e).pending == s.pending
  {
    hide Step, Enabled, GoesByOwnToken;
    if (e.Arrive? || e.Resume? || e.Disconnect? || e.Verified? || e.VerifyFails?) && e.r == r {
      OwnTokenOwnStep(w, s, e);
    } else {
      RequestKeys(w, s, e);
      OtherRequests(w, s, e, r);
    }
  }

  lemma OwnTokenOwnStep(w: World, s: State, e: Event)
    requires Enabled(s, e) && (e.Arrive? || e.Resume? || e.Disconnect? || e.Verified? || e.VerifyFails?)
    requires e.r in s.requests ==> GoesByOwnToken(s.requests[e.r])
    ensures e.r in Step(w, s, e).requests && GoesByOwnToken(Step(w, s, e).requests[e.r])
    ensures e.Arrive? && !Absent(e.incoming.authzHeader) ==>
      Step(w, s, e).tasks == s.tasks && Step(w, s, e).pending == s.pending
  {
    match e
    case Arrive(r, q) => ArrivesByOwnToken(w, s, q);
    case Verified(r, scope) => VerifiedByOwnToken(w, s, r, scope);
    case _ =>
  }

  lemma ArrivesByOwnToken(w: World, s: State, q: Incoming)
    ensures GoesByOwnToken(Request(q, Place(w, s, q).phase))
    ensures !Absent(q.authzHeader) ==> Place(w, s, q).starts.None?
  {
  }

  lemma VerifiedByOwnToken(w: World, s: State, r: nat, scope: string)
    requires r in s.requests && s.requests[r].phase.Holding? && GoesByOwnToken(s.requests[r])
    ensures r in StepVerified(w, s, r, scope).requests && GoesByOwnToken(StepVerified(w, s, r, scope).requests[r])
  {
  }

  /** In every run a presented token wins over auto-resolve, and without one the token is a minted one. */
  lemma {:induction false} PresentedTokenWins(w: World, run: seq<State>, ev: seq<Event>, i: nat, r: nat)
    requires IsRun(w, run, ev) && i < |run| && r in run[i].requests
    ensures GoesByOwnToken(run[i].requests[r])
  {
    hide Step, GoesByOwnToken;
    if i > 0 {
      if r in run[i - 1].requests {
        PresentedTokenWins(w, run, ev, i - 1, r);
      }
      OwnTokenStep(w, run[i - 1], ev[i - 1], r);
    }
  }

  /**
   How a mint ends: with a token exactly when Duar's body has a non-empty one, which is then the one logged
   and cached, and else failed, with Duar's status only when Duar refused.
   */
  lemma MintEndsExactly(w: World, s: State, t: nat, answer: Answer)
    requires Distinct(s.cache) && Enabled(s, MintReturns(t, answer))
    ensures var f, o := Step(w, s, MintReturns(t, answer)), Step(w, s, MintReturns(t, answer)).tasks[t].outcome;
      && (o.Minted? <==> answer.Body? && !Absent(answer.token))
      && (o.Minted? ==>
            && answer.token == Some(o.token) && o.mint == |s.log|
            && f.log == s.log + [Mint(s.tasks[t].key, o.token, s.now, answer.expiresIn)]
            && Get(f.cache, s.tasks[t].key) == Some(Cached(o.token,
                 if answer.expiresIn.Some? then s.now + 0.8 * answer.expiresIn.value else s.now + 240.0)))
      && (!o.Minted? ==>
            o == MintFailed(if answer.Refused? then answer.status else None) && f.log == s.log && f.cache == s.cache)
  {
    hide Store, Get, Distinct;
    if OutcomeOf(answer, |s.log|).Minted? {
      StoreKeepsNewest(s.cache, Mint(s.tasks[t].key, answer.token.value, s.now, answer.expiresIn));
    }
  }

  /** Run every queued `_done` callback. */
  ghost function Drain(w: World, s: State): State
    requires FlightInv(s)
    decreases |s.doneQueue|
  {
    if s.doneQueue == [] then s
    else
      assert s.doneQueue[0] in s.doneQueue;
      FlightDone(s);
      Drain(w, Step(w, s, DoneRuns))
  }

  /** No stuck key: once all mints have finished, the queued callbacks empty the table and free every waiter. */
  lemma {:induction false} DrainEmptiesTable(w: World, s: State)
    requires Inv(w, s)
    requires forall t :: 0 <= t < |s.tasks| ==> !s.tasks[t].outcome.Minting?
    ensures var f := Drain(w, s);
      && f.pending == map[] && f.doneQueue == []
      && f == s.(pending := map[], doneQueue := [])
      && forall r :: r in f.requests && f.requests[r].phase.Waiting? ==> Enabled(f, Resume(r))
    decreases |s.doneQueue|
  {
    if s.doneQueue == [] {
      assert s.pending == map[];
      forall r | r in s.requests && s.requests[r].phase.Waiting? ensures Enabled(s, Resume(r)) {
        assert RequestOk(w, s, s.requests[r]);
      }
    } else {
      assert s.doneQueue[0] in s.doneQueue;
      InvStep(w, s, DoneRuns);
      DrainEmptiesTable(w, Step(w, s, DoneRuns));
    }
  }

  // ---- The cache ----

  /** `newer` is 4096 keys, not `key`, each minted after `key` last was. */
  ghost predicate Superseded(newer: set<string>, log: seq<Mint>, key: string) {
    && |newer| == 4096 && key !in newer
    && forall q :: q in newer ==> LastMint(log, q) > LastMint(log, key) >= 0
  }

  ghost predicate Pops(s: State, e: Event, key: string) {
    e.VerifyFails? && e.r in s.requests && s.requests[e.r].phase.Holding?
    && s.requests[e.r].phase.source.Resolved? && s.requests[e.r].phase.source.key == key
  }

  ghost predicate Succeeds(s: State, e: Event, key: string) {
    e.MintReturns? && e.task < |s.tasks| && s.tasks[e.task].key == key && OutcomeOf(e.answer, |s.log|).Minted?
  }

  ghost predicate Evicts(w: World, s: State, e: Event, key: string) {
    Enabled(s, e) && e.MintReturns? && Has(s.cache, key) && !Has(Step(w, s, e).cache, key)
  }

  /** An entry stays as it is unless its key is minted again, popped, or evicted. */
  lemma EntryStays(w: World, s: State, e: Event, key: string)
    requires Distinct(s.cache) && Enabled(s, e) && Has(s.cache, key)
    requires Undisturbed(w, s, e, key)
    ensures Get(Step(w, s, e).cache, key) == Get(s.cache, key)
  {
    var f := Step(w, s, e);
    if e.MintReturns? && OutcomeOf(e.answer, |s.log|).Minted? {
      var m := Mint(s.tasks[e.task].key, e.answer.token.value, s.now, e.answer.expiresIn);
      assert f.cache == Store(s.cache, m);
      StoreKeepsOthers(s.cache, m, key);
    } else if e.VerifyFails? && s.requests[e.r].phase.source.Resolved? {
      GetRemove(s.cache, s.requests[e.r].phase.source.key, key);
    } else {
      assert f.cache == s.cache;
    }
  }

  /**
   Eviction follows mint recency: the cache stays within its bound and sorted by last mint, the key
   just minted is last, and a key leaves only by a failed verification or because 4096 other keys
   were minted since.
   */
  lemma EvictionFollowsRecency(w: World, run: seq<State>, ev: seq<Event>, i: nat)
    requires IsRun(w, run, ev) && i < |ev|
    ensures var s, f := run[i], run[i + 1];
      && |f.cache| <= 4096 && ByRecency(f.cache, f.log)
      && (forall key :: Succeeds(s, ev[i], key) ==> f.cache != [] && f.cache[|f.cache| - 1].key == key)
      && (forall key :: Has(s.cache, key) && !Has(f.cache, key) ==>
            Pops(s, ev[i], key) || exists newer :: Superseded(newer, f.log, key))
  {
    hide FlightInv, RequestInv;
    RunInv(w, run, ev, i);
    RunInv(w, run, ev, i + 1);
    var s, f, e := run[i], run[i + 1], ev[i];
    if e.MintReturns? && OutcomeOf(e.answer, |s.log|).Minted? {
      StoreKeepsNewest(s.cache, Mint(s.tasks[e.task].key, e.answer.token.value, s.now, e.answer.expiresIn));
    }
    forall key | Has(s.cache, key) && !Has(f.cache, key) && !Pops(s, e, key)
      ensures exists newer :: Superseded(newer, f.log, key)
    {
      LossIsEviction(w, s, e, key);
    }
  }

  lemma LossIsEviction(w: World, s: State, e: Event, key: string)
    requires Inv(w, s) && Enabled(s, e) && Has(s.cache, key) && !Has(Step(w, s, e).cache, key) && !Pops(s, e, key)
    ensures exists newer :: Superseded(newer, Step(w, s, e).log, key)
  {
    if Succeeds(s, e, key) {
      StoreKeepsNewest(s.cache, Mint(key, e.answer.token.value, s.now, e.answer.expiresIn));
      assert false;
    } else if !Evicts(w, s, e, key) {
      EntryStays(w, s, e, key);
      assert false;
    } else {
      var m := Mint(s.tasks[e.task].key, e.answer.token.value, s.now, e.answer.expiresIn);
      var newer := EvictedOnlyWhenStale(s.cache, s.log, m, key);
      assert Superseded(newer, Step(w, s, e).log, key);
    }
  }

  /** A successful mint leaves exactly its own answer in the cache. */
  lemma SuccessStores(w: World, s: State, e: Event, key: string)
    requires Distinct(s.cache) && Enabled(s, e) && Succeeds(s, e, key)
    ensures Get(Step(w, s, e).cache, key) ==
      Some(Cached(e.answer.token.value, s.now + ReuseTime(e.answer.expiresIn)))
  {
    StoreKeepsNewest(s.cache, Mint(key, e.answer.token.value, s.now, e.answer.expiresIn));
  }

  ghost predicate Undisturbed(w: World, s: State, e: Event, key: string) {
    !Succeeds(s, e, key) && !Pops(s, e, key) && !Evicts(w, s, e, key)
  }

  lemma RunDistinct(w: World, run: seq<State>, ev: seq<Event>, i: nat)
    requires IsRun(w, run, ev) && i < |run|
    ensures Distinct(run[i].cache)
  {
    RunInv(w, run, ev, i);
  }

  /** Between its last mint and step `j`, an entry that was neither popped nor evicted is still what was stored. */
  lemma {:induction false} EntryStaysOver(w: World, run: seq<State>, ev: seq<Event>, i: nat, j: nat, key: string)
    requires IsRun(w, run, ev) && i < j < |run| && Succeeds(run[i], ev[i], key)
    requires forall m :: i < m < j ==> Undisturbed(w, run[m], ev[m], key)
    ensures Get(run[j].cache, key) ==
      Some(Cached(ev[i].answer.token.value, run[i].now + ReuseTime(ev[i].answer.expiresIn)))
  {
    hide Step, Undisturbed, Store;
    RunDistinct(w, run, ev, j - 1);
    if j == i + 1 {
      SuccessStores(w, run[i], ev[i], key);
    } else {
      EntryStaysOver(w, run, ev, i, j - 1, key);
      assert Undisturbed(w, run[j - 1], ev[j - 1], key);
      EntryStays(w, run[j - 1], ev[j - 1], key);
    }
  }

  /**
   Duar is asked again for a key only with a reason: the deadline stored by the key's last mint has
   passed, or the entry was popped by a failed verification on that key, or it was evicted.
   */
  lemma RemintIsJustified(w: World, run: seq<State>, ev: seq<Event>, i: nat, j: nat, key: string)
    requires IsRun(w, run, ev) && i < j < |ev|
    requires Succeeds(run[i], ev[i], key) && StartsMint(w, run[j], ev[j], key)
    requires forall m :: i < m < j ==> !Succeeds(run[m], ev[m], key)
    ensures
      || (ev[i].answer.expiresIn.Some? && run[j].now >= run[i].now + 0.8 * ev[i].answer.expiresIn.value)
      || (ev[i].answer.expiresIn.None? && run[j].now >= run[i].now + 240.0)
      || exists m :: i < m < j && (Pops(run[m], ev[m], key) || Evicts(w, run[m], ev[m], key))
  {
    if forall m :: i < m < j ==> !Pops(run[m], ev[m], key) && !Evicts(w, run[m], ev[m], key) {
      assert forall m :: i < m < j ==> Undisturbed(w, run[m], ev[m], key);
      EntryStaysOver(w, run, ev, i, j, key);
      StartsOnlyWhenIdle(w, run[j], ev[j].incoming);
    }
  }

  /** A key that is not in the cache does not come into it except by a mint. */
  lemma AbsentStep(w: World, s: State, e: Event, key: string)
    requires Distinct(s.cache) && Enabled(s, e) && !Has(s.cache, key) && !Succeeds(s, e, key)
    ensures !Has(Step(w, s, e).cache, key)
  {
    var f := Step(w, s, e);
    if e.MintReturns? && OutcomeOf(e.answer, |s.log|).Minted? {
      StoreAddsOnlyItsKey(s.cache, Mint(s.tasks[e.task].key, e.answer.token.value, s.now, e.answer.expiresIn), key);
    } else if e.VerifyFails? && s.requests[e.r].phase.source.Resolved? {
      NotHas(s.cache, key);
      GetRemove(s.cache, s.requests[e.r].phase.source.key, key);
    } else {
      assert f.cache == s.cache;
    }
  }

  lemma StoreAddsOnlyItsKey(cache: Cache, m: Mint, key: string)
    requires Distinct(cache) && key != m.key && !Has(cache, key)
    ensures !Has(Store(cache, m), key)
  {
    StoreSubset(cache, m);
    var r := Store(cache, m);
    var i := IndexOf(r, key);
    if i < |r| {
      assert r[i] in r;
      GetEntry(cache, r[i]);
    }
  }

  lemma {:induction false} AbsentOver(w: World, run: seq<State>, ev: seq<Event>, i: nat, j: nat, key: string)
    requires IsRun(w, run, ev) && i <= j < |run| && !Has(run[i].cache, key)
    requires forall m :: i <= m < j ==> !Succeeds(run[m], ev[m], key)
    ensures !Has(run[j].cache, key)
  {
    hide Step, Succeeds, Has;
    if i < j {
      AbsentOver(w, run, ev, i, j - 1, key);
      RunDistinct(w, run, ev, j - 1);
      AbsentStep(w, run[j - 1], ev[j - 1], key);
    }
  }

  /** The request has no token of its own and is resolved under `key`. */
  predicate AsksFor(w: World, q: Incoming, key: string) {
    !Truthy(q.authzHeader) && ResolveKey(w, q) == Some(key)
  }

  /** The cache answers a request for `key` exactly when it has an entry for it whose deadline is ahead. */
  lemma PlacedFromCache(w: World, s: State, q: Incoming, key: string)
    requires AsksFor(w, q, key)
    ensures var p, hit := Place(w, s, q).phase, CacheHit(s.cache, key, s.now);
      && (hit.Some? ==> p.Holding? && p.token == hit.value && p.source.Resolved? && p.source.key == key)
      && (hit.Some? && LastMint(s.log, key) >= 0 ==> p.source.mint == LastMint(s.log, key))
      && (hit.None? ==> p.Waiting?)
  {
  }

  lemma ServedWhileKept(w: World, run: seq<State>, ev: seq<Event>, h: nat, j: nat, key: string)
    requires IsRun(w, run, ev) && h < j < |ev| && Succeeds(run[h], ev[h], key)
    requires ev[j].Arrive? && AsksFor(w, ev[j].incoming, key)
    ensures Place(w, run[j], ev[j].incoming).phase == Holding(ev[h].answer.token.value, Resolved(key, |run[h].log|)) <==>
      && run[j].now < run[h].now + ReuseTime(ev[h].answer.expiresIn)
      && forall m :: h < m < j ==> Undisturbed(w, run[m], ev[m], key)
  {
    hide Step, Place, Undisturbed, Succeeds, Inv, ReuseTime;
    var s, q := run[j], ev[j].incoming;
    PlacedFromCache(w, s, q, key);
    LastMintOver(w, run, ev, h, j, key);
    if forall m :: h < m < j ==> Undisturbed(w, run[m], ev[m], key) {
      EntryStaysOver(w, run, ev, h, j, key);
      UndisturbedNoMint(w, run, ev, h, j, key);
    } else if CacheHit(s.cache, key, s.now).Some? && LastMint(s.log, key) == |run[h].log| {
      var m :| h < m < j && !Undisturbed(w, run[m], ev[m], key);
      DisturbedIsGone(w, run, ev, m, key);
      AbsentOver(w, run, ev, m + 1, j, key);
      assert false;
    }
  }

  /**
   From its mint at step `h` on, a token is handed to the requests of its key exactly until 80% of a numeric
   lifetime or 240 seconds have passed, or a failed verification on the key, an eviction, or the key's next
   mint. No refusal is among them.
   */
  lemma ServedExactlyWhileKept(w: World, run: seq<State>, ev: seq<Event>, h: nat, j: nat, key: string)
    requires IsRun(w, run, ev) && h < j < |ev| && Succeeds(run[h], ev[h], key)
    requires ev[j].Arrive? && AsksFor(w, ev[j].incoming, key)
    ensures Place(w, run[j], ev[j].incoming).phase == Holding(ev[h].answer.token.value, Resolved(key, |run[h].log|)) <==>
      && (ev[h].answer.expiresIn.Some? ==> run[j].now < run[h].now + 0.8 * ev[h].answer.expiresIn.value)
      && (ev[h].answer.expiresIn.None? ==> run[j].now < run[h].now + 240.0)
      && forall m :: h < m < j ==> Undisturbed(w, run[m], ev[m], key)
  {
    hide Step, Place, Undisturbed, Inv;
    var reuse := ReuseTime(ev[h].answer.expiresIn);
    assert ev[h].answer.expiresIn.Some? ==> reuse == 0.8 * ev[h].answer.expiresIn.value;
    ServedWhileKept(w, run, ev, h, j, key);
    if Place(w, run[j], ev[j].incoming).phase == Holding(ev[h].answer.token.value, Resolved(key, |run[h].log|)) {
      assert run[j].now < run[h].now + reuse;
    } else {
      assert !(run[j].now < run[h].now + reuse && forall m :: h < m < j ==> Undisturbed(w, run[m], ev[m], key));
    }
  }

  /**
   The dual of popping what does not verify: a token refused for its subject, scope or claims stays, and the
   next request of the key is handed the same one.
   */
  lemma RefusedTokenIsServedAgain(
      w: World, run: seq<State>, ev: seq<Event>, h: nat, i: nat, j: nat, key: string)
    requires IsRun(w, run, ev) && h < i < j < |ev| && Succeeds(run[h], ev[h], key)
    requires ev[i].Verified? && ev[i].r in run[i].requests
    requires run[i].requests[ev[i].r].phase == Holding(ev[h].answer.token.value, Resolved(key, |run[h].log|))
    requires ev[i].r in run[i + 1].requests && run[i + 1].requests[ev[i].r].phase.Replied?
    requires ev[j].Arrive? && AsksFor(w, ev[j].incoming, key)
    requires ev[h].answer.expiresIn.Some? ==> run[j].now < run[h].now + 0.8 * ev[h].answer.expiresIn.value
    requires ev[h].answer.expiresIn.None? ==> run[j].now < run[h].now + 240.0
    requires forall m :: h < m < j && m != i ==> Undisturbed(w, run[m], ev[m], key)
    ensures Place(w, run[j], ev[j].incoming).phase == run[i].requests[ev[i].r].phase
  {
    assert Undisturbed(w, run[i], ev[i], key);
    ServedExactlyWhileKept(w, run, ev, h, j, key);
  }

  lemma UndisturbedNoMint(w: World, run: seq<State>, ev: seq<Event>, h: nat, j: nat, key: string)
    requires |run| == |ev| + 1 && h < j < |run|
    requires forall m :: h < m < j ==> Undisturbed(w, run[m], ev[m], key)
    ensures forall m :: h < m < j ==> !Succeeds(run[m], ev[m], key)
  {
    forall m | h < m < j ensures !Succeeds(run[m], ev[m], key) {
      assert Undisturbed(w, run[m], ev[m], key);
    }
  }

  lemma DisturbedIsGone(w: World, run: seq<State>, ev: seq<Event>, m: nat, key: string)
    requires IsRun(w, run, ev) && m < |ev|
    requires !Undisturbed(w, run[m], ev[m], key) && !Succeeds(run[m], ev[m], key)
    ensures !Has(run[m + 1].cache, key)
  {
    if Pops(run[m], ev[m], key) {
      RunInv(w, run, ev, m);
      PopRemoves(w, run[m], ev[m], key);
    }
  }

  /** A token served from the cache was received at `T <= now < T + 0.8 * expires_in` (240 seconds when not numeric). */
  lemma ReuseInsideLifetime(w: World, run: seq<State>, ev: seq<Event>, j: nat)
    requires IsRun(w, run, ev) && j < |ev| && ev[j].Arrive?
    requires var p := Place(w, run[j], ev[j].incoming).phase; p.Holding? && p.source.Resolved?
    ensures var p, s := Place(w, run[j], ev[j].incoming).phase, run[j];
      && p.source.mint < |s.log|
      && var m := s.log[p.source.mint];
         && m.token == p.token && m.key == p.source.key
         && p.source.mint == LastMint(s.log, m.key)
         && m.receivedAt <= s.now
         && (m.expiresIn.Some? ==> m.expiresIn.value > 0.0 && s.now < m.receivedAt + 0.8 * m.expiresIn.value)
         && (m.expiresIn.None? ==> s.now < m.receivedAt + 240.0)
  {
    RunInv(w, run, ev, j);
    var s, q := run[j], ev[j].incoming;
    HitIsLastMint(s.cache, s.log, ResolveKey(w, q).value, s.now);
  }

  // ---- Which mint a failed verification pops ----

  /** The step that logged mint number `n`. */
  lemma {:induction false} LoggedAt(w: World, run: seq<State>, ev: seq<Event>, i: nat, n: nat) returns (h: nat)
    requires IsRun(w, run, ev) && i < |run| && n < |run[i].log|
    ensures h < i && |run[h].log| == n && Succeeds(run[h], ev[h], run[i].log[n].key)
  {
    hide Step;
    LogChange(w, run[i - 1], ev[i - 1]);
    if n < |run[i - 1].log| {
      h := LoggedAt(w, run, ev, i - 1, n);
    } else {
      h := i - 1;
    }
  }

  /** The last mint of a key moves exactly when one succeeds. */
  lemma {:induction false} LastMintOver(w: World, run: seq<State>, ev: seq<Event>, h: nat, i: nat, key: string)
    requires IsRun(w, run, ev) && h < i < |run| && Succeeds(run[h], ev[h], key)
    ensures |run[h].log| < |run[i].log|
    ensures LastMint(run[i].log, key) >= |run[h].log|
    ensures LastMint(run[i].log, key) == |run[h].log| <==> forall m :: h < m < i ==> !Succeeds(run[m], ev[m], key)
  {
    hide Step, LastMint;
    var s, f := run[i - 1], run[i];
    LogChange(w, s, ev[i - 1]);
    if |f.log| > |s.log| {
      LastMintAfter(s.log, f.log[|s.log|], key);
    }
    if h < i - 1 {
      LastMintOver(w, run, ev, h, i - 1, key);
    }
  }

  lemma PopRemoves(w: World, s: State, e: Event, key: string)
    requires LogInv(s) && Enabled(s, e) && Pops(s, e, key)
    ensures !Has(Step(w, s, e).cache, key)
    ensures Has(s.cache, key) ==>
      LastMint(s.log, key) >= 0 && Get(s.cache, key) == Some(Entry(s.log[LastMint(s.log, key)]))
  {
    GetRemove(s.cache, key, key);
    var k := IndexOf(s.cache, key);
    assert Has(s.cache, key) ==> s.cache[k].key == key;
  }

  /**
   A failed verification pops by key, whatever is stored there now. What it pops is a newer mint than
   the one that failed exactly when the key was minted again since step `h`, which minted the failed token.
   */
  lemma PopDropsNewerMint(w: World, run: seq<State>, ev: seq<Event>, i: nat, key: string) returns (h: nat)
    requires IsRun(w, run, ev) && i < |ev| && Pops(run[i], ev[i], key)
    ensures !Has(run[i + 1].cache, key)
    ensures var s, p := run[i], run[i].requests[ev[i].r].phase;
      && h < i && Succeeds(run[h], ev[h], key)
      && |run[h].log| == p.source.mint < |s.log| && s.log[p.source.mint].token == p.token
      && LastMint(s.log, key) >= p.source.mint
      && (Has(s.cache, key) ==> Get(s.cache, key) == Some(Entry(s.log[LastMint(s.log, key)])))
      && (LastMint(s.log, key) > p.source.mint <==> exists m :: h < m < i && Succeeds(run[m], ev[m], key))
  {
    hide Succeeds, FlightInv, CacheInv, Step, Has, Get;
    RunInv(w, run, ev, i);
    var s := run[i];
    assert RequestOk(w, s, s.requests[ev[i].r]);
    h := LoggedAt(w, run, ev, i, s.requests[ev[i].r].phase.source.mint);
    LastMintOver(w, run, ev, h, i, key);
    PopRemoves(w, s, ev[i], key);
  }

  // ---- The right workspace ----

  /** If the token names a workspace at all, it is `u`. */
  predicate TokenIsFor(w: World, token: string, u: Uuid) {
    var wid := w.decode(token).wid;
    wid.Some? && w.parseUuid(wid.value).Some? ==> w.parseUuid(wid.value) == Some(u)
  }

  /** Duar's contract: a mint answers with a token for the workspace it was asked for. */
  ghost predicate Honest(w: World, s: State, e: Event) {
    e.MintReturns? && e.task < |s.tasks| && OutcomeOf(e.answer, 0).Minted? ==>
      TokenIsFor(w, e.answer.token.value, s.tasks[e.task].workspace)
  }

  ghost predicate HonestLog(w: World, log: seq<Mint>) {
    forall n, sub, u: Uuid :: 0 <= n < |log| && log[n].key == CacheKey(sub, u) ==> TokenIsFor(w, log[n].token, u)
  }

  ghost predicate AdmittedOk(w: World, q: Request) {
    q.phase.Admitted? ==>
      var c := w.decode(q.phase.token);
      && c.wid.Some? && w.parseUuid(c.wid.value) == Some(q.phase.workspace)
      && Truthy(q.incoming.sub) && c.idpSub == q.incoming.sub
  }

  /**
   A request is admitted by no other step than its own verification, and then exactly when the token's
   subject is the IdP token's, its service is the effective scope, and its claims parse.
   */
  lemma AdmissionIsBound(w: World, s: State, e: Event, r: nat)
    requires Enabled(s, e) && r in s.requests && !s.requests[r].phase.Admitted?
    ensures r in Step(w, s, e).requests
    ensures Step(w, s, e).requests[r].phase.Admitted? <==>
      && e.Verified? && e.r == r
      && s.requests[r].phase.Holding?
      && var q, c := s.requests[r], w.decode(s.requests[r].phase.token);
         && Truthy(q.incoming.sub) && c.idpSub == q.incoming.sub
         && c.svc == Some(e.scope) && e.scope != ""
         && c.wid.Some? && w.parseUuid(c.wid.value).Some? && c.otherClaimsParse
    ensures var p := Step(w, s, e).requests[r].phase;
      p.Admitted? ==> p.token == s.requests[r].phase.token && p.source == s.requests[r].phase.source
  {
    if !((e.Resume? || e.Disconnect? || e.Verified? || e.VerifyFails?) && e.r == r) {
      OtherRequests(w, s, e, r);
    }
  }

  lemma HonestStep(w: World, s: State, e: Event)
    requires Inv(w, s) && Enabled(s, e) && Honest(w, s, e) && HonestLog(w, s.log)
    ensures HonestLog(w, Step(w, s, e).log)
  {
    hide CacheInv, FlightInv, RequestInv, HonestLog, Step, TokenIsFor;
    LogChange(w, s, e);
    if e.MintReturns? && OutcomeOf(e.answer, |s.log|).Minted? {
      var task := s.tasks[e.task];
      HonestAppend(w, s.log, Mint(task.key, e.answer.token.value, s.now, e.answer.expiresIn), task.sub, task.workspace);
    }
  }

  lemma HonestAppend(w: World, log: seq<Mint>, m: Mint, sub: string, u: Uuid)
    requires HonestLog(w, log) && m.key == CacheKey(sub, u) && TokenIsFor(w, m.token, u)
    ensures HonestLog(w, log + [m])
  {
    forall n, other, v: Uuid | 0 <= n < |log| + 1 && (log + [m])[n].key == CacheKey(other, v)
      ensures TokenIsFor(w, (log + [m])[n].token, v)
    {
      if n == |log| {
        CacheKeyInjective(other, v, sub, u);
      }
    }
  }

  lemma AdmittedStep(w: World, s: State, e: Event)
    requires Enabled(s, e)
    requires forall r :: r in s.requests ==> AdmittedOk(w, s.requests[r])
    ensures var f := Step(w, s, e); forall r :: r in f.requests ==> AdmittedOk(w, f.requests[r])
  {
    var f := Step(w, s, e);
    forall r | r in f.requests ensures AdmittedOk(w, f.requests[r]) {
      if (e.Arrive? || e.Resume? || e.Disconnect? || e.Verified? || e.VerifyFails?) && e.r == r {
        AdmittedOwnStep(w, s, e);
      } else {
        OtherRequests(w, s, e, r);
      }
    }
  }

  lemma AdmittedOwnStep(w: World, s: State, e: Event)
    requires Enabled(s, e)
    requires e.Arrive? || e.Resume? || e.Disconnect? || e.Verified? || e.VerifyFails?
    ensures e.r in Step(w, s, e).requests && AdmittedOk(w, Step(w, s, e).requests[e.r])
  {
    match e
    case Arrive(r, q) => NeverAdmittedOnArrival(w, s, q);
    case Verified(r, scope) => VerifiedOk(w, s, r, scope);
    case _ =>
  }

  lemma NeverAdmittedOnArrival(w: World, s: State, q: Incoming)
    ensures !Place(w, s, q).phase.Admitted?
  {
  }

  lemma VerifiedOk(w: World, s: State, r: nat, scope: string)
    requires r in s.requests && s.requests[r].phase.Holding?
    ensures AdmittedOk(w, StepVerified(w, s, r, scope).requests[r])
  {
  }

  lemma {:induction false} RunHonest(w: World, run: seq<State>, ev: seq<Event>, i: nat)
    requires IsRun(w, run, ev) && i < |run|
    requires forall j :: 0 <= j < |ev| ==> Honest(w, run[j], ev[j])
    ensures HonestLog(w, run[i].log)
    ensures forall r :: r in run[i].requests ==> AdmittedOk(w, run[i].requests[r])
  {
    if i > 0 {
      RunHonest(w, run, ev, i - 1);
      RunInv(w, run, ev, i - 1);
      HonestStep(w, run[i - 1], ev[i - 1]);
      AdmittedStep(w, run[i - 1], ev[i - 1]);
    }
  }

  /**
   Every admitted auto-resolved request is given the workspace its own header names and the subject of
   its own IdP token, whichever caller's mint the token came from.
   */
  lemma RightWorkspace(w: World, run: seq<State>, ev: seq<Event>, i: nat, r: nat)
    requires IsRun(w, run, ev) && i < |run|
    requires forall j :: 0 <= j < |ev| ==> Honest(w, run[j], ev[j])
    requires r in run[i].requests
    requires run[i].requests[r].phase.Admitted? && run[i].requests[r].phase.source.Resolved?
    ensures var q, p := run[i].requests[r].incoming, run[i].requests[r].phase;
      && Truthy(q.workspaceHeader) && w.parseUuid(q.workspaceHeader.value) == Some(p.workspace)
      && Truthy(q.sub) && w.decode(p.token).idpSub == q.sub
      && p.source.key == CacheKey(q.sub.value, p.workspace)
  {
    RunInv(w, run, ev, i);
    RunHonest(w, run, ev, i);
    assert RequestOk(w, run[i], run[i].requests[r]);
    assert AdmittedOk(w, run[i].requests[r]);
  }

  // ---- A token that failed verification is not handed out again ----

  ghost function LogTokens(log: seq<Mint>): set<string> {
    set m | m in log :: m.token
  }

  /** Duar never issues the same token twice. */
  ghost predicate Fresh(s: State, e: Event) {
    e.MintReturns? && OutcomeOf(e.answer, 0).Minted? ==> e.answer.token.value !in LogTokens(s.log)
  }

  /** No route to request `r` leads to `token`: it does not hold it, and does not wait for a task that has it. */
  ghost predicate Avoids(s: State, r: nat, token: string) {
    && token in LogTokens(s.log) && r in s.requests
    && match s.requests[r].phase
       case Waiting(_, t) => t < |s.tasks| && (s.tasks[t].outcome.Minted? ==> s.tasks[t].outcome.token != token)
       case Holding(held, Resolved(_, _)) => held != token
       case Admitted(_, held, Resolved(_, _)) => held != token
       case _ => true
  }

  ghost predicate DistinctTokens(log: seq<Mint>) {
    forall m, n :: 0 <= m < n < |log| ==> log[m].token != log[n].token
  }

  ghost predicate NotServing(tasks: seq<Task>, doneQueue: seq<nat>, failed: set<string>) {
    forall t :: t in doneQueue ==>
      t < |tasks| && (tasks[t].outcome.Minted? ==> tasks[t].outcome.token !in failed)
  }

  /** Neither the cache nor a finished task still in the table has a token that failed. */
  ghost predicate FailedGone(s: State) {
    && DistinctTokens(s.log)
    && s.failed <= LogTokens(s.log)
    && (forall x :: x in s.cache ==> x.value.token !in s.failed)
    && NotServing(s.tasks, s.doneQueue, s.failed)
  }

  lemma FailedGoneStep(w: World, s: State, e: Event)
    requires Inv(w, s) && Enabled(s, e) && Fresh(s, e) && FailedGone(s)
    ensures FailedGone(Step(w, s, e))
  {
    match e
    case VerifyFails(r) => FailedGoneVerify(w, s, r);
    case MintReturns(t, answer) => FailedGoneMint(w, s, t, answer);
    case _ =>
      OtherStepsKeep(w, s, e);
      FailedGoneFrame(s, Step(w, s, e));
  }

  ghost predicate Keeps(s: State, f: State) {
    && f.log == s.log && f.failed == s.failed && f.cache == s.cache
    && (forall t :: t in f.doneQueue ==> t in s.doneQueue)
    && s.tasks <= f.tasks
  }

  lemma OtherStepsKeep(w: World, s: State, e: Event)
    requires Enabled(s, e) && !e.VerifyFails? && !e.MintReturns?
    ensures Keeps(s, Step(w, s, e))
  {
  }

  lemma FailedGoneFrame(s: State, f: State)
    requires FailedGone(s) && Keeps(s, f)
    ensures FailedGone(f)
  {
  }

  lemma LogTokensAppend(log: seq<Mint>, m: Mint)
    ensures LogTokens(log + [m]) == LogTokens(log) + {m.token}
  {
    assert m in log + [m];
    assert forall x :: x in log + [m] <==> x in log || x == m;
  }

  lemma DistinctAppend(log: seq<Mint>, m: Mint)
    requires DistinctTokens(log) && m.token !in LogTokens(log)
    ensures DistinctTokens(log + [m])
  {
    forall n | 0 <= n < |log| ensures log[n].token != m.token {
      assert log[n] in log;
    }
  }

  lemma FailedGoneMint(w: World, s: State, t: nat, answer: Answer)
    requires Inv(w, s) && Enabled(s, MintReturns(t, answer)) && Fresh(s, MintReturns(t, answer)) && FailedGone(s)
    ensures FailedGone(StepMintReturns(s, t, answer))
  {
    var f := StepMintReturns(s, t, answer);
    var o := OutcomeOf(answer, |s.log|);
    assert t !in s.doneQueue;
    assert f.tasks == s.tasks[t := s.tasks[t].(outcome := o)] && f.doneQueue == s.doneQueue + [t];
    assert o.Minted? ==> o.token !in s.failed;
    assert NotServing(f.tasks, f.doneQueue, s.failed);
    if o.Minted? {
      var m := Mint(s.tasks[t].key, o.token, s.now, answer.expiresIn);
      LogTokensAppend(s.log, m);
      DistinctAppend(s.log, m);
      StoreSubset(s.cache, m);
    }
  }

  /** A cached token other than under `key` is not one that was minted for `key`. */
  lemma OtherKeysOtherTokens(cache: Cache, log: seq<Mint>, x: Item<string, Cached>, n: nat)
    requires CacheInv(cache, log) && DistinctTokens(log) && n < |log|
    requires x in cache && x.key != log[n].key
    ensures x.value.token != log[n].token
  {
    var k :| 0 <= k < |cache| && cache[k] == x;
    assert LastMint(log, cache[k].key) >= 0;
  }

  lemma FailedGoneVerify(w: World, s: State, r: nat)
    requires Inv(w, s) && Enabled(s, VerifyFails(r)) && FailedGone(s)
    ensures FailedGone(StepVerifyFails(s, r))
  {
    var p := s.requests[r].phase;
    if p.source.Resolved? {
      assert RequestOk(w, s, s.requests[r]);
      FailedGoneAfterPop(s, p.source.key, p.source.mint);
      FailedGoneFrame(s.(cache := Remove(s.cache, p.source.key), failed := s.failed + {p.token}), StepVerifyFails(s, r));
    }
  }

  lemma FailedGoneAfterPop(s: State, key: string, n: nat)
    requires LogInv(s) && FailedGone(s)
    requires n < |s.log| && s.log[n].key == key && CallbackRan(s, n)
    ensures FailedGone(s.(cache := Remove(s.cache, key), failed := s.failed + {s.log[n].token}))
  {
    assert s.log[n] in s.log;
    RemoveEntry(s.cache, key);
    forall x | x in Remove(s.cache, key) ensures x.value.token !in s.failed + {s.log[n].token} {
      OtherKeysOtherTokens(s.cache, s.log, x, n);
    }
    forall t | t in s.doneQueue && s.tasks[t].outcome.Minted? ensures s.tasks[t].outcome.token != s.log[n].token {
      var i :| 0 <= i < |s.doneQueue| && s.doneQueue[i] == t;
      var k := s.tasks[t].outcome.mint;
      assert k != n && s.log[k].token == s.tasks[t].outcome.token;
    }
  }

  lemma {:induction false} RunFailedGone(w: World, run: seq<State>, ev: seq<Event>, i: nat)
    requires IsRun(w, run, ev) && i < |run|
    requires forall j :: 0 <= j < |ev| ==> Fresh(run[j], ev[j])
    ensures FailedGone(run[i])
  {
    if i > 0 {
      RunFailedGone(w, run, ev, i - 1);
      RunInv(w, run, ev, i - 1);
      FailedGoneStep(w, run[i - 1], ev[i - 1]);
    }
  }

  /** What an arriving request is handed from the cache is in the cache. */
  lemma PlacedByCache(w: World, s: State, q: Incoming)
    ensures var p := Place(w, s, q).phase;
      && !p.Admitted?
      && (p.Holding? && p.source.Resolved? ==> exists x :: x in s.cache && x.value.token == p.token)
      && (p.Waiting? && Place(w, s, q).starts.None? ==> p.key in s.pending && s.pending[p.key] == p.task)
  {
    hide CacheKey, LastMint;
    var key := ResolveKey(w, q);
    if key.Some? && Get(s.cache, key.value).Some? {
      assert s.cache[IndexOf(s.cache, key.value)] in s.cache;
    }
  }

  /** A request that arrives after `token` failed is led away from it. */
  lemma ArrivalAvoids(w: World, s: State, r: nat, q: Incoming, token: string)
    requires Inv(w, s) && FailedGone(s) && Enabled(s, Arrive(r, q)) && token in s.failed
    ensures Avoids(Step(w, s, Arrive(r, q)), r, token)
  {
    hide CacheInv, RequestInv, ResolveKey, DistinctTokens;
    StartsOnlyWhenIdle(w, s, q);
    PlacedByCache(w, s, q);
  }

  lemma AvoidsStep(w: World, s: State, e: Event, r: nat, token: string)
    requires Inv(w, s) && Enabled(s, e) && Fresh(s, e) && Avoids(s, r, token)
    ensures Avoids(Step(w, s, e), r, token)
  {
    var f := Step(w, s, e);
    LogChange(w, s, e);
    if e.MintReturns? && OutcomeOf(e.answer, |s.log|).Minted? {
      LogTokensAppend(s.log, f.log[|s.log|]);
    }
    if (e.Resume? || e.Disconnect? || e.Verified? || e.VerifyFails?) && e.r == r {
      AvoidsOwnStep(w, s, e, token);
    } else {
      OtherRequests(w, s, e, r);
      TasksChange(w, s, e, token);
    }
  }

  lemma AvoidsOwnStep(w: World, s: State, e: Event, token: string)
    requires Enabled(s, e) && (e.Resume? || e.Disconnect? || e.Verified? || e.VerifyFails?)
    requires Avoids(s, e.r, token)
    ensures Avoids(Step(w, s, e), e.r, token)
  {
  }

  /** A task that does not have `token` does not come to have it. */
  lemma TasksChange(w: World, s: State, e: Event, token: string)
    requires Enabled(s, e) && Fresh(s, e) && token in LogTokens(s.log)
    ensures var f := Step(w, s, e);
      |s.tasks| <= |f.tasks| &&
      forall t :: 0 <= t < |s.tasks| && (s.tasks[t].outcome.Minted? ==> s.tasks[t].outcome.token != token) ==>
        (f.tasks[t].outcome.Minted? ==> f.tasks[t].outcome.token != token)
  {
    var f := Step(w, s, e);
    if e.MintReturns? {
      assert f.tasks == s.tasks[e.task := s.tasks[e.task].(outcome := OutcomeOf(e.answer, |s.log|))];
    } else if !e.Arrive? {
      assert f.tasks == s.tasks;
    }
  }

  lemma {:induction false} AvoidsOver(w: World, run: seq<State>, ev: seq<Event>, j: nat, m: nat, r: nat, token: string)
    requires IsRun(w, run, ev) && j <= m < |run| && Avoids(run[j], r, token)
    requires forall i :: 0 <= i < |ev| ==> Fresh(run[i], ev[i])
    ensures Avoids(run[m], r, token)
  {
    hide Step, Avoids, Inv;
    if j < m {
      AvoidsOver(w, run, ev, j, m - 1, r, token);
      RunInv(w, run, ev, m - 1);
      AvoidsStep(w, run[m - 1], ev[m - 1], r, token);
    }
  }

  lemma {:induction false} FailedStays(w: World, run: seq<State>, ev: seq<Event>, i: nat, j: nat)
    requires IsRun(w, run, ev) && i <= j < |run|
    ensures run[i].failed <= run[j].failed
  {
    if i < j {
      FailedStays(w, run, ev, i, j - 1);
    }
  }

  /**
   Once an auto-resolved request fails to verify `token`, it is never in the cache again, and no
   request that arrives later ever holds it through auto-resolve, by cache or by joining a mint.
   */
  lemma FailedTokenNeverServedAgain(
      w: World, run: seq<State>, ev: seq<Event>, i: nat, j: nat, m: nat, token: string)
    requires IsRun(w, run, ev) && i < j < m < |run|
    requires forall k :: 0 <= k < |ev| ==> Fresh(run[k], ev[k])
    requires ev[i].VerifyFails? && ev[j].Arrive?
    requires var p := run[i].requests[ev[i].r].phase; p.source.Resolved? && p.token == token
    ensures forall x :: x in run[j].cache ==> x.value.token != token
    ensures ev[j].r in run[m].requests
    ensures var p := run[m].requests[ev[j].r].phase;
      p.Holding? || p.Admitted? ==> p.source.Resolved? ==> p.token != token
  {
    hide FailedGone;
    assert token in run[i + 1].failed;
    FailedStays(w, run, ev, i + 1, j);
    RunInv(w, run, ev, j);
    RunFailedGone(w, run, ev, j);
    ArrivalAvoids(w, run[j], ev[j].r, ev[j].incoming, token);
    AvoidsOver(w, run, ev, j + 1, m, ev[j].r, token);
  }
}

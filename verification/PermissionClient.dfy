/**
 `PermissionClient.can` and `accessible` over the TTL cache, with calls that may overlap. A call's
 two stretches of code around its await are two steps; the server answers or fails in between.
 `service` is the client's `service_name`, which a realm discovery re-points; a call is made under the name
 it has at the first step. `epoch` counts this client's successful writes. The records of what was stored are
 history.
 */
module PermissionClient {
  import opened Common
  import opened Identifiers
  import opened OrderedDict
  import opened TtlCache

  datatype Query =
    | CanQuery(token: string, resourceType: string, resource: Uuid, action: string)
    | AccessibleQuery(token: string, resourceType: string, action: string, workspace: Uuid, limit: Option<int>)

  /** Client settings; `tokenKey` is the truncated hash. A `ttl` of zero means no cache. */
  datatype Config = Config(tokenKey: string -> string, ttl: real, maxsize: int)

  /** The server's answer: the list of check results, or the accessible resources. */
  datatype Reply = CheckReply(results: seq<bool>) | AccessibleReply(ids: seq<Uuid>, fullAccess: bool) | Failure

  predicate Answers(reply: Reply, q: Query) {
    reply.Failure? || (reply.CheckReply? <==> q.CanQuery?)
  }

  function ValueOf(reply: Reply): Value
    requires !reply.Failure?
  {
    match reply
    case CheckReply(results) => Allowed(results != [] && results[0])
    case AccessibleReply(ids, full) => Accessible(ids, full)
  }

  /** What a value means: granted exactly when the first check result is true; a lookup's ids and flag as they came. */
  predicate Says(reply: Reply, v: Value) {
    match v
    case Allowed(granted) => reply.CheckReply? && (granted <==> |reply.results| > 0 && reply.results[0])
    case Accessible(ids, full) => reply.AccessibleReply? && ids == reply.ids && full == reply.fullAccess
  }

  function LimitField(limit: Option<int>): Field {
    match limit
    case Some(n) => Number(n)
    case None => Absent
  }

  function KeyOf(c: Config, q: Query): Key {
    match q
    case CanQuery(token, resourceType, resource, action) =>
      Key("can", [Text(c.tokenKey(token)), Text(resourceType), Text(Canonical(resource)), Text(action)])
    case AccessibleQuery(token, resourceType, action, workspace, limit) =>
      Key("accessible",
          [Text(c.tokenKey(token)), Text(resourceType), Text(action), Text(Canonical(workspace)), LimitField(limit)])
  }

  /** Up to collisions of the token hash, two calls share a cache key exactly when their arguments agree. */
  lemma KeyInjective(c: Config, p: Query, q: Query)
    requires c.tokenKey(p.token) == c.tokenKey(q.token) ==> p.token == q.token
    ensures KeyOf(c, p) == KeyOf(c, q) <==> p == q
  {
    var k, l := KeyOf(c, p), KeyOf(c, q);
    if k == l {
      assert k.rest[0] == l.rest[0] && k.rest[1] == l.rest[1] && k.rest[2] == l.rest[2] && k.rest[3] == l.rest[3];
      if p.CanQuery? {
        CanonicalInjective(p.resource, q.resource);
      } else {
        assert k.rest[4] == l.rest[4];
        CanonicalInjective(p.workspace, q.workspace);
      }
    }
  }

  /** What was stored: the answer, when, and the epochs at which it was asked for and stored. */
  datatype Record = Record(query: Query, value: Value, storedAt: real, askedIn: nat, storedIn: nat)

  datatype Call = Call(query: Query, askedIn: nat)

  datatype State = State(now: real, service: string, store: Store, epoch: nat, calls: map<nat, Call>, log: seq<Record>)

  datatype Event =
    | Tick(dt: real)
    | Read(id: nat, query: Query)
    | Respond(id: nat, reply: Reply, evictDelay: real)
    | WriteSucceeds
    | WriteFails
    | Rescope(scope: string)

  function Init(now: real, service: string): State {
    State(now, service, [], 0, map[], [])
  }

  /** What a read is answered with at once, if anything. */
  function Hit(c: Config, s: State, q: Query): Option<Value> {
    if c.ttl > 0.0 then GetResult(s.store, KeyOf(c, q), s.now, c.ttl) else None
  }

  predicate Enabled(s: State, e: Event) {
    match e
    case Tick(dt) => dt >= 0.0
    case Read(id, _) => id !in s.calls
    case Respond(id, reply, evictDelay) => id in s.calls && Answers(reply, s.calls[id].query) && evictDelay >= 0.0
    case WriteSucceeds => true
    case WriteFails => true
    case Rescope(_) => true
  }

  function StepRead(c: Config, s: State, id: nat, q: Query): State {
    var looked := if c.ttl > 0.0 then s.(store := AfterGet(s.store, KeyOf(c, q), s.now, c.ttl)) else s;
    if Hit(c, s, q).Some? then looked else looked.(calls := s.calls[id := Call(q, s.epoch)])
  }

  function StepRespond(c: Config, s: State, id: nat, reply: Reply, evictDelay: real): State
    requires id in s.calls
  {
    var ended := s.(calls := s.calls - {id});
    if reply.Failure? || c.ttl <= 0.0 then ended
    else
      var q, v := s.calls[id].query, ValueOf(reply);
      ended.(store := AfterSet(s.store, KeyOf(c, q), v, s.now, s.now + evictDelay, c.ttl, c.maxsize),
             log := s.log + [Record(q, v, s.now, s.calls[id].askedIn, s.epoch)])
  }

  function Step(c: Config, s: State, e: Event): State
    requires Enabled(s, e)
  {
    match e
    case Tick(dt) => s.(now := s.now + dt)
    case Read(id, q) => StepRead(c, s, id, q)
    case Respond(id, reply, evictDelay) => StepRespond(c, s, id, reply, evictDelay)
    case WriteSucceeds =>
      s.(epoch := s.epoch + 1, store := if c.ttl > 0.0 then AfterInvalidate(s.store, ["accessible", "can"]) else s.store)
    case WriteFails => s
    case Rescope(scope) => s.(service := scope)
  }

  // ---- The cache holds what the server said since the last write ----

  /** The entry is the answer of record `n`, stored in the current epoch. */
  ghost predicate IsRecord(c: Config, s: State, x: Item<Key, Stamped>, n: nat) {
    && n < |s.log|
    && x.key == KeyOf(c, s.log[n].query) && x.value == Stamped(s.log[n].storedAt, s.log[n].value)
    && s.log[n].storedIn == s.epoch
  }

  ghost predicate Inv(c: Config, s: State) {
    && Distinct(s.store) && |s.store| <= Max(Threshold(c.maxsize), 0)
    && (c.ttl <= 0.0 ==> s.store == [])
    && (forall x :: x in s.store ==> exists n :: IsRecord(c, s, x, n))
    && (forall n :: 0 <= n < |s.log| ==> s.log[n].askedIn <= s.log[n].storedIn && s.log[n].storedAt <= s.now)
    && (forall id :: id in s.calls ==> s.calls[id].askedIn <= s.epoch)
  }

  lemma SetEntries(d: Store, k: Key, v: Value, now: real, later: real, ttl: real, maxsize: int)
    requires Distinct(d)
    ensures var r := AfterSet(d, k, v, now, later, ttl, maxsize);
      && Distinct(r)
      && (|d| <= Max(Threshold(maxsize), 0) ==> |r| <= Max(Threshold(maxsize), 0))
      && forall x :: x in r ==> x in d || x == Item(k, Stamped(now, v))
  {
    hide Evicted, Older;
    PutDistinct(d, k, Stamped(now, v));
    PutEntry(d, k, Stamped(now, v));
    EvictKeepsNewest(Put(d, k, Stamped(now, v)), later, ttl, maxsize);
  }

  lemma HeadsCover(c: Config, q: Query)
    ensures KeyOf(c, q).head in ["accessible", "can"]
  {
    var heads := ["accessible", "can"];
    assert heads[0] == "accessible" && heads[1] == "can";
  }

  /** The two prefixes cover every key this client makes. */
  lemma InvalidateEmpties(c: Config, s: State)
    requires Inv(c, s)
    ensures AfterInvalidate(s.store, ["accessible", "can"]) == []
  {
    hide KeyOf, KeysWhere, DeleteAll, Threshold;
    var heads := ["accessible", "can"];
    var p := (x: Item<Key, Stamped>) => x.key.head in heads;
    var ks := KeysWhere(s.store, p);
    DeleteAllEntries(s.store, ks);
    forall x | x in s.store ensures x.key in ks {
      var n: nat :| IsRecord(c, s, x, n);
      HeadsCover(c, s.log[n].query);
      var i :| 0 <= i < |s.store| && s.store[i] == x;
      assert p(s.store[i]);
    }
    FirstIsIn(DeleteAll(s.store, ks));
  }

  lemma FirstIsIn(d: Store)
    ensures d != [] ==> d[0] in d
  {
  }

  lemma RecordKept(c: Config, s: State, f: State, x: Item<Key, Stamped>)
    requires exists n :: IsRecord(c, s, x, n)
    requires s.log <= f.log && f.epoch == s.epoch
    ensures exists n :: IsRecord(c, f, x, n)
  {
    var n :| IsRecord(c, s, x, n);
    assert IsRecord(c, f, x, n);
  }

  lemma InvStep(c: Config, s: State, e: Event)
    requires Inv(c, s) && Enabled(s, e)
    ensures Inv(c, Step(c, s, e))
  {
    match e
    case Read(id, q) => InvRead(c, s, id, q);
    case Respond(id, reply, evictDelay) => InvRespond(c, s, id, reply, evictDelay);
    case WriteSucceeds =>
      if c.ttl > 0.0 {
        InvalidateEmpties(c, s);
      }
    case _ => InvShrinks(c, s, Step(c, s, e));
  }

  lemma InvRead(c: Config, s: State, id: nat, q: Query)
    requires Inv(c, s)
    ensures Inv(c, StepRead(c, s, id, q))
  {
    hide KeyOf, AfterGet, Threshold;
    GetShrinks(s.store, KeyOf(c, q), s.now, c.ttl);
    InvShrinks(c, s, StepRead(c, s, id, q));
  }

  lemma GetShrinks(d: Store, k: Key, now: real, ttl: real)
    requires Distinct(d)
    ensures var r := AfterGet(d, k, now, ttl);
      Distinct(r) && |r| <= |d| && forall x :: x in r ==> x in d
  {
    hide Remove;
    RemoveDistinct(d, k);
    RemoveEntry(d, k);
  }

  /** Dropping entries and starting calls in the current epoch is harmless. */
  lemma InvShrinks(c: Config, s: State, f: State)
    requires Inv(c, s)
    requires Distinct(f.store) && |f.store| <= |s.store| && forall x :: x in f.store ==> x in s.store
    requires f.log == s.log && f.epoch == s.epoch && f.now >= s.now
    requires forall id :: id in f.calls ==> f.calls[id].askedIn <= f.epoch
    ensures Inv(c, f)
  {
    hide KeyOf, Threshold;
    forall x | x in f.store ensures exists n :: IsRecord(c, f, x, n) {
      RecordKept(c, s, f, x);
    }
  }

  lemma InvRespond(c: Config, s: State, id: nat, reply: Reply, evictDelay: real)
    requires Inv(c, s) && Enabled(s, Respond(id, reply, evictDelay))
    ensures Inv(c, StepRespond(c, s, id, reply, evictDelay))
  {
    hide AfterSet, KeyOf, ValueOf;
    var f := StepRespond(c, s, id, reply, evictDelay);
    if !reply.Failure? && c.ttl > 0.0 {
      var q, v := s.calls[id].query, ValueOf(reply);
      SetEntries(s.store, KeyOf(c, q), v, s.now, s.now + evictDelay, c.ttl, c.maxsize);
      forall x | x in f.store ensures exists n :: IsRecord(c, f, x, n) {
        if x in s.store {
          RecordKept(c, s, f, x);
        } else {
          assert IsRecord(c, f, x, |s.log|);
        }
      }
    } else {
      InvShrinks(c, s, f);
    }
  }

  // ---- Runs ----

  ghost predicate IsRun(c: Config, run: seq<State>, ev: seq<Event>) {
    && |run| == |ev| + 1
    && run[0] == Init(run[0].now, run[0].service)
    && forall i :: 0 <= i < |ev| ==> Enabled(run[i], ev[i]) && run[i + 1] == Step(c, run[i], ev[i])
  }

  lemma {:induction false} RunInv(c: Config, run: seq<State>, ev: seq<Event>, i: nat)
    requires IsRun(c, run, ev) && i < |run|
    ensures Inv(c, run[i])
  {
    if i > 0 {
      RunInv(c, run, ev, i - 1);
      InvStep(c, run[i - 1], ev[i - 1]);
    }
  }

  /** The hash of `q`'s token is the hash of no other token that was ever asked about. */
  ghost predicate NoCollision(c: Config, s: State, q: Query) {
    forall n :: 0 <= n < |s.log| && c.tokenKey(s.log[n].query.token) == c.tokenKey(q.token) ==>
      s.log[n].query.token == q.token
  }

  /**
   Whatever overlaps, a read served from the cache gets an answer the server gave to the same
   arguments, stored at most `ttl` ago and not before this client's last successful write.
   */
  lemma HitIsRecentAnswer(c: Config, run: seq<State>, ev: seq<Event>, i: nat, q: Query) returns (n: nat, k: nat)
    requires IsRun(c, run, ev) && i < |run| && NoCollision(c, run[i], q)
    requires Hit(c, run[i], q).Some?
    ensures n < |run[i].log|
    ensures var r, s := run[i].log[n], run[i];
      && r.query == q && r.value == Hit(c, s, q).value
      && s.now - c.ttl <= r.storedAt <= s.now
      && r.askedIn <= r.storedIn == s.epoch
    ensures k < i && ev[k].Respond? && Says(ev[k].reply, Hit(c, run[i], q).value) && run[k].now == run[i].log[n].storedAt
  {
    RunInv(c, run, ev, i);
    var s := run[i];
    var j := IndexOf(s.store, KeyOf(c, q));
    assert s.store[j] in s.store;
    n :| IsRecord(c, s, s.store[j], n);
    KeyInjective(c, s.log[n].query, q);
    var asked;
    asked, k := RecordHasCall(c, run, ev, i, n);
  }

  /** Every record is the server's reply to a call that was really made, with its own epochs. */
  lemma {:induction false} RecordHasCall(c: Config, run: seq<State>, ev: seq<Event>, i: nat, n: nat) returns (j: nat, k: nat)
    requires IsRun(c, run, ev) && i < |run| && n < |run[i].log|
    ensures j < k < i
    ensures ev[j].Read? && ev[k].Respond? && ev[j].id == ev[k].id && !ev[k].reply.Failure?
    ensures var r := run[i].log[n];
      && ev[j].query == r.query && Says(ev[k].reply, r.value)
      && run[j].epoch == r.askedIn && run[k].epoch == r.storedIn && run[k].now == r.storedAt
  {
    hide AfterSet, AfterGet, AfterInvalidate, KeyOf, Answers, Hit;
    if n < |run[i - 1].log| {
      j, k := RecordHasCall(c, run, ev, i - 1, n);
    } else {
      k := i - 1;
      j := CallHasRead(c, run, ev, k, ev[k].id);
    }
  }

  lemma {:induction false} CallHasRead(c: Config, run: seq<State>, ev: seq<Event>, i: nat, id: nat) returns (j: nat)
    requires IsRun(c, run, ev) && i < |run| && id in run[i].calls
    ensures j < i && ev[j].Read? && ev[j].id == id
    ensures ev[j].query == run[i].calls[id].query && run[j].epoch == run[i].calls[id].askedIn
  {
    if id in run[i - 1].calls {
      j := CallHasRead(c, run, ev, i - 1, id);
    } else {
      j := i - 1;
    }
  }

  lemma {:induction false} EpochCountsWrites(c: Config, run: seq<State>, ev: seq<Event>, i: nat, j: nat)
    requires IsRun(c, run, ev) && i <= j < |run|
    ensures run[i].epoch <= run[j].epoch
    ensures run[i].epoch == run[j].epoch <==> forall m :: i <= m < j ==> !ev[m].WriteSucceeds?
  {
    if i < j {
      EpochCountsWrites(c, run, ev, i, j - 1);
    }
  }

  /**
   A hit's answer is the server's reply to one call, received at most `ttl` ago and since the last
   successful write. It was also asked for since that write if and only if no write succeeded while the
   call was in flight. So with calls that do not overlap, the
   cached client only ever repeats what the uncached one could have been told since that write.
   */
  lemma HitPredatesWriteOnlyByOverlap(c: Config, run: seq<State>, ev: seq<Event>, i: nat, q: Query)
      returns (n: nat, j: nat, k: nat)
    requires IsRun(c, run, ev) && i < |run| && NoCollision(c, run[i], q)
    requires Hit(c, run[i], q).Some?
    ensures n < |run[i].log| && j < k < i
    ensures ev[j].Read? && ev[j].query == q && ev[k].Respond? && ev[k].id == ev[j].id
    ensures Says(ev[k].reply, Hit(c, run[i], q).value)
    ensures run[i].now - c.ttl <= run[k].now <= run[i].now
    ensures forall m :: k <= m < i ==> !ev[m].WriteSucceeds?
    ensures run[j].epoch == run[i].epoch <==> forall m :: j <= m < k ==> !ev[m].WriteSucceeds?
  {
    n, k := HitIsRecentAnswer(c, run, ev, i, q);
    j, k := RecordHasCall(c, run, ev, i, n);
    EpochCountsWrites(c, run, ev, k, i);
    EpochCountsWrites(c, run, ev, j, k);
  }

  /** Overlap does happen: a read asked before a write and answered after it is served from the cache. */
  lemma OverlappingReadOutlivesWrite(c: Config, q: Query) returns (run: seq<State>, ev: seq<Event>)
    requires c.ttl > 0.0 && c.maxsize >= 1 && q.CanQuery?
    ensures IsRun(c, run, ev) && |ev| == 3
    ensures ev[0].Read? && ev[0].query == q && ev[1].WriteSucceeds? && ev[2].Respond?
    ensures Hit(c, run[3], q) == Some(Allowed(true)) && run[0].epoch < run[3].epoch
  {
    var s0 := Init(0.0, "");
    ev := [Read(0, q), WriteSucceeds, Respond(0, CheckReply([true]), 0.0)];
    var s1 := Step(c, s0, ev[0]);
    assert s1 == State(0.0, "", [], 0, map[0 := Call(q, 0)], []);
    var s2 := Step(c, s1, ev[1]);
    assert KeysWhere(s1.store, (x: Item<Key, Stamped>) => x.key.head in ["accessible", "can"]) == [];
    assert s2 == State(0.0, "", [], 1, map[0 := Call(q, 0)], []);
    var s3 := Step(c, s2, ev[2]);
    SetKeepsNewKey(s2.store, KeyOf(c, q), Allowed(true), 0.0, 0.0, c.ttl, c.maxsize);
    run := [s0, s1, s2, s3];
  }

  // ---- Realm discoveries ----

  /** The client's name is the one it was last given. */
  lemma {:induction false} LastRescope(c: Config, run: seq<State>, ev: seq<Event>, j: nat, i: nat)
    requires IsRun(c, run, ev) && j <= i < |run|
    ensures (forall m :: j <= m < i ==> !ev[m].Rescope?) ==> run[i].service == run[j].service
    ensures forall m :: j <= m < i && ev[m].Rescope? && (forall l :: m < l < i ==> !ev[l].Rescope?) ==>
      run[i].service == ev[m].scope
  {
    if j < i {
      LastRescope(c, run, ev, j, i - 1);
    }
  }

  /**
   Cache keys do not name the service. A hit answers for the client's present scope if and only if the last
   re-scoping since its call was asked, if any, gave back the scope it was asked under.
   */
  lemma HitIsForCurrentScope(c: Config, run: seq<State>, ev: seq<Event>, i: nat, q: Query) returns (j: nat, k: nat)
    requires IsRun(c, run, ev) && i < |run| && NoCollision(c, run[i], q)
    requires Hit(c, run[i], q).Some?
    ensures j < k < i
    ensures ev[j].Read? && ev[j].query == q && ev[k].Respond? && ev[k].id == ev[j].id
    ensures Says(ev[k].reply, Hit(c, run[i], q).value)
    ensures run[j].service == run[i].service <==>
      forall m :: j <= m < i && ev[m].Rescope? && (forall l :: m < l < i ==> !ev[l].Rescope?) ==>
        ev[m].scope == run[j].service
  {
    var n;
    n, j, k := HitPredatesWriteOnlyByOverlap(c, run, ev, i, q);
    LastRescope(c, run, ev, j, i);
    if m :| j <= m < i && ev[m].Rescope? {
      var last := LatestRescope(ev, m, i);
      assert run[i].service == ev[last].scope;
    }
  }

  lemma {:induction false} LatestRescope(ev: seq<Event>, m: nat, i: nat) returns (last: nat)
    requires m < i <= |ev| && ev[m].Rescope?
    ensures m <= last < i && ev[last].Rescope? && forall l :: last < l < i ==> !ev[l].Rescope?
    decreases i - m
  {
    if l :| m < l < i && ev[l].Rescope? {
      last := LatestRescope(ev, l, i);
    } else {
      last := m;
    }
  }

  /** It does happen: what was answered for one scope is served under the next. */
  lemma OldScopeIsServed(c: Config, q: Query, before: string, after: string) returns (run: seq<State>, ev: seq<Event>)
    requires c.ttl > 0.0 && c.maxsize >= 1 && q.CanQuery?
    ensures IsRun(c, run, ev) && |ev| == 3
    ensures ev[0] == Read(0, q) && ev[1].Respond? && ev[1].id == 0 && ev[2] == Rescope(after)
    ensures run[0].service == before && run[3].service == after && Hit(c, run[3], q) == Some(Allowed(true))
  {
    var s0 := Init(0.0, before);
    ev := [Read(0, q), Respond(0, CheckReply([true]), 0.0), Rescope(after)];
    var s1 := Step(c, s0, ev[0]);
    assert s1 == State(0.0, before, [], 0, map[0 := Call(q, 0)], []);
    var s2 := Step(c, s1, ev[1]);
    SetKeepsNewKey(s1.store, KeyOf(c, q), Allowed(true), 0.0, 0.0, c.ttl, c.maxsize);
    run := [s0, s1, s2, Step(c, s2, ev[2])];
  }

  // ---- How long an answer is served ----

  /** The step leaves an answer for `q` alone: no write succeeds, and nothing is stored for `q` or evicted. */
  ghost predicate Spares(c: Config, s: State, e: Event, q: Query) {
    match e
    case WriteSucceeds => false
    case Respond(id, reply, _) =>
      reply.Failure? ||
      (id in s.calls && KeyOf(c, s.calls[id].query) != KeyOf(c, q) && 2 * (|s.store| + 1) <= 3 * c.maxsize)
    case _ => true
  }

  /** The entry for `q` is the one stamped `t`, or it has expired and been dropped. */
  ghost predicate Kept(c: Config, s: State, q: Query, t: real, v: Value) {
    && Distinct(s.store) && s.now >= t
    && (Get(s.store, KeyOf(c, q)) == Some(Stamped(t, v)) || (Get(s.store, KeyOf(c, q)) == None && s.now > t + c.ttl))
  }

  lemma KeptStep(c: Config, s: State, e: Event, q: Query, t: real, v: Value)
    requires Enabled(s, e) && Kept(c, s, q, t, v) && Spares(c, s, e, q) && c.maxsize >= 0
    ensures Kept(c, Step(c, s, e), q, t, v)
  {
    hide KeyOf, Get, Put, Remove, Threshold, Has;
    match e
    case Read(id, p) =>
      RemoveDistinct(s.store, KeyOf(c, p));
      KeptRead(c, s, p, q, t, v);
    case Respond(id, reply, evictDelay) =>
      if !reply.Failure? && c.ttl > 0.0 {
        var p, w := s.calls[id].query, ValueOf(reply);
        PutDistinct(s.store, KeyOf(c, p), Stamped(s.now, w));
        GetPut(s.store, KeyOf(c, p), Stamped(s.now, w), KeyOf(c, q));
        PutSize(s.store, KeyOf(c, p), Stamped(s.now, w));
        SetExactly(s.store, KeyOf(c, p), w, s.now, s.now + evictDelay, c.ttl, c.maxsize);
      }
    case _ =>
  }

  lemma PutSize(d: Store, k: Key, v: Stamped)
    requires Distinct(d)
    ensures |Put(d, k, v)| <= |d| + 1
  {
  }

  lemma KeptRead(c: Config, s: State, p: Query, q: Query, t: real, v: Value)
    requires Kept(c, s, q, t, v)
    ensures var d := AfterGet(s.store, KeyOf(c, p), s.now, c.ttl);
      Get(d, KeyOf(c, q)) == Some(Stamped(t, v)) || (Get(d, KeyOf(c, q)) == None && s.now > t + c.ttl)
  {
    hide KeyOf;
    GetRemove(s.store, KeyOf(c, p), KeyOf(c, q));
  }

  lemma {:induction false} KeptOver(
      c: Config, run: seq<State>, ev: seq<Event>, k: nat, i: nat, q: Query, t: real, v: Value)
    requires IsRun(c, run, ev) && k <= i < |run| && Kept(c, run[k], q, t, v) && c.maxsize >= 0
    requires forall m :: k <= m < i ==> Spares(c, run[m], ev[m], q)
    ensures Kept(c, run[i], q, t, v)
  {
    hide Step, Kept, Spares;
    if k < i {
      KeptOver(c, run, ev, k, i - 1, q, t, v);
      KeptStep(c, run[i - 1], ev[i - 1], q, t, v);
    }
  }

  /**
   After the server's reply at step `k`, until a write succeeds or something is stored over it or evicts, `q`
   is answered from the cache exactly for `ttl`, and with what the reply says, a denial included.
   */
  lemma ServedExactlyForTtl(c: Config, run: seq<State>, ev: seq<Event>, k: nat, i: nat, q: Query)
    requires IsRun(c, run, ev) && k < i < |run| && c.ttl > 0.0 && c.maxsize >= 1
    requires ev[k].Respond? && run[k].calls[ev[k].id].query == q
    requires !ev[k].reply.Failure? && ev[k].evictDelay <= c.ttl
    requires forall m :: k < m < i ==> Spares(c, run[m], ev[m], q)
    ensures Hit(c, run[i], q).Some? <==> run[i].now <= run[k].now + c.ttl
    ensures Hit(c, run[i], q).Some? ==> Says(ev[k].reply, Hit(c, run[i], q).value)
  {
    hide Spares, Inv;
    var t, v := run[k].now, ValueOf(ev[k].reply);
    RunInv(c, run, ev, k);
    StoredIsKept(c, run[k], ev[k].id, ev[k].reply, ev[k].evictDelay);
    KeptOver(c, run, ev, k + 1, i, q, t, v);
  }

  lemma StoredIsKept(c: Config, s: State, id: nat, reply: Reply, evictDelay: real)
    requires Inv(c, s) && Enabled(s, Respond(id, reply, evictDelay)) && !reply.Failure?
    requires c.ttl > 0.0 && c.maxsize >= 1 && evictDelay <= c.ttl
    ensures Kept(c, StepRespond(c, s, id, reply, evictDelay), s.calls[id].query, s.now, ValueOf(reply))
  {
    hide AfterSet, KeyOf, ValueOf;
    forall x | x in s.store ensures x.value.ts <= s.now {
      var n :| IsRecord(c, s, x, n);
    }
    SetEntries(s.store, KeyOf(c, s.calls[id].query), ValueOf(reply), s.now, s.now + evictDelay, c.ttl, c.maxsize);
    SetKeepsNewKey(s.store, KeyOf(c, s.calls[id].query), ValueOf(reply), s.now, s.now + evictDelay, c.ttl, c.maxsize);
  }

  /** The server is asked exactly when there is no hit, and there is none without a cache. */
  lemma AsksExactlyOnMiss(c: Config, s: State, id: nat, q: Query)
    requires Enabled(s, Read(id, q))
    ensures var f := Step(c, s, Read(id, q));
      && (id in f.calls <==> Hit(c, s, q).None?)
      && (id in f.calls ==> f.calls[id] == Call(q, s.epoch))
      && (c.ttl <= 0.0 ==> id in f.calls && f.store == s.store)
  {
    hide KeyOf;
  }

  /** A cached `False` is a hit: the key just stored answers its own query, whatever the value. */
  lemma StoredAnswerIsServed(c: Config, s: State, id: nat, reply: Reply, evictDelay: real)
    requires Inv(c, s) && Enabled(s, Respond(id, reply, evictDelay)) && !reply.Failure?
    requires c.ttl > 0.0 && c.maxsize >= 1 && evictDelay <= c.ttl
    ensures var hit := Hit(c, StepRespond(c, s, id, reply, evictDelay), s.calls[id].query);
      hit.Some? && Says(reply, hit.value)
  {
    StoredIsKept(c, s, id, reply, evictDelay);
  }
}

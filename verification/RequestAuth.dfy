/**
 `RequestAuth`'s per-request memo, stacked over `PermissionClient` and `RoleClient`. Calls of one
 request may overlap; the upstream client answers or fails between a call's two steps.
 */
module RequestAuth {
  import opened Common
  import opened Identifiers
  import opened TtlCache

  datatype Query =
    | CanQuery(resourceType: string, resource: Uuid, action: string)
    | ActionQuery(action: string)
    | AccessibleQuery(resourceType: string, action: string, limit: Option<int>)

  function MemoKey(q: Query): Key {
    match q
    case CanQuery(resourceType, resource, action) => Key("can", [Text(resourceType), Id(resource), Text(action)])
    case ActionQuery(action) => Key("check_action", [Text(action)])
    case AccessibleQuery(resourceType, action, limit) =>
      Key("accessible", [Text(resourceType), Text(action), if limit.Some? then Number(limit.value) else Absent])
  }

  /** The three families of keys never collide, and within a family the arguments are recovered. */
  lemma MemoKeyInjective(p: Query, q: Query)
    ensures MemoKey(p) == MemoKey(q) <==> p == q
  {
    var k, l := MemoKey(p), MemoKey(q);
    if k == l {
      assert k.rest[0] == l.rest[0];
      if !p.ActionQuery? {
        assert k.rest[1] == l.rest[1] && k.rest[2] == l.rest[2];
      }
    }
  }

  datatype State = State(memo: map<Key, Value>, calls: map<nat, Query>)

  datatype Event =
    | Ask(id: nat, query: Query)
    | Return(id: nat, answer: Option<Value>)  // `None` when the upstream call raised

  predicate Enabled(s: State, e: Event) {
    match e
    case Ask(id, _) => id !in s.calls
    case Return(id, _) => id in s.calls
  }

  function Step(s: State, e: Event): State
    requires Enabled(s, e)
  {
    match e
    case Ask(id, q) => if MemoKey(q) in s.memo then s else s.(calls := s.calls[id := q])
    case Return(id, None) => s.(calls := s.calls - {id})
    case Return(id, Some(v)) => s.(calls := s.calls - {id}, memo := s.memo[MemoKey(s.calls[id]) := v])
  }

  /** What the step hands to its caller about `q`, if anything. */
  function AnswerAt(s: State, e: Event, q: Query): Option<Value>
    requires Enabled(s, e)
  {
    match e
    case Ask(_, p) => if p == q && MemoKey(q) in s.memo then Some(s.memo[MemoKey(q)]) else None
    case Return(id, v) => if s.calls[id] == q then v else None
  }

  ghost predicate IsRun(run: seq<State>, ev: seq<Event>) {
    && |run| == |ev| + 1
    && run[0] == State(map[], map[])
    && forall i :: 0 <= i < |ev| ==> Enabled(run[i], ev[i]) && run[i + 1] == Step(run[i], ev[i])
  }

  /** A successful upstream call about `q` ends here. */
  predicate Fetches(s: State, e: Event, q: Query) {
    e.Return? && e.id in s.calls && s.calls[e.id] == q && e.answer.Some?
  }

  /** An answer handed out is in the memo afterwards. */
  lemma AnswerIsMemo(s: State, e: Event, q: Query)
    requires Enabled(s, e) && AnswerAt(s, e, q).Some?
    ensures var m := Step(s, e).memo; MemoKey(q) in m && m[MemoKey(q)] == AnswerAt(s, e, q).value
  {
  }

  lemma StepKeepsMemo(s: State, e: Event, q: Query)
    requires Enabled(s, e) && MemoKey(q) in s.memo
    ensures MemoKey(q) in Step(s, e).memo
    ensures !Fetches(s, e, q) ==> Step(s, e).memo[MemoKey(q)] == s.memo[MemoKey(q)]
    ensures forall id :: id in Step(s, e).calls && Step(s, e).calls[id] == q ==> id in s.calls && s.calls[id] == q
  {
    if e.Return? {
      MemoKeyInjective(s.calls[e.id], q);
    } else {
      MemoKeyInjective(e.query, q);
    }
  }

  /** Once memoized, a key stays, no new call is made for it, and only calls already in flight can change it. */
  lemma {:induction false} MemoOver(run: seq<State>, ev: seq<Event>, i: nat, j: nat, q: Query)
    requires IsRun(run, ev) && i <= j < |run| && MemoKey(q) in run[i].memo
    ensures MemoKey(q) in run[j].memo
    ensures forall id :: id in run[j].calls && run[j].calls[id] == q ==> id in run[i].calls && run[i].calls[id] == q
    ensures (forall m :: i <= m < j ==> !Fetches(run[m], ev[m], q)) ==> run[j].memo[MemoKey(q)] == run[i].memo[MemoKey(q)]
  {
    if i < j {
      MemoOver(run, ev, i, j - 1, q);
      StepKeepsMemo(run[j - 1], ev[j - 1], q);
    }
  }

  /**
   Equal arguments get equal answers within a request: two answers differ only if another call with
   those arguments was already in flight when the first was given, and has returned since.
   */
  lemma AnswersAgree(run: seq<State>, ev: seq<Event>, i: nat, j: nat, q: Query)
    requires IsRun(run, ev) && i < j < |ev|
    requires AnswerAt(run[i], ev[i], q).Some? && AnswerAt(run[j], ev[j], q).Some?
    ensures AnswerAt(run[i], ev[i], q) == AnswerAt(run[j], ev[j], q)
      || exists m :: i < m <= j && Fetches(run[m], ev[m], q)
           && ev[m].id in run[i + 1].calls && run[i + 1].calls[ev[m].id] == q
  {
    AnswerIsMemo(run[i], ev[i], q);
    if m :| i < m <= j && Fetches(run[m], ev[m], q) {
      MemoOver(run, ev, i + 1, m, q);
    } else {
      MemoOver(run, ev, i + 1, j, q);
    }
  }

  /**
   Once arguments have been answered, a successful upstream call for them was already in flight at that
   answer.
   */
  lemma OneFetchPerKey(run: seq<State>, ev: seq<Event>, i: nat, j: nat, q: Query)
    requires IsRun(run, ev) && i < j < |ev| && AnswerAt(run[i], ev[i], q).Some? && Fetches(run[j], ev[j], q)
    ensures ev[j].id in run[i + 1].calls && run[i + 1].calls[ev[j].id] == q
  {
    AnswerIsMemo(run[i], ev[i], q);
    MemoOver(run, ev, i + 1, j, q);
  }

  // ---- Exactly when arguments are not fetched again ----

  predicate NoneInFlight(s: State, q: Query) {
    forall id :: id in s.calls ==> s.calls[id] != q
  }

  /** A run that does what `run` did up to and including step `i`. */
  ghost predicate Continues(run: seq<State>, ev: seq<Event>, i: nat, later: seq<State>, lev: seq<Event>) {
    && IsRun(later, lev) && i < |ev| && i < |lev| && |run| == |ev| + 1
    && lev[..i + 1] == ev[..i + 1] && later[..i + 2] == run[..i + 2]
  }

  ghost predicate AnswersAt(run: seq<State>, ev: seq<Event>, j: nat, q: Query, v: Value) {
    IsRun(run, ev) && j < |ev| && AnswerAt(run[j], ev[j], q) == Some(v)
  }

  ghost predicate FetchesAt(run: seq<State>, ev: seq<Event>, j: nat, q: Query) {
    IsRun(run, ev) && j < |ev| && Fetches(run[j], ev[j], q)
  }

  /** Whatever happens after step `i`, each later answer about `q` is `v`. */
  ghost predicate AlwaysAgrees(run: seq<State>, ev: seq<Event>, i: nat, q: Query, v: Value) {
    forall later, lev, j: nat, u ::
      Continues(run, ev, i, later, lev) && i < j && AnswersAt(later, lev, j, q, u) ==> u == v
  }

  /** Whatever happens after step `i`, no upstream call about `q` succeeds again. */
  ghost predicate NeverFetchesAgain(run: seq<State>, ev: seq<Event>, i: nat, q: Query) {
    forall later, lev, j: nat :: Continues(run, ev, i, later, lev) && i < j ==> !FetchesAt(later, lev, j, q)
  }

  /** Another value of the same kind. */
  function OtherValue(v: Value): (u: Value)
    ensures u != v
  {
    match v
    case Allowed(b) => Allowed(!b)
    case Accessible(ids, full) => Accessible(ids, !full)
  }

  /** A call still in flight can return something else. */
  lemma InFlightDisagrees(run: seq<State>, ev: seq<Event>, i: nat, q: Query, v: Value, id: nat)
      returns (later: seq<State>, lev: seq<Event>)
    requires IsRun(run, ev) && i < |ev| && id in run[i + 1].calls && run[i + 1].calls[id] == q
    ensures Continues(run, ev, i, later, lev) && |lev| == i + 2
    ensures AnswersAt(later, lev, i + 1, q, OtherValue(v)) && FetchesAt(later, lev, i + 1, q)
  {
    var e := Return(id, Some(OtherValue(v)));
    lev := ev[..i + 1] + [e];
    later := run[..i + 2] + [Step(run[i + 1], e)];
    forall m | 0 <= m < |lev| ensures Enabled(later[m], lev[m]) && later[m + 1] == Step(later[m], lev[m]) {
      assert m <= i ==> later[m] == run[m] && later[m + 1] == run[m + 1] && lev[m] == ev[m];
    }
  }

  /**
   After an answer about `q`, all later answers about `q` agree with it, and nothing is fetched for `q`
   again, in every continuation, if and only if no call about `q` is in flight when it is given.
   */
  lemma DeduplicatesExactly(run: seq<State>, ev: seq<Event>, i: nat, q: Query, v: Value)
    requires AnswersAt(run, ev, i, q, v)
    ensures AlwaysAgrees(run, ev, i, q, v) <==> NoneInFlight(run[i + 1], q)
    ensures NeverFetchesAgain(run, ev, i, q) <==> NoneInFlight(run[i + 1], q)
  {
    if NoneInFlight(run[i + 1], q) {
      forall later, lev, j: nat | Continues(run, ev, i, later, lev) && i < j
        ensures !FetchesAt(later, lev, j, q)
      {
        SettledAfter(run, ev, i, q, v, later, lev, j);
      }
      forall later, lev, j: nat, u | Continues(run, ev, i, later, lev) && i < j && AnswersAt(later, lev, j, q, u)
        ensures u == v
      {
        SettledAfter(run, ev, i, q, v, later, lev, j);
      }
    } else {
      var id :| id in run[i + 1].calls && run[i + 1].calls[id] == q;
      var later, lev := InFlightDisagrees(run, ev, i, q, v, id);
    }
  }

  lemma SettledAfter(
      run: seq<State>, ev: seq<Event>, i: nat, q: Query, v: Value, later: seq<State>, lev: seq<Event>, j: nat)
    requires AnswersAt(run, ev, i, q, v) && NoneInFlight(run[i + 1], q) && Continues(run, ev, i, later, lev) && i < j
    ensures !FetchesAt(later, lev, j, q)
    ensures forall u :: AnswersAt(later, lev, j, q, u) ==> u == v
  {
    assert later[i] == run[..i + 2][i] == run[i] && later[i + 1] == run[..i + 2][i + 1] == run[i + 1];
    assert lev[i] == ev[..i + 1][i] == ev[i];
    if FetchesAt(later, lev, j, q) {
      OneFetchPerKey(later, lev, i, j, q);
    }
    forall u | AnswersAt(later, lev, j, q, u) ensures u == v {
      AnswersAgree(later, lev, i, j, q);
    }
  }

  /** Calls are sequential: a call is made only when no other is in flight. */
  ghost predicate Sequential(run: seq<State>, ev: seq<Event>) {
    |run| == |ev| + 1 && forall i :: 0 <= i < |ev| && ev[i].Ask? ==> run[i].calls == map[]
  }

  lemma {:induction false} AtMostOneCall(run: seq<State>, ev: seq<Event>, i: nat)
    requires IsRun(run, ev) && Sequential(run, ev) && i < |run|
    ensures forall a, b :: a in run[i].calls && b in run[i].calls ==> a == b
  {
    if i > 0 {
      AtMostOneCall(run, ev, i - 1);
      var s, e := run[i - 1], ev[i - 1];
      assert e.Ask? ==> s.calls == map[] && (run[i].calls == map[] || run[i].calls == map[e.id := e.query]);
      assert e.Return? ==> run[i].calls == s.calls - {e.id};
    }
  }

  /** Sequential calls: all answers about `q` are the one answer of the one successful upstream call about `q`. */
  lemma SequentialMemo(run: seq<State>, ev: seq<Event>, i: nat, j: nat, q: Query)
    requires IsRun(run, ev) && Sequential(run, ev) && i < j < |ev| && Fetches(run[i], ev[i], q)
    ensures !Fetches(run[j], ev[j], q)
    ensures AnswerAt(run[j], ev[j], q).Some? ==> AnswerAt(run[j], ev[j], q) == ev[i].answer
  {
    AtMostOneCall(run, ev, i);
    MemoOver(run, ev, i + 1, j, q);
    if AnswerAt(run[j], ev[j], q).Some? {
      AnswersAgree(run, ev, i, j, q);
    }
  }

  /** The memo holds only successful answers: before the first one, nothing is stored. */
  lemma {:induction false} FailuresAreNotStored(run: seq<State>, ev: seq<Event>, i: nat, q: Query)
    requires IsRun(run, ev) && i < |run|
    ensures MemoKey(q) in run[i].memo <==> exists m :: 0 <= m < i && Fetches(run[m], ev[m], q)
  {
    if i > 0 {
      FailuresAreNotStored(run, ev, i - 1, q);
      var s, e := run[i - 1], ev[i - 1];
      if e.Return? {
        MemoKeyInjective(s.calls[e.id], q);
      }
      assert Fetches(s, e, q) ==> MemoKey(q) in run[i].memo;
      if m :| 0 <= m < i && Fetches(run[m], ev[m], q) && m < i - 1 {
        assert MemoKey(q) in s.memo;
      }
    }
  }

  /**
   A call is answered from the memo, without going upstream, exactly when an upstream call for its arguments
   has succeeded before, and then with the answer of the last one that did.
   */
  lemma {:induction false} AnsweredExactlyWhenFetched(run: seq<State>, ev: seq<Event>, i: nat, q: Query)
    requires IsRun(run, ev) && i < |ev| && ev[i].Ask? && ev[i].query == q
    ensures AnswerAt(run[i], ev[i], q).Some? <==> exists m :: 0 <= m < i && Fetches(run[m], ev[m], q)
    ensures ev[i].id in run[i + 1].calls <==> AnswerAt(run[i], ev[i], q).None?
    ensures ev[i].id in run[i + 1].calls ==> run[i + 1].calls[ev[i].id] == q
    ensures forall m :: 0 <= m < i && Fetches(run[m], ev[m], q) && (forall l :: m < l < i ==> !Fetches(run[l], ev[l], q)) ==>
      AnswerAt(run[i], ev[i], q) == ev[m].answer
  {
    FailuresAreNotStored(run, ev, i, q);
    forall m | 0 <= m < i && Fetches(run[m], ev[m], q) && (forall l :: m < l < i ==> !Fetches(run[l], ev[l], q))
      ensures AnswerAt(run[i], ev[i], q) == ev[m].answer
    {
      AnswerIsMemo(run[m], ev[m], q);
      MemoOver(run, ev, m + 1, i, q);
    }
  }

  /** Overlapping calls do both go upstream, and may be answered differently. */
  lemma OverlapFetchesTwice(q: Query) returns (run: seq<State>, ev: seq<Event>)
    ensures IsRun(run, ev) && |ev| == 4
    ensures Fetches(run[2], ev[2], q) && Fetches(run[3], ev[3], q)
    ensures AnswerAt(run[2], ev[2], q) != AnswerAt(run[3], ev[3], q)
  {
    ev := [Ask(0, q), Ask(1, q), Return(0, Some(Allowed(true))), Return(1, Some(Allowed(false)))];
    var s0 := State(map[], map[]);
    var s1 := Step(s0, ev[0]);
    var s2 := Step(s1, ev[1]);
    var s3 := Step(s2, ev[2]);
    run := [s0, s1, s2, s3, Step(s3, ev[3])];
  }

  class Auth {
    var requestCache: map<Key, Value>
    const hasPermissions: bool
    const hasRoles: bool

    constructor (hasPermissions: bool, hasRoles: bool)
      ensures requestCache == map[] && this.hasPermissions == hasPermissions && this.hasRoles == hasRoles
    {
      requestCache := map[];
      this.hasPermissions, this.hasRoles := hasPermissions, hasRoles;
    }

    /** `None` where the code raises `DuarError` because a client is missing. */
    method Begin(q: Query, ghost s: State, ghost id: nat) returns (known: Option<Option<Value>>)
      requires requestCache == s.memo && Enabled(s, Ask(id, q))
      ensures known.None? <==> !(if q.ActionQuery? then hasRoles else hasPermissions)
      ensures known.Some? ==> known.value == AnswerAt(s, Ask(id, q), q) && requestCache == Step(s, Ask(id, q)).memo
    {
      if !(if q.ActionQuery? then hasRoles else hasPermissions) {
        return None;
      }
      var key := MemoKey(q);
      return Some(if key in requestCache then Some(requestCache[key]) else None);
    }

    /** The upstream call succeeded: store, then read back. */
    method Finish(q: Query, v: Value, ghost s: State, ghost id: nat) returns (answer: Value)
      requires requestCache == s.memo && id in s.calls && s.calls[id] == q
      modifies this
      ensures requestCache == Step(s, Return(id, Some(v))).memo
      ensures Some(answer) == AnswerAt(s, Return(id, Some(v)), q)
    {
      var key := MemoKey(q);
      requestCache := requestCache[key := v];
      answer := requestCache[key];
    }
  }
}

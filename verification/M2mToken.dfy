/**
 `Duar.mint_m2m_token`: a cached token and its refresh time, written by possibly overlapping calls.
 Replies are numbered; which reply the token and the refresh time came from is history.
 */
module M2mToken {
  import opened Common

  /** The `token` member of a reply: not there, a JSON null, or text. */
  datatype TokenField = Missing | Null | Text(text: string)

  /** A reply with status 200 and the fields it has, as received. */
  datatype Reply = Reply(at: real, token: TokenField, expiresIn: Option<real>)

  datatype State = State(
    now: real,
    token: Option<string>,
    refreshAt: real,
    calls: set<nat>,
    replies: seq<Reply>,
    tokenFrom: Option<nat>,
    deadlineFrom: Option<nat>)

  datatype Event =
    | Tick(dt: real)
    | Ask(id: nat)
    | Fails(id: nat)
    | Succeeds(id: nat, token: TokenField, expiresIn: Option<real>)

  function Init(now: real): State {
    State(now, None, 0.0, {}, [], None, None)
  }

  /** The token served without a call. */
  function Served(s: State): Option<string> {
    if s.token.Some? && s.now < s.refreshAt then s.token else None
  }

  predicate Enabled(s: State, e: Event) {
    match e
    case Tick(dt) => dt >= 0.0
    case Ask(id) => id !in s.calls
    case Fails(id) => id in s.calls
    case Succeeds(id, _, _) => id in s.calls
  }

  /** What assigning the member leaves in the field: a null is Python's `None`. */
  function Assigned(token: TokenField): Option<string> {
    if token.Text? then Some(token.text) else None
  }

  /**
   A reply without a token raises at once. The token is assigned before `expires_in` is read, so a reply
   without a lifetime raises in between.
   */
  function StepSucceeds(s: State, id: nat, token: TokenField, expiresIn: Option<real>): State {
    var n := |s.replies|;
    var f := s.(calls := s.calls - {id}, replies := s.replies + [Reply(s.now, token, expiresIn)]);
    if token.Missing? then f
    else
      var g := f.(token := Assigned(token), tokenFrom := Some(n));
      if expiresIn.None? then g
      else g.(refreshAt := s.now + expiresIn.value * 0.8, deadlineFrom := Some(n))
  }

  function Step(s: State, e: Event): State
    requires Enabled(s, e)
  {
    match e
    case Tick(dt) => s.(now := s.now + dt)
    case Ask(id) => if Served(s).Some? then s else s.(calls := s.calls + {id})
    case Fails(id) => s.(calls := s.calls - {id})
    case Succeeds(id, token, expiresIn) => StepSucceeds(s, id, token, expiresIn)
  }

  /**
   A reply that has a token member but no usable `expires_in`. Duar's own reply always has a text and a
   number of seconds, so this one comes from something else at its address.
   */
  predicate Truncated(e: Event) {
    e.Succeeds? && !e.token.Missing? && e.expiresIn.None?
  }

  predicate Complete(e: Event) {
    e.Succeeds? && !e.token.Missing? && e.expiresIn.Some?
  }

  ghost predicate Inv(s: State) {
    && s.now >= 0.0
    && (s.token.Some? ==> s.tokenFrom.Some?)
    && (s.tokenFrom.Some? ==> s.tokenFrom.value < |s.replies| && Assigned(s.replies[s.tokenFrom.value].token) == s.token)
    && (s.tokenFrom.None? ==> s.deadlineFrom.None?)
    && (s.deadlineFrom.None? ==> s.refreshAt == 0.0)
    && (s.deadlineFrom.Some? ==>
          s.deadlineFrom.value < |s.replies| &&
          var r := s.replies[s.deadlineFrom.value];
          r.expiresIn.Some? && s.refreshAt == r.at + r.expiresIn.value * 0.8)
    && (forall n :: 0 <= n < |s.replies| ==> s.replies[n].at <= s.now)
    && (s.tokenFrom.Some? && s.replies[s.tokenFrom.value].expiresIn.Some? ==> Paired(s))
    && (forall n :: 0 <= n < |s.replies| && (s.tokenFrom.Some? ==> s.tokenFrom.value < n) ==> s.replies[n].token.Missing?)
  }

  /** Token and refresh time come from one reply. */
  predicate Paired(s: State) {
    s.tokenFrom == s.deadlineFrom
  }

  lemma InvStep(s: State, e: Event)
    requires Inv(s) && Enabled(s, e)
    ensures Inv(Step(s, e))
    ensures Paired(Step(s, e)) <==> Complete(e) || (Paired(s) && !Truncated(e))
  {
  }

  ghost predicate IsRun(run: seq<State>, ev: seq<Event>) {
    && |run| == |ev| + 1
    && run[0] == Init(run[0].now) && run[0].now >= 0.0
    && forall i :: 0 <= i < |ev| ==> Enabled(run[i], ev[i]) && run[i + 1] == Step(run[i], ev[i])
  }

  /** Every truncated reply before step `i` was followed by a complete one. */
  predicate Repaired(ev: seq<Event>, i: nat)
    requires i <= |ev|
  {
    forall j :: 0 <= j < i && Truncated(ev[j]) ==> exists k :: j < k < i && Complete(ev[k])
  }

  lemma RepairedStep(ev: seq<Event>, i: nat)
    requires 0 < i <= |ev|
    ensures Repaired(ev, i) <==> Complete(ev[i - 1]) || (Repaired(ev, i - 1) && !Truncated(ev[i - 1]))
  {
  }

  /** In any run the token and the refresh time are one reply's exactly when each truncated reply was followed by a complete one. */
  lemma {:induction false} PairedWhenRepaired(run: seq<State>, ev: seq<Event>, i: nat)
    requires IsRun(run, ev) && i < |run|
    ensures Inv(run[i])
    ensures Paired(run[i]) <==> Repaired(ev, i)
  {
    hide Inv, Paired;
    if i > 0 {
      PairedWhenRepaired(run, ev, i - 1);
      InvStep(run[i - 1], ev[i - 1]);
      RepairedStep(ev, i);
    } else {
      FirstInv(run[0]);
    }
  }

  lemma FirstInv(s: State)
    requires s == Init(s.now) && s.now >= 0.0
    ensures Inv(s) && Paired(s)
  {
  }

  /** The served token's own reply was received at `T` with `T <= now < T + 0.8 * expires_in`. */
  ghost predicate InsideOwnLifetime(s: State) {
    && s.tokenFrom.Some? && s.tokenFrom.value < |s.replies|
    && var r := s.replies[s.tokenFrom.value];
       Assigned(r.token) == Served(s) && r.expiresIn.Some? && r.at <= s.now < r.at + r.expiresIn.value * 0.8
  }

  /**
   However calls overlap and whatever the replies, a token served from the cache is inside 80% of its own
   reply's lifetime if and only if each truncated reply so far was followed by a complete one.
   */
  lemma ServedInsideLifetime(run: seq<State>, ev: seq<Event>, i: nat)
    requires IsRun(run, ev) && i < |run| && Served(run[i]).Some?
    ensures InsideOwnLifetime(run[i]) <==> Repaired(ev, i)
  {
    PairedWhenRepaired(run, ev, i);
  }

  /**
   The token in the field is the last reply's that had the member, and in a repaired run it is served without a
   call exactly until 80% of that reply's lifetime; when none is served, Duar is called.
   */
  lemma ServedExactlyUntil(run: seq<State>, ev: seq<Event>, i: nat) returns (n: nat)
    requires IsRun(run, ev) && i < |run| && run[i].token.Some? && Repaired(ev, i)
    ensures n < |run[i].replies|
    ensures var s, r := run[i], run[i].replies[n];
      && r.token == Text(s.token.value) && r.expiresIn.Some?
      && (forall m :: n < m < |s.replies| ==> s.replies[m].token.Missing?)
      && (Served(s) == Some(r.token.text) <==> s.now < r.at + r.expiresIn.value * 0.8)
      && (Served(s) == None <==> s.now >= r.at + r.expiresIn.value * 0.8)
    ensures i < |ev| && ev[i].Ask? ==>
      (ev[i].id in run[i + 1].calls <==> run[i].now >= run[i].replies[n].at + run[i].replies[n].expiresIn.value * 0.8)
  {
    PairedWhenRepaired(run, ev, i);
    n := run[i].tokenFrom.value;
  }

  /** Calls are sequential: a call is made only when no other is in flight. */
  ghost predicate Sequential(run: seq<State>, ev: seq<Event>) {
    |run| == |ev| + 1 && forall i :: 0 <= i < |ev| && ev[i].Ask? ==> run[i].calls == {}
  }

  /** A reply that leaves no token and yet moves the refresh time into the future. */
  predicate NullWithLifetime(e: Event) {
    e.Succeeds? && e.token.Null? && e.expiresIn.Some? && e.expiresIn.value > 0.0
  }

  /** While a call is out, the pair is broken or there is no token, the refresh time has passed. */
  ghost predicate Idle(s: State) {
    && (forall a, b :: a in s.calls && b in s.calls ==> a == b)
    && (s.calls != {} || !Paired(s) || s.token.None? ==> s.now >= s.refreshAt)
  }

  lemma IdleStep(s: State, e: Event)
    requires Inv(s) && Idle(s) && Enabled(s, e) && (e.Ask? ==> s.calls == {}) && !NullWithLifetime(e)
    ensures Idle(Step(s, e))
  {
  }

  lemma {:induction false} RunIdle(run: seq<State>, ev: seq<Event>, i: nat)
    requires IsRun(run, ev) && Sequential(run, ev) && i < |run|
    requires forall j :: 0 <= j < i ==> !NullWithLifetime(ev[j])
    ensures Idle(run[i])
  {
    if i > 0 {
      RunIdle(run, ev, i - 1);
      PairedWhenRepaired(run, ev, i - 1);
      IdleStep(run[i - 1], ev[i - 1]);
    }
  }

  /**
   With sequential calls and no null token that carries a lifetime, every served token is inside 80% of its
   own reply's lifetime, truncated replies included: a call is made only once the refresh time has
   passed, and a truncated reply does not move it.
   */
  lemma SequentialServedInside(run: seq<State>, ev: seq<Event>, i: nat)
    requires IsRun(run, ev) && Sequential(run, ev) && i < |run| && Served(run[i]).Some?
    requires forall j :: 0 <= j < i ==> !NullWithLifetime(ev[j])
    ensures InsideOwnLifetime(run[i])
  {
    RunIdle(run, ev, i);
    PairedWhenRepaired(run, ev, i);
  }

  /** With a truncated reply among overlapping calls, a token is served on another reply's refresh time. */
  lemma TruncatedReplyMixesPairs() returns (run: seq<State>, ev: seq<Event>)
    ensures IsRun(run, ev) && |ev| == 4 && Truncated(ev[3])
    ensures Served(run[4]) == Some("second") && |run[4].replies| == 2 && run[4].replies[1].expiresIn.None?
  {
    ev := [Ask(0), Ask(1), Succeeds(0, Text("first"), Some(300.0)), Succeeds(1, Text("second"), None)];
    var s0 := Init(1.0);
    var s1 := Step(s0, ev[0]);
    var s2 := Step(s1, ev[1]);
    var s3 := Step(s2, ev[2]);
    run := [s0, s1, s2, s3, Step(s3, ev[3])];
  }

  /** Sequential calls do not suffice: a null token moves the refresh time, and the truncated reply after it is served on that. */
  lemma NullTokenLendsItsLifetime() returns (run: seq<State>, ev: seq<Event>)
    ensures IsRun(run, ev) && Sequential(run, ev) && |ev| == 4
    ensures NullWithLifetime(ev[1]) && Truncated(ev[3])
    ensures Served(run[4]) == Some("second") && !InsideOwnLifetime(run[4])
  {
    ev := [Ask(0), Succeeds(0, Null, Some(300.0)), Ask(1), Succeeds(1, Text("second"), None)];
    var s0 := Init(1.0);
    var s1 := Step(s0, ev[0]);
    var s2 := Step(s1, ev[1]);
    var s3 := Step(s2, ev[2]);
    run := [s0, s1, s2, s3, Step(s3, ev[3])];
  }
}

/**
 The batching log shipper of `admin/src/lib/logger.ts` as a transition system: `flush` runs
 up to its await in one turn, its `finally` block in a later one, and flushes may overlap.
 `logged`, `batches` and `rearmed` are history.
 */
module ClientLogger {
  import opened Common

  const MAX_BUFFER := 50

  datatype Level = Debug | Info | Warning | Error
  datatype ClientEvent = ClientEvent(event: string, level: Level, fields: map<string, Option<string>>)

  datatype State = State(
    buffer: seq<ClientEvent>,
    timer: Option<nat>,             // the variable `timer`
    scheduled: set<nat>,            // timeouts the browser will fire
    nextTimer: nat,
    lastRequestId: Option<string>,
    inFlight: nat,                  // flushes at their await
    logged: seq<ClientEvent>,
    batches: seq<seq<ClientEvent>>,
    rearmed: bool)                  // a `finally` block has armed the timer

  datatype Event =
    | SetLastRequestId(id: Option<string>)
    | ClientLog(event: string, level: Level, fields: map<string, Option<string>>, throws: bool)
    | TimerFires(timeout: nat, throws: bool)
    | PageHide(throws: bool)
    | FetchSettles

  const INIT := State([], None, {}, 0, None, 0, [], [], false)

  predicate StartsWith(s: string, prefix: string) {
    prefix <= s
  }

  /** The event as it is recorded: name prefixed, last request id under the caller's own fields. */
  function Recorded(s: State, event: string, level: Level, fields: map<string, Option<string>>): ClientEvent {
    ClientEvent(
      if StartsWith(event, "client.") then event else "client." + event,
      level,
      map["request_id" := s.lastRequestId] + fields)
  }

  function Arm(s: State): State {
    s.(timer := Some(s.nextTimer), scheduled := s.scheduled + {s.nextTimer}, nextTimer := s.nextTimer + 1)
  }

  function Disarm(s: State): State {
    match s.timer
    case Some(id) => s.(timer := None, scheduled := s.scheduled - {id})
    case None => s
  }

  /** The `finally` block. */
  function Finally(s: State): State {
    if s.buffer != [] && s.timer.None? then Arm(s).(rearmed := true) else s
  }

  function Min(a: nat, b: nat): nat {
    if a <= b then a else b
  }

  /** `flush` in the turn that calls it; when handing over the batch throws, `finally` runs in the same turn. */
  function AfterFlush(s: State, throws: bool): State {
    var d := Disarm(s);
    if d.buffer == [] then d
    else
      var n := Min(MAX_BUFFER, |d.buffer|);
      var sent := d.(buffer := d.buffer[n..], batches := d.batches + [d.buffer[..n]]);
      if throws then Finally(sent) else sent.(inFlight := sent.inFlight + 1)
  }

  predicate Enabled(s: State, e: Event) {
    match e
    case TimerFires(id, _) => id in s.scheduled
    case FetchSettles => s.inFlight > 0
    case _ => true
  }

  function Step(s: State, e: Event): State
    requires Enabled(s, e)
  {
    match e
    case SetLastRequestId(id) => if Truthy(id) then s.(lastRequestId := id) else s
    case ClientLog(event, level, fields, throws) =>
      var x := Recorded(s, event, level, fields);
      var pushed := s.(buffer := s.buffer + [x], logged := s.logged + [x]);
      if |pushed.buffer| >= MAX_BUFFER then AfterFlush(pushed, throws)
      else if pushed.timer.None? then Arm(pushed) else pushed
    case TimerFires(id, throws) => AfterFlush(s.(scheduled := s.scheduled - {id}), throws)
    case PageHide(throws) => AfterFlush(s, throws)
    case FetchSettles => Finally(s.(inFlight := s.inFlight - 1))
  }

  function Concat<T>(ss: seq<seq<T>>): seq<T> {
    if ss == [] then [] else Concat(ss[..|ss| - 1]) + ss[|ss| - 1]
  }

  /** What every state between turns satisfies. */
  ghost predicate Inv(s: State) {
    && s.logged == Concat(s.batches) + s.buffer
    && (forall i :: 0 <= i < |s.batches| ==> 1 <= |s.batches[i]| <= MAX_BUFFER)
    && |s.buffer| < MAX_BUFFER
    && (s.timer.Some? <==> s.buffer != [])
    && s.scheduled == (match s.timer case Some(id) => {id} case None => {})
    && (s.timer.Some? ==> s.timer.value < s.nextTimer)
    && !s.rearmed
  }

  lemma ConcatAppend<T>(ss: seq<seq<T>>, s: seq<T>)
    ensures Concat(ss + [s]) == Concat(ss) + s
  {
    assert (ss + [s])[..|ss|] == ss;
  }

  /** A flush of at most one batch sends everything: nothing is left behind for `finally` to re-arm. */
  lemma FlushSendsAll(s: State, throws: bool)
    requires s.logged == Concat(s.batches) + s.buffer && |s.buffer| <= MAX_BUFFER && !s.rearmed
    requires forall i :: 0 <= i < |s.batches| ==> 1 <= |s.batches[i]| <= MAX_BUFFER
    requires s.scheduled <= (match s.timer case Some(id) => {id} case None => {})
    ensures Inv(AfterFlush(s, throws)) && AfterFlush(s, throws).buffer == []
  {
    hide Concat;
    ConcatAppend(s.batches, s.buffer);
    assert s.buffer[..|s.buffer|] == s.buffer;
    assert s.buffer == [] ==> Concat(s.batches) + s.buffer == Concat(s.batches);
  }

  lemma InvStep(s: State, e: Event)
    requires Inv(s) && Enabled(s, e)
    ensures Inv(Step(s, e))
  {
    match e
    case ClientLog(event, level, fields, throws) =>
      var x := Recorded(s, event, level, fields);
      assert Concat(s.batches) + (s.buffer + [x]) == Concat(s.batches) + s.buffer + [x];
      if |s.buffer| + 1 >= MAX_BUFFER {
        FlushSendsAll(s.(buffer := s.buffer + [x], logged := s.logged + [x]), throws);
      }
    case TimerFires(id, throws) => FlushSendsAll(s.(scheduled := s.scheduled - {id}), throws);
    case PageHide(throws) => FlushSendsAll(s, throws);
    case _ =>
  }

  ghost predicate IsRun(run: seq<State>, ev: seq<Event>) {
    && |run| == |ev| + 1
    && run[0] == INIT
    && forall i :: 0 <= i < |ev| ==> Enabled(run[i], ev[i]) && run[i + 1] == Step(run[i], ev[i])
  }

  lemma {:induction false} RunInv(run: seq<State>, ev: seq<Event>, i: nat)
    requires IsRun(run, ev) && i < |run|
    ensures Inv(run[i])
  {
    if i > 0 {
      RunInv(run, ev, i - 1);
      InvStep(run[i - 1], ev[i - 1]);
    }
  }

  /** The events of a run, as recorded, in the order of the calls. */
  ghost function LoggedBy(run: seq<State>, ev: seq<Event>, i: nat): seq<ClientEvent>
    requires |run| == |ev| + 1 && i <= |ev|
  {
    if i == 0 then []
    else
      LoggedBy(run, ev, i - 1) +
      if ev[i - 1].ClientLog? then [Recorded(run[i - 1], ev[i - 1].event, ev[i - 1].level, ev[i - 1].fields)] else []
  }

  lemma StepLogs(s: State, e: Event)
    requires Enabled(s, e)
    ensures Step(s, e).logged ==
      s.logged + if e.ClientLog? then [Recorded(s, e.event, e.level, e.fields)] else []
  {
  }

  lemma {:induction false} LoggedIsLog(run: seq<State>, ev: seq<Event>, i: nat)
    requires IsRun(run, ev) && i <= |ev|
    ensures run[i].logged == LoggedBy(run, ev, i)
  {
    hide Step, Recorded;
    if i > 0 {
      LoggedIsLog(run, ev, i - 1);
      StepLogs(run[i - 1], ev[i - 1]);
    }
  }

  /** Conservation, in every interleaving: the events logged are the batches sent followed by the buffer, in order. */
  lemma NothingLostOrReordered(run: seq<State>, ev: seq<Event>, i: nat)
    requires IsRun(run, ev) && i <= |ev|
    ensures LoggedBy(run, ev, i) == Concat(run[i].batches) + run[i].buffer
  {
    RunInv(run, ev, i);
    LoggedIsLog(run, ev, i);
  }

  /**
   Batches have 1 to 50 events and the buffer stays below 50; exactly one timeout is scheduled when the
   buffer is non-empty and none when it is empty.
   */
  lemma BoundedAndScheduled(run: seq<State>, ev: seq<Event>, i: nat)
    requires IsRun(run, ev) && i <= |ev|
    ensures forall b :: 0 <= b < |run[i].batches| ==> 1 <= |run[i].batches[b]| <= 50
    ensures |run[i].buffer| < 50
    ensures |run[i].scheduled| == if run[i].buffer == [] then 0 else 1
    ensures run[i].timer.Some? <==> run[i].buffer != []
  {
    RunInv(run, ev, i);
  }

  /** A call hands over a batch exactly when it is the fiftieth waiting, and then all fifty; else it only joins the buffer. */
  lemma CallFlushesExactlyWhenFull(run: seq<State>, ev: seq<Event>, i: nat)
    requires IsRun(run, ev) && i < |ev| && ev[i].ClientLog?
    ensures var s, f := run[i], run[i + 1];
      if |s.buffer| == 49 then f.buffer == [] && |f.batches| == |s.batches| + 1 && |f.batches[|s.batches|]| == 50
      else f.batches == s.batches && |f.buffer| == |s.buffer| + 1
  {
    RunInv(run, ev, i);
    RunInv(run, ev, i + 1);
  }

  // ---- What is recorded ----

  /** The last non-empty id given to `setLastRequestId` before step `i`. */
  function LastId(ev: seq<Event>, i: nat): Option<string>
    requires i <= |ev|
  {
    if i == 0 then None
    else
      match ev[i - 1]
      case SetLastRequestId(Some(id)) => if id != "" then Some(id) else LastId(ev, i - 1)
      case _ => LastId(ev, i - 1)
  }

  /** `x` is what the call at step `i` is to be recorded as. */
  ghost predicate Records(x: ClientEvent, ev: seq<Event>, i: nat) {
    && i < |ev| && ev[i].ClientLog?
    && x.level == ev[i].level
    && x.event == (if |ev[i].event| >= 7 && ev[i].event[..7] == "client." then ev[i].event else "client." + ev[i].event)
    && x.fields.Keys == ev[i].fields.Keys + {"request_id"}
    && (forall k :: k in ev[i].fields ==> x.fields[k] == ev[i].fields[k])
    && ("request_id" !in ev[i].fields ==> x.fields["request_id"] == LastId(ev, i))
  }

  /** The steps before `i` that are calls. */
  function Calls(ev: seq<Event>, i: nat): (r: seq<nat>)
    requires i <= |ev|
    ensures forall m :: 0 <= m < |r| ==> r[m] < i && ev[r[m]].ClientLog?
    ensures forall m, n :: 0 <= m < n < |r| ==> r[m] < r[n]
    ensures forall j :: 0 <= j < i && ev[j].ClientLog? ==> j in r
  {
    if i == 0 then [] else Calls(ev, i - 1) + if ev[i - 1].ClientLog? then [i - 1] else []
  }

  lemma RecordedAsCalled(s: State, ev: seq<Event>, i: nat)
    requires i < |ev| && ev[i].ClientLog? && s.lastRequestId == LastId(ev, i)
    ensures Records(Recorded(s, ev[i].event, ev[i].level, ev[i].fields), ev, i)
  {
  }

  lemma IdStep(s: State, e: Event)
    requires Enabled(s, e)
    ensures Step(s, e).lastRequestId ==
      if e.SetLastRequestId? && e.id.Some? && e.id.value != "" then e.id else s.lastRequestId
  {
  }

  lemma {:induction false} LastIdIsKept(run: seq<State>, ev: seq<Event>, i: nat)
    requires IsRun(run, ev) && i <= |ev|
    ensures run[i].lastRequestId == LastId(ev, i)
  {
    hide Step;
    if i > 0 {
      LastIdIsKept(run, ev, i - 1);
      IdStep(run[i - 1], ev[i - 1]);
    }
  }

  lemma {:induction false} LoggedRecordsCalls(run: seq<State>, ev: seq<Event>, i: nat)
    requires IsRun(run, ev) && i <= |ev|
    ensures |LoggedBy(run, ev, i)| == |Calls(ev, i)|
    ensures forall m :: 0 <= m < |Calls(ev, i)| ==> Records(LoggedBy(run, ev, i)[m], ev, Calls(ev, i)[m])
  {
    hide Step, Recorded, Records;
    if i > 0 {
      LoggedRecordsCalls(run, ev, i - 1);
      LastIdIsKept(run, ev, i - 1);
      if ev[i - 1].ClientLog? {
        RecordedAsCalled(run[i - 1], ev, i - 1);
      }
    }
  }

  /**
   Every call of a run is recorded once, in order, in the batches and then the buffer: under its own level and
   prefixed name, with its own fields, and with the last request id unless it brings one.
   */
  lemma EveryCallIsRecorded(run: seq<State>, ev: seq<Event>, i: nat)
    requires IsRun(run, ev) && i <= |ev|
    ensures var out := Concat(run[i].batches) + run[i].buffer;
      && |out| == |Calls(ev, i)|
      && forall m :: 0 <= m < |out| ==> Records(out[m], ev, Calls(ev, i)[m])
  {
    hide Records;
    NothingLostOrReordered(run, ev, i);
    LoggedRecordsCalls(run, ev, i);
  }

  /** The re-arm in `finally` never happens: the block does nothing in any reachable state. */
  lemma FinallyIsIdle(run: seq<State>, ev: seq<Event>, i: nat)
    requires IsRun(run, ev) && i <= |ev|
    ensures !run[i].rearmed && Finally(run[i]) == run[i]
  {
    RunInv(run, ev, i);
  }

  /** When the scheduled timeout fires, everything logged so far has been handed over. */
  lemma TimerDeliversAll(run: seq<State>, ev: seq<Event>, i: nat)
    requires IsRun(run, ev) && i < |ev| && (ev[i].TimerFires? || ev[i].PageHide?)
    ensures LoggedBy(run, ev, i + 1) == Concat(run[i + 1].batches)
  {
    RunInv(run, ev, i);
    RunInv(run, ev, i + 1);
    LoggedIsLog(run, ev, i + 1);
    var s := run[i];
    if ev[i].TimerFires? {
      FlushSendsAll(s.(scheduled := s.scheduled - {ev[i].timeout}), ev[i].throws);
    } else {
      FlushSendsAll(s, ev[i].throws);
    }
  }

  /** The module's variables; each method is one turn of the code, and ties them to a step. */
  class Shipper {
    var buffer: seq<ClientEvent>
    var timer: Option<nat>
    var lastRequestId: Option<string>
    var nextTimer: nat

    constructor ()
      ensures Holds(INIT)
    {
      buffer, timer, lastRequestId, nextTimer := [], None, None, 0;
    }

    ghost predicate Holds(s: State)
      reads this
    {
      buffer == s.buffer && timer == s.timer && lastRequestId == s.lastRequestId && nextTimer == s.nextTimer
    }

    method SetLastRequestId(id: Option<string>, ghost s: State)
      requires Holds(s)
      modifies this
      ensures Holds(Step(s, Event.SetLastRequestId(id)))
    {
      if Truthy(id) {
        lastRequestId := id;
      }
    }

    /** `batch` is what the turn hands to `fetch`, empty when it hands over nothing. */
    method ClientLog(event: string, level: Level, fields: map<string, Option<string>>, throws: bool, ghost s: State)
        returns (batch: seq<ClientEvent>)
      requires Holds(s)
      modifies this
      ensures var f := Step(s, Event.ClientLog(event, level, fields, throws));
        Holds(f) && f.batches == s.batches + if batch == [] then [] else [batch]
    {
      var name := if StartsWith(event, "client.") then event else "client." + event;
      ghost var x := Recorded(s, event, level, fields);
      buffer := buffer + [ClientEvent(name, level, map["request_id" := lastRequestId] + fields)];
      batch := [];
      if |buffer| >= MAX_BUFFER {
        batch := Flush(throws, s.(buffer := s.buffer + [x], logged := s.logged + [x]));
      } else if timer.None? {
        timer, nextTimer := Some(nextTimer), nextTimer + 1;
      }
    }

    method Flush(throws: bool, ghost s: State) returns (batch: seq<ClientEvent>)
      requires Holds(s)
      modifies this
      ensures var f := AfterFlush(s, throws);
        Holds(f) && f.batches == s.batches + if batch == [] then [] else [batch]
    {
      if timer.Some? {
        timer := None;
      }
      if |buffer| == 0 {
        return [];
      }
      var n := Min(MAX_BUFFER, |buffer|);
      batch := buffer[..n];
      buffer := buffer[n..];
      if throws {
        Settle(Disarm(s).(buffer := s.buffer[n..], batches := s.batches + [s.buffer[..n]]));
      }
    }

    /** The `finally` block. */
    method Settle(ghost s: State)
      requires Holds(s)
      modifies this
      ensures Holds(Finally(s))
    {
      if |buffer| > 0 && timer.None? {
        timer, nextTimer := Some(nextTimer), nextTimer + 1;
      }
    }
  }
}

/**
 A run of the auto-resolve protocol in which a late failure costs a newer mint: two requests hold the
 first token of a key, one fails, the key is minted again, and then the other one fails.
 */
module LateFailure {
  import opened Common
  import opened OrderedDict
  import opened Identifiers
  import opened ResolveCache
  import opened MintProtocol
  import opened MintProtocolRuns

  /** A request without a token of its own, for a workspace it names. */
  predicate AutoResolved(w: World, q: Incoming) {
    !Truthy(q.authzHeader) && ResolveKey(w, q).Some?
  }

  function Key(w: World, q: Incoming): string
    requires AutoResolved(w, q)
  {
    ResolveKey(w, q).value
  }

  function Waiter(w: World, q: Incoming, t: nat): Request
    requires AutoResolved(w, q)
  {
    Request(q, Waiting(Key(w, q), t))
  }

  function Holder(w: World, q: Incoming, token: string, n: nat): Request
    requires AutoResolved(w, q)
  {
    Request(q, Holding(token, Resolved(Key(w, q), n)))
  }

  function MintTaskOf(w: World, q: Incoming, outcome: Outcome): Task
    requires AutoResolved(w, q)
  {
    Task(Key(w, q), q.sub.value, w.parseUuid(q.workspaceHeader.value).value, outcome)
  }

  function MintOf(w: World, q: Incoming, token: string): Mint
    requires AutoResolved(w, q)
  {
    Mint(Key(w, q), token, 0.0, None)
  }

  lemma StoreInEmpty(m: Mint)
    ensures Store([], m) == [Item(m.key, Entry(m))]
    ensures Remove([Item(m.key, Entry(m))], m.key) == []
    ensures Has([Item(m.key, Entry(m))], m.key)
  {
  }

  /** A request that finds neither a cached token nor a task starts the next mint. */
  lemma ArrivesFirst(w: World, s: State, q: Incoming, r: nat)
    requires AutoResolved(w, q) && s.cache == [] && Key(w, q) !in s.pending && r !in s.requests
    ensures Enabled(s, Arrive(r, q))
    ensures Step(w, s, Arrive(r, q)) == s.(
      requests := s.requests[r := Waiter(w, q, |s.tasks|)],
      tasks := s.tasks + [MintTaskOf(w, q, Minting)],
      pending := s.pending[Key(w, q) := |s.tasks|])
  {
  }

  /** A request that finds a task joins it. */
  lemma ArrivesSecond(w: World, s: State, q: Incoming, r: nat)
    requires AutoResolved(w, q) && s.cache == [] && Key(w, q) in s.pending && r !in s.requests
    ensures Enabled(s, Arrive(r, q))
    ensures Step(w, s, Arrive(r, q)) == s.(requests := s.requests[r := Waiter(w, q, s.pending[Key(w, q)])])
  {
  }

  /** The last task's answer arrives and is stored in the empty cache. */
  lemma Mints(w: World, s: State, q: Incoming, rest: seq<Task>, token: string)
    requires AutoResolved(w, q) && s.cache == [] && s.now == 0.0 && token != ""
    requires s.tasks == rest + [MintTaskOf(w, q, Minting)]
    ensures var e := MintReturns(|rest|, Body(Some(token), None));
      && Enabled(s, e) && Succeeds(s, e, Key(w, q))
      && Step(w, s, e) == s.(
           cache := [Item(Key(w, q), Entry(MintOf(w, q, token)))],
           log := s.log + [MintOf(w, q, token)],
           tasks := rest + [MintTaskOf(w, q, Minted(token, |s.log|))],
           doneQueue := s.doneQueue + [|rest|])
  {
    StoreInEmpty(MintOf(w, q, token));
  }

  lemma CallbackRuns(w: World, s: State, q: Incoming, rest: seq<Task>, o: Outcome)
    requires AutoResolved(w, q) && s.doneQueue == [|rest|] && s.tasks == rest + [MintTaskOf(w, q, o)]
    requires s.pending == map[Key(w, q) := |rest|]
    ensures Enabled(s, DoneRuns)
    ensures Step(w, s, DoneRuns) == s.(pending := map[], doneQueue := [])
  {
  }

  lemma Resumes(w: World, s: State, q: Incoming, r: nat, rest: seq<Task>, token: string, n: nat)
    requires AutoResolved(w, q) && r in s.requests && s.requests[r] == Waiter(w, q, |rest|)
    requires s.tasks == rest + [MintTaskOf(w, q, Minted(token, n))] && s.doneQueue == []
    ensures Enabled(s, Resume(r))
    ensures Step(w, s, Resume(r)) == s.(requests := s.requests[r := Holder(w, q, token, n)])
  {
  }

  /** The entry that is there is popped, whichever mint it is of. */
  lemma Fails(w: World, s: State, q: Incoming, r: nat, token: string, n: nat, m: Mint)
    requires AutoResolved(w, q) && r in s.requests && s.requests[r] == Holder(w, q, token, n)
    requires s.doneQueue == [] && m.key == Key(w, q) && s.cache == [Item(m.key, Entry(m))]
    ensures Enabled(s, VerifyFails(r)) && Pops(s, VerifyFails(r), Key(w, q))
    ensures Step(w, s, VerifyFails(r)) == s.(
      requests := s.requests[r := Request(q, Replied(401))], cache := [], failed := s.failed + {token})
  {
    StoreInEmpty(m);
  }

  /** Two requests wait for the key's first mint, and it succeeds. */
  lemma FirstMint(w: World, q: Incoming) returns (run: seq<State>, ev: seq<Event>)
    requires AutoResolved(w, q)
    ensures IsRun(w, run, ev) && |ev| == 4
    ensures run[4] == State(0.0, [Item(Key(w, q), Entry(MintOf(w, q, "first")))], map[],
      [MintTaskOf(w, q, Minted("first", 0))], [],
      map[0 := Waiter(w, q, 0), 1 := Waiter(w, q, 0)], [MintOf(w, q, "first")], {})
  {
    hide Step, Enabled, Store, Remove, AutoResolved;
    ev := [Arrive(0, q), Arrive(1, q), MintReturns(0, Body(Some("first"), None)), DoneRuns];
    var s0 := Init(0.0);
    ArrivesFirst(w, s0, q, 0);
    var s1 := Step(w, s0, ev[0]);
    ArrivesSecond(w, s1, q, 1);
    var s2 := Step(w, s1, ev[1]);
    Mints(w, s2, q, [], "first");
    var s3 := Step(w, s2, ev[2]);
    CallbackRuns(w, s3, q, [], Minted("first", 0));
    run := [s0, s1, s2, s3, Step(w, s3, ev[3])];
  }

  /** The run goes on. */
  lemma Joined(w: World, run: seq<State>, ev: seq<Event>, more: seq<State>, later: seq<Event>)
    requires IsRun(w, run, ev) && |more| == |later| + 1 && more[0] == run[|ev|]
    requires forall i :: 0 <= i < |later| ==> Enabled(more[i], later[i]) && more[i + 1] == Step(w, more[i], later[i])
    ensures IsRun(w, run + more[1..], ev + later)
  {
    hide Step, Enabled;
    var all, es := run + more[1..], ev + later;
    forall i | 0 <= i < |es| ensures Enabled(all[i], es[i]) && all[i + 1] == Step(w, all[i], es[i]) {
      assert i >= |ev| ==> all[i] == more[i - |ev|] && all[i + 1] == more[i + 1 - |ev|] && es[i] == later[i - |ev|];
    }
  }

  /** Both hold the token, and the first one finds that it does not verify. */
  lemma FirstFails(w: World, q: Incoming) returns (run: seq<State>, ev: seq<Event>)
    requires AutoResolved(w, q)
    ensures IsRun(w, run, ev) && |ev| == 7
    ensures run[7] == State(0.0, [], map[], [MintTaskOf(w, q, Minted("first", 0))], [],
      map[0 := Request(q, Replied(401)), 1 := Holder(w, q, "first", 0)], [MintOf(w, q, "first")], {"first"})
  {
    hide Step, Enabled, Store, Remove, AutoResolved;
    var before, first := FirstMint(w, q);
    var later := [Resume(0), Resume(1), VerifyFails(0)];
    var s4 := before[4];
    Resumes(w, s4, q, 0, [], "first", 0);
    var s5 := Step(w, s4, later[0]);
    Resumes(w, s5, q, 1, [], "first", 0);
    var s6 := Step(w, s5, later[1]);
    Fails(w, s6, q, 0, "first", 0, MintOf(w, q, "first"));
    var s7 := Step(w, s6, later[2]);
    Joined(w, before, first, [s4, s5, s6, s7], later);
    run, ev := before + [s4, s5, s6, s7][1..], first + later;
  }

  /** The key is minted again, and then the other holder of the first token fails: the second token is dropped. */
  lemma LateFailureDropsNewerMint(w: World, q: Incoming) returns (run: seq<State>, ev: seq<Event>)
    requires AutoResolved(w, q)
    ensures IsRun(w, run, ev) && |ev| == 12 && ev[11].VerifyFails?
    ensures run[11].requests[ev[11].r].phase == Holding("first", Resolved(Key(w, q), 0))
    ensures Get(run[11].cache, Key(w, q)) == Some(Entry(MintOf(w, q, "second")))
    ensures LastMint(run[11].log, Key(w, q)) == 1
    ensures Pops(run[11], ev[11], Key(w, q)) && run[12].cache == [] && run[12].failed == {"first"}
  {
    hide Step, Enabled, Store, Remove, Pops, AutoResolved;
    var before, first := FirstFails(w, q);
    var later := [Arrive(2, q), MintReturns(1, Body(Some("second"), None)), DoneRuns, Resume(2), VerifyFails(1)];
    ev := first + later;
    var done := [MintTaskOf(w, q, Minted("first", 0))];
    var s7 := before[7];
    ArrivesFirst(w, s7, q, 2);
    var s8 := Step(w, s7, later[0]);
    Mints(w, s8, q, done, "second");
    var s9 := Step(w, s8, later[1]);
    CallbackRuns(w, s9, q, done, Minted("second", 1));
    var s10 := Step(w, s9, later[2]);
    Resumes(w, s10, q, 2, done, "second", 1);
    var s11 := Step(w, s10, later[3]);
    Fails(w, s11, q, 1, "first", 0, MintOf(w, q, "second"));
    var s12 := Step(w, s11, later[4]);
    Joined(w, before, first, [s7, s8, s9, s10, s11, s12], later);
    run := before + [s7, s8, s9, s10, s11, s12][1..];
    LastMintAfter([MintOf(w, q, "first")], MintOf(w, q, "second"), Key(w, q));
  }
}

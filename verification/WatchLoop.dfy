/** The watch loop (`services/keeper/src/watch-loop.ts`): tick every round that is not known
    to have ended, and survive every failure. */
module WatchLoop {
  import opened Common
  import opened RoundTypes
  import opened RoundInvariant
  import opened RoundRuns
  import opened RoundProgress
  import opened Sdk
  import opened KeeperSpec
  import opened Keeper
  import opened SettlementGuard
  import opened KeeperStore

  /** What the keeper believes is true: no settlement is pending, and everything the guard or
      the store takes for ended has ended on chain - so no live round is held back or dropped. */
  ghost predicate InStep(c: Client, store: Store, guard: Guard)
    reads c, store, guard
  {
    c.Valid() && guard.Coherent(c.done) && guard.Idle() && store.Coherent(c.done)
  }

  /** Rounds of this contract on this network, whether or not already seen ended. */
  predicate Ours(w: WatchedRound, contractId: string, network: string) {
    && (w.contractId.None? || w.contractId.value == [] || w.contractId.value == contractId)
    && (w.network.None? || w.network.value == [] || w.network.value == network)
  }

  /** The same rounds, living where they lived. */
  ghost predicate SamePlaces(p: map<U64, WatchedRound>, q: map<U64, WatchedRound>) {
    && p.Keys == q.Keys
    && forall id | id in p :: q[id].contractId == p[id].contractId && q[id].network == p[id].network
  }

  /** Whether a tick did anything worth noting, and the note. */
  predicate Acted(t: Tick) {
    || (t.void.Some? && t.void.value.voided)
    || (t.keep.Some? && (t.keep.value.openedReveal || t.keep.value.revealed != []))
    || (t.close.Some? && (t.close.value.cleared || t.close.value.settled))
  }

  function Summary(t: Tick): Action {
    Action(t.finalStatus, t.void.Some? && t.void.value.voided, t.keep.Some? && t.keep.value.openedReveal,
           if t.keep.Some? then |t.keep.value.revealed| else 0,
           t.close.Some? && t.close.value.cleared, t.close.Some? && t.close.value.settled)
  }

  function CountReveals(calls: seq<Call>): nat {
    if calls == [] then 0
    else CountReveals(calls[..|calls| - 1]) + if calls[|calls| - 1].Reveal? then 1 else 0
  }

  /** The note says which calls took effect. */
  ghost predicate Notes(a: Action, calls: seq<Call>, rid: U64) {
    && (a.voided <==> Void(rid) in calls)
    && (a.openedReveal <==> exists c :: c in calls && c.OpenReveal?)
    && a.revealed == CountReveals(calls)
    && (a.cleared <==> Clear(rid) in calls)
    && (a.settled <==> Settle(rid) in calls)
  }

  lemma {:induction false} CountAppend(a: seq<Call>, b: seq<Call>)
    ensures CountReveals(a + b) == CountReveals(a) + CountReveals(b)
  {
    if b == [] {
      assert a + b == a;
    } else {
      CountAppend(a, b[..|b| - 1]);
      assert (a + b)[..|a + b| - 1] == a + b[..|b| - 1];
    }
  }

  lemma {:induction false} CountAll(calls: seq<Call>, rid: U64, bidders: seq<Address>)
    requires RevealsOf(calls, rid, bidders)
    ensures CountReveals(calls) == |bidders|
  {
    if calls != [] { CountAll(calls[..|calls| - 1], rid, bidders[..|bidders| - 1]); }
  }

  lemma {:induction false} CountNone(calls: seq<Call>)
    requires forall c | c in calls :: !c.Reveal?
    ensures CountReveals(calls) == 0
  {
    if calls != [] { CountNone(calls[..|calls| - 1]); }
  }

  /** The calls of a first half, stage by stage. */
  lemma StartStages(start: seq<Call>, rid: U64, void: Option<VoidResult>, keep: Option<KeepResult>)
    returns (voids: seq<Call>, opens: seq<Call>, shown: seq<Call>)
    requires StartReported(start, rid, void, keep)
    ensures start == voids + opens + shown
    ensures voids == if void.Some? && void.value.voided then [Void(rid)] else []
    ensures OpensOf(opens, rid, keep.Some? && keep.value.openedReveal)
    ensures RevealsOf(shown, rid, if keep.Some? then keep.value.revealed else [])
  {
    voids := if void.Some? && void.value.voided then [Void(rid)] else [];
    var keeps := start[|voids|..];
    assert start == voids + keeps;
    var n := if keep.Some? && keep.value.openedReveal then 1 else 0;
    opens, shown := keeps[..n], keeps[n..];
    assert keeps == opens + shown;
    if keep.None? { assert keeps == []; }
    hide OpensOf, RevealsOf;
    assert start == voids + opens + shown;
  }

  /** Which kinds of calls the stages contain, and how many reveals. */
  lemma KindsOfStages(rid: U64, opens: seq<Call>, didOpen: bool, shown: seq<Call>, bidders: seq<Address>)
    requires OpensOf(opens, rid, didOpen) && RevealsOf(shown, rid, bidders)
    ensures didOpen <==> opens != []
    ensures forall c | c in opens :: c.OpenReveal?
    ensures forall c | c in shown :: c.Reveal?
    ensures CountReveals(opens) == 0 && CountReveals(shown) == |bidders| && |shown| == |bidders|
  {
    CountAll(shown, rid, bidders);
    CountNone(opens);
  }

  lemma AmongStages(voids: seq<Call>, opens: seq<Call>, shown: seq<Call>, closes: seq<Call>, c: Call)
    ensures c in voids + opens + shown + closes <==> c in voids || c in opens || c in shown || c in closes
  {
  }

  lemma RevealsInStages(voids: seq<Call>, opens: seq<Call>, shown: seq<Call>, closes: seq<Call>)
    requires forall c | c in voids || c in opens || c in closes :: !c.Reveal?
    ensures CountReveals(voids + opens + shown + closes) == CountReveals(shown)
  {
    CountNone(voids);
    CountNone(opens);
    CountNone(closes);
    CountAppend(voids, opens);
    CountAppend(voids + opens, shown);
    CountAppend(voids + opens + shown, closes);
  }

  lemma KindsNote(a: Action, rid: U64, calls: seq<Call>, voids: seq<Call>, opens: seq<Call>, shown: seq<Call>,
                  closes: seq<Call>)
    requires forall c :: c in calls <==> c in voids || c in opens || c in shown || c in closes
    requires CountReveals(calls) == a.revealed
    requires (forall c :: c in voids <==> a.voided && c == Void(rid))
    requires (a.openedReveal <==> opens != []) && (forall c | c in opens :: c.OpenReveal?)
    requires (forall c | c in shown :: c.Reveal?)
    requires (forall c :: c in closes <==> (a.cleared && c == Clear(rid)) || (a.settled && c == Settle(rid)))
    ensures Notes(a, calls, rid)
  {
    hide CountReveals;
    if a.openedReveal { assert opens[0] in calls; }
  }

  lemma StagesNote(a: Action, rid: U64, voids: seq<Call>, opens: seq<Call>, shown: seq<Call>, closes: seq<Call>)
    requires voids == if a.voided then [Void(rid)] else []
    requires (a.openedReveal <==> opens != []) && (forall c | c in opens :: c.OpenReveal?)
    requires (forall c | c in shown :: c.Reveal?) && CountReveals(shown) == a.revealed
    requires closes == (if a.cleared then [Clear(rid)] else []) + (if a.settled then [Settle(rid)] else [])
    ensures Notes(a, voids + opens + shown + closes, rid)
  {
    assert forall c :: c in voids <==> a.voided && c == Void(rid);
    assert forall c :: c in closes <==> (a.cleared && c == Clear(rid)) || (a.settled && c == Settle(rid));
    RevealsInStages(voids, opens, shown, closes);
    hide CountReveals, Notes;
    forall c
      ensures c in voids + opens + shown + closes <==> c in voids || c in opens || c in shown || c in closes
    {
      AmongStages(voids, opens, shown, closes, c);
    }
    KindsNote(a, rid, voids + opens + shown + closes, voids, opens, shown, closes);
  }

  /** What the loop writes down about a tick is what the tick did, and it notes nothing exactly
      if no call took effect. */
  lemma SummaryNotes(calls: seq<Call>, rid: U64, t: Tick)
    requires TickReported(calls, rid, t)
    ensures Notes(Summary(t), calls, rid) && Summary(t).status == t.finalStatus
    ensures Acted(t) <==> calls != []
  {
    var closes := CloseCalls(rid, t.close);
    var start := calls[..|calls| - |closes|];
    assert calls == start + closes;
    var voids, opens, shown := StartStages(start, rid, t.void, t.keep);
    hide TickReported, Notes, OpensOf, RevealsOf, StartReported;
    var didOpen := t.keep.Some? && t.keep.value.openedReveal;
    var bidders := if t.keep.Some? then t.keep.value.revealed else [];
    KindsOfStages(rid, opens, didOpen, shown, bidders);
    hide CountReveals;
    StagesNote(Summary(t), rid, voids, opens, shown, closes);
    assert calls != [] <==> voids != [] || opens != [] || shown != [] || closes != [];
  }

  /** The tick reports an end of its own doing. */
  predicate Ended(t: Tick) { t.close.Some? && (t.close.value.settled || t.close.value.voided) }

  /** What is stored after a tick that landed `calls`. */
  ghost predicate TickStored(w: WatchedRound, status: Status, calls: seq<Call>, rid: U64, listed: Option<Action>) {
    && w.lastStatus == Some(status) && w.retryCount == 0 && w.lastError.None?
    && if calls == [] then w.lastAction == listed
       else w.lastAction.Some? && w.lastAction.value.status == status && Notes(w.lastAction.value, calls, rid)
  }

  /** One watched round within one polling cycle; `listed` is the last action the cycle's
      listing showed for it. */
  method TickRound(c: Client, store: Store, guard: Guard, rid: U64, listed: Option<Action>, pollMs: nat)
    requires InStep(c, store, guard)
    modifies c`chain, c`clock, c`landed, c`done, c`lost, store, guard
    ensures InStep(c, store, guard) && old(c.done) <= c.done && c.clock >= old(c.clock)
    ensures SamePlaces(old(store.rounds), store.rounds)
    ensures forall id | id in store.rounds && id != rid :: store.rounds[id] == old(store.rounds)[id]
    ensures c.faultFree ==> Elsewhere(old(c.chain), c.chain, rid)
    ensures c.faultFree && Overdue(c.beacon, old(c.chain), old(c.Now()), rid) ==>
              Finished(c.chain, rid) && rid in c.done
    ensures c.faultFree && rid in old(c.chain).cells && rid in store.rounds ==>
              && rid in c.chain.cells && old(c.landed) <= c.landed
              && TickStored(store.rounds[rid], c.chain.cells[rid].round.status, c.landed[|old(c.landed)|..], rid,
                            listed)
  {
    hide StateOk, Finished, Elsewhere, Overdue, FirstMove, Acted, Summary, TickReported, Notes;
    ghost var before := c.chain;
    OverdueExists(c.beacon, before, c.Now(), rid);
    ghost var overdue := Overdue(c.beacon, before, c.Now(), rid);
    var tick := WatchRound(c, rid, guard, pollMs);
    if c.faultFree && rid !in before.cells { TimeElsewhere(before, c.chain, rid); }
    if c.faultFree && overdue { FinishedIsFinal(c.chain, rid); }
    var message: string := *;
    RecordTick(c, store, guard, rid, tick, listed, message);
    if tick.Some? { SummaryNotes(c.landed[|old(c.landed)|..], rid, tick.value); }
  }

  /** What the loop writes down after a tick, or after catching its exception. */
  method RecordTick(c: Client, store: Store, guard: Guard, rid: U64, tick: Option<Tick>, listed: Option<Action>,
                    message: string)
    requires c.Valid() && guard.Coherent(c.done) && store.Coherent(c.done)
    requires forall id | id in guard.entries && (id != rid || tick.Some?) :: guard.entries[id].status != Submitted
    requires tick.Some? && Final(tick.value.finalStatus) ==> rid in c.done
    requires tick.Some? && Ended(tick.value) ==> rid in c.done
    modifies store, guard
    ensures InStep(c, store, guard)
    ensures SamePlaces(old(store.rounds), store.rounds)
    ensures forall id | id in store.rounds && id != rid :: store.rounds[id] == old(store.rounds)[id]
    ensures rid in store.rounds && tick.None? ==>
              store.rounds[rid] == old(store.rounds)[rid].(retryCount := old(store.rounds)[rid].retryCount + 1,
                                                           lastError := Some(message))
    ensures rid in store.rounds && tick.Some? ==>
              store.rounds[rid] == old(store.rounds)[rid].(
                lastStatus := Some(tick.value.finalStatus), retryCount := 0, lastError := None,
                lastAction := if Acted(tick.value) then Some(Summary(tick.value)) else listed)
    ensures guard.entries == if tick.None? then old(guard.entries)[rid := Entry(Pending, Retryable)]
                             else if tick.value.close.Some? && tick.value.close.value.settled then
                               old(guard.entries)[rid := Entry(Terminal, SettledOnChain)]
                             else if (tick.value.close.Some? && tick.value.close.value.voided)
                                     || tick.value.finalStatus == Voided then
                               old(guard.entries)[rid := Entry(Terminal, VoidedOnChain)]
                             else old(guard.entries)
  {
    hide StateOk, Acted, Summary;
    MarkTick(guard, rid, tick, c.done);
    NoteTick(store, rid, tick, listed, message, c.done);
  }

  method MarkTick(guard: Guard, rid: U64, tick: Option<Tick>, ghost done: set<U64>)
    requires guard.Coherent(done)
    requires forall id | id in guard.entries && (id != rid || tick.Some?) :: guard.entries[id].status != Submitted
    requires tick.Some? && tick.value.finalStatus == Voided ==> rid in done
    requires tick.Some? && Ended(tick.value) ==> rid in done
    modifies guard
    ensures guard.Coherent(done) && guard.Idle()
    ensures guard.entries == if tick.None? then old(guard.entries)[rid := Entry(Pending, Retryable)]
                             else if tick.value.close.Some? && tick.value.close.value.settled then
                               old(guard.entries)[rid := Entry(Terminal, SettledOnChain)]
                             else if (tick.value.close.Some? && tick.value.close.value.voided)
                                     || tick.value.finalStatus == Voided then
                               old(guard.entries)[rid := Entry(Terminal, VoidedOnChain)]
                             else old(guard.entries)
  {
    if tick.None? {
      guard.MarkRetryable(rid);
    } else if tick.value.close.Some? && tick.value.close.value.settled {
      guard.MarkTerminal(rid, SettledOnChain);
    } else if (tick.value.close.Some? && tick.value.close.value.voided) || tick.value.finalStatus == Voided {
      guard.MarkTerminal(rid, VoidedOnChain);
    }
  }

  method NoteTick(store: Store, rid: U64, tick: Option<Tick>, listed: Option<Action>, message: string,
                  ghost done: set<U64>)
    requires store.Coherent(done)
    requires tick.Some? && Final(tick.value.finalStatus) ==> rid in done
    modifies store
    ensures store.Coherent(done) && SamePlaces(old(store.rounds), store.rounds)
    ensures forall id | id in store.rounds && id != rid :: store.rounds[id] == old(store.rounds)[id]
    ensures rid in store.rounds && tick.None? ==>
              store.rounds[rid] == old(store.rounds)[rid].(retryCount := old(store.rounds)[rid].retryCount + 1,
                                                           lastError := Some(message))
    ensures rid in store.rounds && tick.Some? ==>
              store.rounds[rid] == old(store.rounds)[rid].(
                lastStatus := Some(tick.value.finalStatus), retryCount := 0, lastError := None,
                lastAction := if Acted(tick.value) then Some(Summary(tick.value)) else listed)
  {
    if tick.Some? {
      var t := tick.value;
      var action := if Acted(t) then Some(Summary(t)) else listed;
      store.UpdateRound(rid, NO_CHANGE.(lastStatus := Some(Some(t.finalStatus)), retryCount := Some(0),
                                        lastError := Some(None), lastAction := Some(action)));
    } else {
      var retries := if rid in store.rounds then store.rounds[rid].retryCount else 0;
      store.UpdateRound(rid, NO_CHANGE.(retryCount := Some(retries + 1), lastError := Some(Some(message))));
    }
  }

  lemma OverdueExists(beacon: Beacon, s: State, clock: nat, rid: U64)
    ensures Overdue(beacon, s, clock, rid) ==> rid in s.cells
  {
  }

  lemma TimeElsewhere(s: State, t: State, rid: U64)
    requires t == s.(now := t.now)
    ensures Elsewhere(s, t, rid)
  {
  }

  /** After the first `n` of the listed rounds have been ticked without faults: those that were
      overdue are finished, those still to come are as they were. */
  ghost predicate Processed(beacon: Beacon, s0: State, t0: nat, s: State, ids: seq<U64>, n: nat)
    requires n <= |ids|
  {
    && (forall i | 0 <= i < n :: Overdue(beacon, s0, t0, ids[i]) ==> Finished(s, ids[i]))
    && (forall i | n <= i < |ids| :: (ids[i] in s0.cells <==> ids[i] in s.cells)
                                     && (ids[i] in s0.cells ==> s.cells[ids[i]] == s0.cells[ids[i]]))
  }

  lemma ProcessedStep(beacon: Beacon, s0: State, t0: nat, s: State, t: nat, s': State, ids: seq<U64>, n: nat)
    requires n < |ids| && t0 <= t && Distinct(ids)
    requires Processed(beacon, s0, t0, s, ids, n) && Elsewhere(s, s', ids[n])
    requires Overdue(beacon, s, t, ids[n]) ==> Finished(s', ids[n])
    ensures Processed(beacon, s0, t0, s', ids, n + 1)
  {
    forall i | 0 <= i < n + 1 && Overdue(beacon, s0, t0, ids[i])
      ensures Finished(s', ids[i])
    {
      if i < n {
        assert ids[i] != ids[n] && Finished(s, ids[i]);
      } else {
        assert Overdue(beacon, s, t, ids[n]);
      }
    }
  }

  /** Ended rounds stay ended and hold nothing. */
  lemma DoneIsFinished(c: Client, rid: U64)
    requires c.Valid() && rid in c.done
    ensures Finished(c.chain, rid)
  {
    EndedHoldsNothing(c.cfg, c.chain, rid);
  }

  /** The three filters of a cycle. */
  predicate Watched(w: WatchedRound, contractId: string, network: string) {
    && w.contractId in {None, Some(""), Some(contractId)} && w.network in {None, Some(""), Some(network)}
    && w.lastStatus !in {Some(Settled), Some(Voided)}
  }

  lemma WatchedMeans(w: WatchedRound, contractId: string, network: string)
    ensures Watched(w, contractId, network) <==> Ours(w, contractId, network) && !SeenEnded(w)
  {
  }

  /** The watched rounds not yet seen ended, in order of id. */
  method ActiveRounds(store: Store, contractId: string, network: string) returns (active: seq<U64>)
    ensures Distinct(active)
    ensures forall rid :: rid in active <==>
              rid in store.rounds && Ours(store.rounds[rid], contractId, network) && !SeenEnded(store.rounds[rid])
    ensures forall rid :: rid in active <==>
              rid in store.rounds && Watched(store.rounds[rid], contractId, network)
  {
    var ids := store.ListRounds();
    active := [];
    for i := 0 to |ids|
      invariant forall rid :: rid in active <==>
                  rid in ids[..i] && Ours(store.rounds[rid], contractId, network) && !SeenEnded(store.rounds[rid])
      invariant Distinct(active)
    {
      var w := store.rounds[ids[i]];
      assert ids[..i + 1] == ids[..i] + [ids[i]] && ids[i] !in ids[..i];
      if Ours(w, contractId, network) && !SeenEnded(w) { active := active + [ids[i]]; }
    }
    assert ids[..|ids|] == ids;
    forall w { WatchedMeans(w, contractId, network); }
  }

  /** A round of this contract that was overdue when the keeper's world was `s`. */
  ghost predicate Owed(c: Client, s: State, clock: nat, w: map<U64, WatchedRound>, contractId: string,
                       network: string, rid: U64)
  {
    rid in w && Ours(w[rid], contractId, network) && Overdue(c.beacon, s, clock, rid)
  }

  /** Take up newly found rounds; those already stored as ours stay ours. */
  method AddFound(c: Client, store: Store, guard: Guard, found: seq<U64>, contractId: string, network: string)
    requires InStep(c, store, guard)
    modifies store
    ensures InStep(c, store, guard)
    ensures forall rid | rid in old(store.rounds) && Ours(old(store.rounds)[rid], contractId, network) ::
              rid in store.rounds && Ours(store.rounds[rid], contractId, network)
  {
    hide StateOk;
    for i := 0 to |found|
      invariant InStep(c, store, guard)
      invariant forall rid | rid in old(store.rounds) && Ours(old(store.rounds)[rid], contractId, network) ::
                  rid in store.rounds && Ours(store.rounds[rid], contractId, network)
    {
      store.AddRound(found[i], NO_CHANGE.(contractId := Some(Some(contractId)), network := Some(Some(network))));
    }
  }

  /** One polling cycle: take up newly found rounds (none if the listing failed), then tick
      every round not seen ended.  `stopAfter` is set when the process is told to stop after
      that many rounds.

      Whatever fails, the keeper stays in step with the chain.  A cycle without faults that is
      not interrupted finishes every overdue round it watches, and knows it. */
  method PollCycle(c: Client, store: Store, guard: Guard, contractId: string, network: string,
                   found: Option<seq<U64>>, stopAfter: Option<nat>, pollMs: nat)
    requires InStep(c, store, guard)
    modifies c`chain, c`clock, c`landed, c`done, c`lost, store, guard
    ensures InStep(c, store, guard) && old(c.done) <= c.done && c.clock >= old(c.clock)
    ensures forall rid | rid in old(store.rounds) && Ours(old(store.rounds)[rid], contractId, network) ::
              rid in store.rounds && Ours(store.rounds[rid], contractId, network)
    ensures c.faultFree && stopAfter.None? ==>
              forall rid | rid in store.rounds && Ours(store.rounds[rid], contractId, network)
                           && Overdue(c.beacon, old(c.chain), old(c.Now()), rid) ::
                Finished(c.chain, rid) && rid in c.done
  {
    hide StateOk, Finished, Elsewhere, Overdue, Processed, InStep;
    if found.Some? { AddFound(c, store, guard, found.value, contractId, network); }
    var active := ActiveRounds(store, contractId, network);
    var listed := store.rounds;
    ghost var s0, t0 := c.chain, c.Now();
    EndsAreKnown(c, store, guard);
    ProcessedNone(c.beacon, s0, t0, active);
    for i := 0 to |active|
      invariant InStep(c, store, guard) && old(c.done) <= c.done && c.clock >= old(c.clock)
      invariant SamePlaces(listed, store.rounds)
      invariant c.faultFree ==> Processed(c.beacon, s0, t0, c.chain, active, i)
      invariant c.faultFree ==> forall j | 0 <= j < i && Overdue(c.beacon, s0, t0, active[j]) :: active[j] in c.done
    {
      if stopAfter.Some? && i >= stopAfter.value { return; }
      ghost var s, t := c.chain, c.Now();
      TickRound(c, store, guard, active[i], listed[active[i]].lastAction, pollMs);
      if c.faultFree {
        StillOverdue(c.beacon, s0, t0, s, t, active, i);
        ProcessedStep(c.beacon, s0, t0, s, t, c.chain, active, i);
      }
    }
    if c.faultFree {
      forall rid | Owed(c, s0, t0, store.rounds, contractId, network, rid)
        ensures Finished(c.chain, rid) && rid in c.done
      {
        if rid !in active { assert SeenEnded(listed[rid]); }
        EndsAreKnown(c, store, guard);
        DoneIsFinished(c, rid);
      }
    }
  }

  lemma EndsAreKnown(c: Client, store: Store, guard: Guard)
    requires InStep(c, store, guard)
    ensures c.Valid() && forall rid | rid in store.rounds && SeenEnded(store.rounds[rid]) :: rid in c.done
  {
  }

  /** A round still to be ticked is overdue if it was. */
  lemma StillOverdue(beacon: Beacon, s0: State, t0: nat, s: State, t: nat, ids: seq<U64>, n: nat)
    requires n < |ids| && t0 <= t && Processed(beacon, s0, t0, s, ids, n)
    ensures Overdue(beacon, s0, t0, ids[n]) ==> Overdue(beacon, s, t, ids[n])
  {
  }

  lemma ProcessedNone(beacon: Beacon, s0: State, t0: nat, ids: seq<U64>)
    ensures Processed(beacon, s0, t0, s0, ids, 0)
  {
  }

  /** Whether some cycle of the loop runs to its end without faults. */
  predicate OneGoodCycle(calm: seq<bool>, stopAfter: Option<nat>) {
    exists i :: 0 <= i < |calm| && calm[i] && (i < |calm| - 1 || stopAfter.None?)
  }

  /** These rounds are stored as ours. */
  ghost predicate StoredAsOurs(store: Store, contractId: string, network: string, rids: set<U64>)
    reads store
  {
    forall rid | rid in rids :: rid in store.rounds && Ours(store.rounds[rid], contractId, network)
  }

  /** One turn of the loop; `owed` are rounds of ours that were overdue when the chain was `c.origin`. */
  method Turn(c: Client, store: Store, guard: Guard, contractId: string, network: string, found: Option<seq<U64>>,
              calm: bool, stopAfter: Option<nat>, last: bool, pollMs: nat, ghost t0: nat, ghost owed: set<U64>)
    requires InStep(c, store, guard) && t0 <= c.Now() && StoredAsOurs(store, contractId, network, owed)
    requires forall rid | rid in owed :: Overdue(c.beacon, c.origin, t0, rid)
    modifies c`chain, c`clock, c`landed, c`done, c`lost, c`faultFree, store, guard
    ensures InStep(c, store, guard) && old(c.done) <= c.done && c.clock >= old(c.clock)
    ensures StoredAsOurs(store, contractId, network, owed)
    ensures calm && stopAfter.None? ==> owed <= c.done
  {
    hide StateOk, Finished, Overdue, Grows, Ours;
    c.Switch(calm);
    OverdueStays(c, c.origin, t0);
    PollCycle(c, store, guard, contractId, network, found, stopAfter, pollMs);
    if !last { c.Sleep(pollMs); }
  }

  /** Any number of polling cycles, with rounds turning up, listings failing, interruptions at
      any point, and faults in all cycles that are not `calm`: the keeper is in step after every
      one of them.  However many cycles failed, one calm cycle that is not interrupted finishes
      every round stored as ours that was overdue at the start. */
  method RunWatchLoop(c: Client, store: Store, guard: Guard, contractId: string, network: string,
                      found: seq<Option<seq<U64>>>, calm: seq<bool>, stopAfter: Option<nat>, pollMs: nat)
    requires InStep(c, store, guard) && |calm| == |found|
    modifies c, store, guard
    ensures InStep(c, store, guard) && old(c.done) <= c.done
    ensures OneGoodCycle(calm, stopAfter) ==>
              forall rid | Owed(c, old(c.chain), old(c.Now()), old(store.rounds), contractId, network, rid) ::
                Finished(c.chain, rid)
  {
    hide StateOk, Finished, Overdue, Grows, Ours;
    ghost var s0, t0, rounds0 := c.chain, c.Now(), store.rounds;
    ghost var owed := set rid | rid in rounds0 && Owed(c, s0, t0, rounds0, contractId, network, rid);
    c.Remember();
    for i := 0 to |found|
      invariant InStep(c, store, guard) && old(c.done) <= c.done && c.clock >= old(c.clock) && c.origin == s0
      invariant StoredAsOurs(store, contractId, network, owed)
      invariant forall j | 0 <= j < i && calm[j] && (j < |calm| - 1 || stopAfter.None?) :: owed <= c.done
    {
      var last := i == |found| - 1;
      Turn(c, store, guard, contractId, network, found[i], calm[i], if last then stopAfter else None, last, pollMs,
           t0, owed);
    }
    hide InStep, StoredAsOurs;
    forall rid | rid in c.done
      ensures Finished(c.chain, rid)
    {
      DoneIsFinished(c, rid);
    }
  }

  /** What was overdue when the chain was last remembered still is. */
  lemma OverdueStays(c: Client, s0: State, t0: nat)
    requires c.Valid() && c.origin == s0 && t0 <= c.Now()
    ensures forall rid | Overdue(c.beacon, s0, t0, rid) :: Overdue(c.beacon, c.chain, c.Now(), rid)
  {
    forall rid | Overdue(c.beacon, s0, t0, rid)
      ensures Overdue(c.beacon, c.chain, c.Now(), rid)
    {
      assert Later(s0.cells[rid], c.chain.cells[rid]);
    }
  }

  /** A keeper that starts - with whatever an earlier run saved about rounds that ended since, and
      an empty guard - is in step. */
  method StartKeeper(cfg: Config, beacon: Beacon, faultFree: bool, chain: State, clock: nat,
                     saved: map<U64, WatchedRound>)
    returns (c: Client, store: Store, guard: Guard)
    requires StateOk(cfg, chain) && clock <= END_OF_TIME && (faultFree ==> clock / 1000 <= chain.now)
    requires forall r: U64 | beacon.serves(r) :: cfg.verifies(r, beacon.signature(r))
    requires forall rid | rid in saved && SeenEnded(saved[rid]) ::
               rid in chain.cells && Final(chain.cells[rid].round.status)
    ensures fresh(c) && fresh(store) && fresh(guard) && InStep(c, store, guard)
    ensures c.cfg == cfg && c.chain == chain && c.clock == clock && c.faultFree == faultFree && c.landed == []
    ensures store.rounds == saved && guard.entries == map[]
  {
    hide StateOk, Grows;
    ghost var ended := set rid | rid in saved && SeenEnded(saved[rid]);
    c := new Client(cfg, beacon, faultFree, chain, clock, ended);
    store := new Store(saved);
    guard := new Guard();
  }

  /** What the loop leaves in the store satisfies what the next start asks of it, also when the
      chain has moved on in between. */
  lemma SavedIsSound(c: Client, store: Store, guard: Guard, later: State)
    requires InStep(c, store, guard) && Grows(c.chain, later)
    ensures forall rid | rid in store.rounds && SeenEnded(store.rounds[rid]) ::
              rid in later.cells && Final(later.cells[rid].round.status)
  {
    forall rid | rid in store.rounds && SeenEnded(store.rounds[rid])
      ensures rid in later.cells && Final(later.cells[rid].round.status)
    {
      assert Later(c.chain.cells[rid], later.cells[rid]);
    }
  }
}

/** The keeper's record of the rounds it watches (`services/keeper/src/store.ts`). */
module KeeperStore {
  import opened Common
  import opened RoundTypes
  import opened RoundInvariant

  /** What a tick did, as the log line and the store report it. */
  datatype Action = Action(
    status: Status, voided: bool, openedReveal: bool, revealed: nat, cleared: bool, settled: bool)

  /** `lastStatus` is absent while the round's status is still "Unknown". */
  datatype WatchedRound = WatchedRound(
    contractId: Option<string>, network: Option<string>, lastStatus: Option<Status>, retryCount: nat,
    lastError: Option<string>, lastAction: Option<Action>)

  /** Any subset of the fields; an absent field is kept, a present one replaces, also with nothing. */
  datatype Update = Update(
    contractId: Option<Option<string>>, network: Option<Option<string>>, lastStatus: Option<Option<Status>>,
    retryCount: Option<nat>, lastError: Option<Option<string>>, lastAction: Option<Option<Action>>)

  const NO_CHANGE := Update(None, None, None, None, None, None)

  function Or<T>(change: Option<T>, kept: T): T { if change.Some? then change.value else kept }

  function Merged(w: WatchedRound, u: Update): WatchedRound {
    WatchedRound(Or(u.contractId, w.contractId), Or(u.network, w.network), Or(u.lastStatus, w.lastStatus),
                 Or(u.retryCount, w.retryCount), Or(u.lastError, w.lastError), Or(u.lastAction, w.lastAction))
  }

  /** A change of one field replaces that field and keeps the others. */
  lemma MergedOne(w: WatchedRound, contractId: Option<string>, network: Option<string>, status: Option<Status>,
                  retries: nat, error: Option<string>, action: Option<Action>)
    ensures Merged(w, NO_CHANGE) == w
    ensures Merged(w, NO_CHANGE.(contractId := Some(contractId))) == w.(contractId := contractId)
    ensures Merged(w, NO_CHANGE.(network := Some(network))) == w.(network := network)
    ensures Merged(w, NO_CHANGE.(lastStatus := Some(status))) == w.(lastStatus := status)
    ensures Merged(w, NO_CHANGE.(retryCount := Some(retries))) == w.(retryCount := retries)
    ensures Merged(w, NO_CHANGE.(lastError := Some(error))) == w.(lastError := error)
    ensures Merged(w, NO_CHANGE.(lastAction := Some(action))) == w.(lastAction := action)
  {
  }

  /** A round just taken up. */
  const UNKNOWN := WatchedRound(None, None, None, 0, None, None)

  predicate SeenEnded(w: WatchedRound) { w.lastStatus.Some? && Final(w.lastStatus.value) }

  class Store {
    var rounds: map<U64, WatchedRound>

    /** What an earlier run saved, or nothing. */
    constructor (saved: map<U64, WatchedRound>)
      ensures rounds == saved
    {
      rounds := saved;
    }

    /** A stored end is a round known to have ended. */
    ghost predicate Coherent(done: set<U64>)
      reads this
    {
      forall rid | rid in rounds && SeenEnded(rounds[rid]) :: rid in done
    }

    /** Add a round, or refresh an already known one, with the given fields. */
    method AddRound(rid: U64, extra: Update)
      modifies this
      ensures rid in rounds
      ensures rounds == old(rounds)[rid := Merged(if rid in old(rounds) then old(rounds)[rid] else UNKNOWN, extra)]
    {
      if rid !in rounds {
        rounds := rounds[rid := Merged(UNKNOWN, extra)];
      } else {
        rounds := rounds[rid := Merged(rounds[rid], extra)];
      }
    }

    method RemoveRound(rid: U64)
      modifies this
      ensures rounds == old(rounds) - {rid}
    {
      if rid in rounds { rounds := rounds - {rid}; }
    }

    /** Merge the given fields into a stored round; unknown rounds are ignored. */
    method UpdateRound(rid: U64, update: Update)
      modifies this
      ensures rounds.Keys == old(rounds).Keys
      ensures forall id | id in rounds && id != rid :: rounds[id] == old(rounds)[id]
      ensures rid in rounds ==> rounds[rid] == Merged(old(rounds)[rid], update)
    {
      if rid in rounds {
        var w := rounds[rid];
        if update.contractId.Some? { w := w.(contractId := update.contractId.value); }
        if update.network.Some? { w := w.(network := update.network.value); }
        if update.lastStatus.Some? { w := w.(lastStatus := update.lastStatus.value); }
        if update.retryCount.Some? { w := w.(retryCount := update.retryCount.value); }
        if update.lastError.Some? { w := w.(lastError := update.lastError.value); }
        if update.lastAction.Some? { w := w.(lastAction := update.lastAction.value); }
        rounds := rounds[rid := w];
      }
    }

    /** The stored ids in increasing order. */
    method ListRounds() returns (ids: seq<U64>)
      ensures forall i, j | 0 <= i < j < |ids| :: ids[i] < ids[j]
      ensures forall rid :: rid in ids <==> rid in rounds
    {
      ids := [];
      var rest := rounds.Keys;
      while rest != {}
        invariant forall i, j | 0 <= i < j < |ids| :: ids[i] < ids[j]
        invariant forall rid :: rid in rounds <==> rid in ids || rid in rest
        invariant forall i, rid | 0 <= i < |ids| && rid in rest :: ids[i] < rid
        decreases |rest|
      {
        var least :| least in rest;
        var others := rest - {least};
        while others != {}
          invariant least in rest && others <= rest
          invariant forall rid | rid in rest && rid !in others :: least <= rid
          decreases |others|
        {
          var other :| other in others;
          if other < least { least := other; }
          others := others - {other};
        }
        ids := ids + [least];
        rest := rest - {least};
      }
    }
  }
}

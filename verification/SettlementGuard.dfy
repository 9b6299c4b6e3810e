/** The keeper's in-memory guard against settling a round twice
    (`services/keeper/src/settlement-guard.ts`). */
module SettlementGuard {
  import opened Common

  datatype GuardStatus = Pending | Submitted | Terminal

  datatype Reason = Initial | Dispatched | SettledOnChain | SettleSkipped | VoidedOnChain | Retryable

  datatype Entry = Entry(status: GuardStatus, reason: Reason)

  /** Only the entry of `rid` may be new or different. */
  predicate OthersKept(before: map<U64, Entry>, after: map<U64, Entry>, rid: U64) {
    forall id | id != rid && id in after :: id in before && after[id] == before[id]
  }

  class Guard {
    var entries: map<U64, Entry>

    constructor ()
      ensures entries == map[]
    {
      entries := map[];
    }

    ghost function Status(rid: U64): GuardStatus
      reads this
    {
      if rid in entries then entries[rid].status else Pending
    }

    /** A terminal entry is a round known to have ended. */
    ghost predicate Coherent(done: set<U64>)
      reads this
    {
      forall rid | rid in entries && entries[rid].status == Terminal :: rid in done
    }

    /** No settlement is left half-reported. */
    ghost predicate Idle()
      reads this
    {
      forall rid | rid in entries :: entries[rid].status != Submitted
    }

    method GetOrCreate(rid: U64) returns (entry: Entry)
      modifies this
      ensures rid in entries && entry == entries[rid]
      ensures entries == if rid in old(entries) then old(entries) else old(entries)[rid := Entry(Pending, Initial)]
    {
      if rid !in entries {
        entries := entries[rid := Entry(Pending, Initial)];
      }
      entry := entries[rid];
    }

    method CanSettle(rid: U64) returns (allowed: bool)
      modifies this
      ensures allowed <==> old(Status(rid)) == Pending
      ensures Status(rid) == old(Status(rid)) && entries.Keys == old(entries).Keys + {rid}
      ensures forall other | other in old(entries) :: entries[other] == old(entries)[other]
    {
      var entry := GetOrCreate(rid);
      allowed := entry.status == Pending;
    }

    method Mark(rid: U64, status: GuardStatus, reason: Reason)
      modifies this
      ensures entries == old(entries)[rid := Entry(status, reason)]
    {
      var entry := GetOrCreate(rid);
      entries := entries[rid := entry.(status := status, reason := reason)];
    }

    method MarkSubmitted(rid: U64)
      modifies this
      ensures entries == old(entries)[rid := Entry(Submitted, Dispatched)]
    {
      Mark(rid, Submitted, Dispatched);
    }

    method MarkTerminal(rid: U64, reason: Reason)
      modifies this
      ensures entries == old(entries)[rid := Entry(Terminal, reason)]
    {
      Mark(rid, Terminal, reason);
    }

    method MarkRetryable(rid: U64)
      modifies this
      ensures entries == old(entries)[rid := Entry(Pending, Retryable)]
    {
      Mark(rid, Pending, Retryable);
    }
  }
}

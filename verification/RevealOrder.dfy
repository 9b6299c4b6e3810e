/** Reveals may arrive in any order, from anyone, mixed with wrong ones: what ends up
    recorded depends only on which openings were submitted
    (`contracts/round/src/lib.rs:242-290`). */
module RevealOrder {
  import opened Common
  import opened RoundTypes
  import opened RoundSpec
  import opened RoundRuns
  import Commitment

  /** One reveal submitted at ledger time `at`. */
  datatype Attempt = Attempt(at: U64, bidder: Address, value: I128, nonce: Bytes32)

  function Try(cfg: Config, cell: Cell, t: Attempt): Cell {
    var r := RevealBooks(cfg, t.at, Books(cell, map[]), t.bidder, t.value, t.nonce);
    if r.Ok? then r.value.cell else cell
  }

  function TryAll(cfg: Config, cell: Cell, ts: seq<Attempt>): Cell {
    if ts == [] then cell else Try(cfg, TryAll(cfg, cell, ts[..|ts| - 1]), ts[|ts| - 1])
  }

  /** A reveal call of the contract is one such attempt and touches nothing else. */
  lemma RevealIsTry(cfg: Config, s: State, rid: U64, t: Attempt)
    requires rid in s.cells && s.now == t.at
    ensures Next(cfg, s, Reveal(rid, t.bidder, t.value, t.nonce))
            == s.(cells := s.cells[rid := Try(cfg, s.cells[rid], t)])
  {
    assert s.cells[rid := s.cells[rid]] == s.cells;
  }

  predicate Opens(cfg: Config, st: BidState, t: Attempt) {
    cfg.sha256(Commitment.Encode(t.value, t.nonce)) == st.commitment
  }

  /** No two openings in the list collide.  Nothing is said about other inputs of the hash. */
  ghost predicate CollisionFree(cfg: Config, ts: seq<Attempt>) {
    forall t, u | t in ts && u in ts ::
      cfg.sha256(Commitment.Encode(t.value, t.nonce)) == cfg.sha256(Commitment.Encode(u.value, u.nonce)) ==>
        Commitment.Encode(t.value, t.nonce) == Commitment.Encode(u.value, u.nonce)
  }

  ghost predicate InWindow(cell: Cell, ts: seq<Attempt>) {
    cell.round.status == Revealing && forall t | t in ts :: t.at <= cell.round.revealDeadline
  }

  /** `after` is what the set of attempts `ts` makes of bidder `a`'s bid, with no mention of
      order: kept if already revealed, opened by any attempt that fits, otherwise untouched. */
  ghost predicate BidOutcome(cfg: Config, st: BidState, a: Address, ts: seq<Attempt>, after: BidState) {
    if st.revealedValue.Some? then after == st
    else
      && (forall t | t in ts && t.bidder == a && Opens(cfg, st, t) :: after == Recorded(st, t.value, t.nonce))
      && ((forall t | t in ts && t.bidder == a :: !Opens(cfg, st, t)) ==> after == st)
  }

  ghost predicate Outcome(cfg: Config, cell: Cell, ts: seq<Attempt>, after: Cell) {
    && after == cell.(states := after.states)
    && after.states.Keys == cell.states.Keys
    && forall a | a in cell.states :: BidOutcome(cfg, cell.states[a], a, ts, after.states[a])
  }

  lemma OneOpening(cfg: Config, st: BidState, ts: seq<Attempt>, t: Attempt, u: Attempt)
    requires CollisionFree(cfg, ts) && t in ts && u in ts && Opens(cfg, st, t) && Opens(cfg, st, u)
    ensures t.value == u.value && t.nonce == u.nonce
  {
    Commitment.EncodeInjective(t.value, t.nonce, u.value, u.nonce);
  }

  lemma OutcomeStep(cfg: Config, cell: Cell, ts: seq<Attempt>, before: Cell, a: Address)
    requires ts != [] && InWindow(cell, ts) && CollisionFree(cfg, ts)
    requires Outcome(cfg, cell, ts[..|ts| - 1], before) && a in cell.states
    ensures a in Try(cfg, before, ts[|ts| - 1]).states
    ensures BidOutcome(cfg, cell.states[a], a, ts, Try(cfg, before, ts[|ts| - 1]).states[a])
  {
    var prefix, last := ts[..|ts| - 1], ts[|ts| - 1];
    var st, mid, after := cell.states[a], before.states[a], Try(cfg, before, last).states[a];
    assert BidOutcome(cfg, st, a, prefix, mid);
    assert forall t | t in ts :: t in prefix || t == last;
    if st.revealedValue.None? && last.bidder == a && Opens(cfg, st, last) {
      forall t | t in ts && t.bidder == a && Opens(cfg, st, t)
        ensures after == Recorded(st, t.value, t.nonce)
      {
        OneOpening(cfg, st, ts, t, last);
        if mid != st {
          var u :| u in prefix && u.bidder == a && Opens(cfg, st, u);
          assert u in ts;
          OneOpening(cfg, st, ts, u, last);
        }
      }
    }
  }

  lemma {:induction false} TryAllOutcome(cfg: Config, cell: Cell, ts: seq<Attempt>)
    requires InWindow(cell, ts) && CollisionFree(cfg, ts)
    ensures Outcome(cfg, cell, ts, TryAll(cfg, cell, ts))
  {
    if ts != [] {
      var prefix, last := ts[..|ts| - 1], ts[|ts| - 1];
      assert forall t | t in prefix :: t in ts;
      TryAllOutcome(cfg, cell, prefix);
      var before := TryAll(cfg, cell, prefix);
      forall a | a in cell.states
        ensures BidOutcome(cfg, cell.states[a], a, ts, Try(cfg, before, last).states[a])
      {
        OutcomeStep(cfg, cell, ts, before, a);
      }
    }
  }

  predicate SameOpening(t: Attempt, u: Attempt) {
    t.bidder == u.bidder && t.value == u.value && t.nonce == u.nonce
  }

  /** Every opening in `us` was also submitted in `ts`, whenever and however often. */
  ghost predicate Covers(ts: seq<Attempt>, us: seq<Attempt>) {
    forall u | u in us :: exists t :: t in ts && SameOpening(t, u)
  }

  lemma OpenedTheSame(cfg: Config, st: BidState, a: Address, ts: seq<Attempt>, us: seq<Attempt>,
                      x: BidState, y: BidState, t: Attempt)
    requires t in ts && t.bidder == a && Opens(cfg, st, t) && Covers(us, ts)
    requires BidOutcome(cfg, st, a, ts, x) && BidOutcome(cfg, st, a, us, y)
    ensures x == y
  {
    var u :| u in us && SameOpening(u, t);
    assert Opens(cfg, st, u);
  }

  lemma NeverOpened(cfg: Config, st: BidState, a: Address, ts: seq<Attempt>, us: seq<Attempt>)
    requires Covers(ts, us)
    requires forall t | t in ts && t.bidder == a :: !Opens(cfg, st, t)
    ensures forall u | u in us && u.bidder == a :: !Opens(cfg, st, u)
  {
  }

  lemma BidOutcomeUnique(cfg: Config, st: BidState, a: Address, ts: seq<Attempt>, us: seq<Attempt>,
                         x: BidState, y: BidState)
    requires Covers(ts, us) && Covers(us, ts)
    requires BidOutcome(cfg, st, a, ts, x) && BidOutcome(cfg, st, a, us, y)
    ensures x == y
  {
    if t :| t in ts && t.bidder == a && Opens(cfg, st, t) {
      OpenedTheSame(cfg, st, a, ts, us, x, y, t);
    } else {
      NeverOpened(cfg, st, a, ts, us);
    }
  }

  /** Confluence: two lists with the same openings, in any order and with any repetitions,
      leave the same round behind, so `clear` then decides and pays the same. */
  lemma RevealsConfluent(cfg: Config, cell: Cell, ts: seq<Attempt>, us: seq<Attempt>)
    requires InWindow(cell, ts) && InWindow(cell, us)
    requires CollisionFree(cfg, ts) && CollisionFree(cfg, us)
    requires Covers(ts, us) && Covers(us, ts)
    ensures TryAll(cfg, cell, ts) == TryAll(cfg, cell, us)
    ensures forall now, balances :: ClearBooks(cfg, now, Books(TryAll(cfg, cell, ts), balances))
                                    == ClearBooks(cfg, now, Books(TryAll(cfg, cell, us), balances))
  {
    var x, y := TryAll(cfg, cell, ts), TryAll(cfg, cell, us);
    TryAllOutcome(cfg, cell, ts);
    TryAllOutcome(cfg, cell, us);
    forall a | a in cell.states
      ensures x.states[a] == y.states[a]
    {
      BidOutcomeUnique(cfg, cell.states[a], a, ts, us, x.states[a], y.states[a]);
    }
    assert x.states == y.states;
  }

  lemma PermutationCovers(ts: seq<Attempt>, us: seq<Attempt>)
    requires multiset(ts) == multiset(us)
    ensures Covers(ts, us)
    ensures forall t :: t in us ==> t in ts
  {
    forall u | u in us
      ensures u in ts && SameOpening(u, u)
    {
      assert u in multiset(us);
    }
  }

  /** In particular any permutation of the attempts. */
  lemma PermutedReveals(cfg: Config, cell: Cell, ts: seq<Attempt>, us: seq<Attempt>)
    requires InWindow(cell, ts) && CollisionFree(cfg, ts) && multiset(ts) == multiset(us)
    ensures TryAll(cfg, cell, us) == TryAll(cfg, cell, ts)
  {
    PermutationCovers(ts, us);
    PermutationCovers(us, ts);
    RevealsConfluent(cfg, cell, ts, us);
  }

  // ---- The same for runs ----

  /** The attempts as calls: wait until each is due, then submit it. */
  function Schedule(now: U64, rid: U64, ts: seq<Attempt>): seq<Call> {
    if ts == [] then []
    else
      var before := if |ts| == 1 then now else ts[|ts| - 2].at;
      var t := ts[|ts| - 1];
      Schedule(now, rid, ts[..|ts| - 1])
      + [Advance(if before < t.at then t.at - before else 0), Reveal(rid, t.bidder, t.value, t.nonce)]
  }

  ghost predicate InTime(now: U64, ts: seq<Attempt>) {
    && (ts != [] ==> now <= ts[0].at)
    && forall i, j | 0 <= i < j < |ts| :: ts[i].at <= ts[j].at
  }

  lemma ScheduleStep(cfg: Config, s: State, rid: U64, seconds: nat, t: Attempt)
    requires rid in s.cells && s.now + seconds == t.at
    ensures Exec(cfg, s, [Advance(seconds), Reveal(rid, t.bidder, t.value, t.nonce)])
            == s.(now := t.at, cells := s.cells[rid := Try(cfg, s.cells[rid], t)])
  {
    var a, b := Advance(seconds), Reveal(rid, t.bidder, t.value, t.nonce);
    assert [a, b][1..] == [b] && [b][1..] == [];
    assert Next(cfg, s, a) == s.(now := t.at);
    RevealIsTry(cfg, s.(now := t.at), rid, t);
    hide Next;
    assert Exec(cfg, s, [a, b]) == Exec(cfg, Next(cfg, s, a), [b]);
  }

  lemma PutTwice(cells: map<U64, Cell>, rid: U64, cell: Cell, after: Cell)
    ensures cells[rid := cell][rid := after] == cells[rid := after]
  {
  }

  lemma LastAttempt(cfg: Config, s: State, rid: U64, first: seq<Call>, last: seq<Call>, t: Attempt, seconds: nat,
                    before: U64, cell: Cell)
    requires rid in s.cells && before + seconds == t.at
    requires Exec(cfg, s, first) == s.(now := before, cells := s.cells[rid := cell])
    requires last == [Advance(seconds), Reveal(rid, t.bidder, t.value, t.nonce)]
    ensures Exec(cfg, s, first + last) == s.(now := t.at, cells := s.cells[rid := Try(cfg, cell, t)])
  {
    hide Exec, Try, TryAll, Next;
    var mid, after := s.(now := before, cells := s.cells[rid := cell]), Try(cfg, cell, t);
    ExecAppend(cfg, s, first, last);
    assert mid.cells[rid] == cell;
    ScheduleStep(cfg, mid, rid, seconds, t);
    PutTwice(s.cells, rid, cell, after);
  }

  /** Submitting the attempts one by one, at their times, does to the round what `TryAll` says
      and touches nothing else. */
  lemma {:induction false} RunIsTryAll(cfg: Config, s: State, rid: U64, ts: seq<Attempt>)
    requires rid in s.cells && InTime(s.now, ts)
    ensures Exec(cfg, s, Schedule(s.now, rid, ts))
            == s.(now := if ts == [] then s.now else ts[|ts| - 1].at,
                  cells := s.cells[rid := TryAll(cfg, s.cells[rid], ts)])
  {
    if ts == [] {
      assert s.cells[rid := s.cells[rid]] == s.cells;
    } else {
      var prefix, t := ts[..|ts| - 1], ts[|ts| - 1];
      var first := Schedule(s.now, rid, prefix);
      RunIsTryAll(cfg, s, rid, prefix);
      var before := if |ts| == 1 then s.now else ts[|ts| - 2].at;
      var last := [Advance(t.at - before), Reveal(rid, t.bidder, t.value, t.nonce)];
      assert Schedule(s.now, rid, ts) == first + last;
      assert TryAll(cfg, s.cells[rid], ts) == Try(cfg, TryAll(cfg, s.cells[rid], prefix), t);
      LastAttempt(cfg, s, rid, first, last, t, t.at - before, before, TryAll(cfg, s.cells[rid], prefix));
    }
  }

  /** Confluence of runs: two schedules of the same openings lead to states that differ at most
      in the time of the last attempt. */
  lemma RunsConfluent(cfg: Config, s: State, rid: U64, ts: seq<Attempt>, us: seq<Attempt>)
    requires rid in s.cells && InTime(s.now, ts) && InTime(s.now, us)
    requires InWindow(s.cells[rid], ts) && InWindow(s.cells[rid], us)
    requires CollisionFree(cfg, ts) && CollisionFree(cfg, us)
    requires Covers(ts, us) && Covers(us, ts)
    ensures var x, y := Exec(cfg, s, Schedule(s.now, rid, ts)), Exec(cfg, s, Schedule(s.now, rid, us));
            x == y.(now := x.now)
  {
    RunIsTryAll(cfg, s, rid, ts);
    RunIsTryAll(cfg, s, rid, us);
    RevealsConfluent(cfg, s.cells[rid], ts, us);
  }
}

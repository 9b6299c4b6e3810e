/** Whether a round can still end at all: for every status, when some continuation of calls
    leaves it Settled or Voided with nothing of it in the contract
    (`contracts/round/src/lib.rs:212-416`). */
module RoundEnd {
  import opened Common
  import opened RoundTypes
  import opened RoundSpec
  import opened Accounts
  import opened RoundInvariant
  import opened RoundRuns
  import opened RoundProgress
  import opened SampleRuns
  import opened KeeperSpec
  import opened Keeper

  /** Some signature opens the round. */
  ghost predicate Openable(cfg: Config, r: Round) { exists signature :: cfg.verifies(r.revealRound, signature) }

  ghost predicate Endable(cfg: Config, r: Round) {
    match r.status
    case Open => r.revealDeadline + VOID_GRACE < U64_MAX || (Openable(cfg, r) && r.revealDeadline < U64_MAX)
    case Revealing => r.revealDeadline < U64_MAX
    case _ => true
  }

  // ---- A way to the end ----

  lemma EndCleared(cfg: Config, s: State, rid: U64) returns (calls: seq<Call>)
    requires StateOk(cfg, s) && rid in s.cells
    requires s.cells[rid].round.status != Open && s.cells[rid].round.status != Revealing
    ensures Finished(Exec(cfg, s, calls), rid)
  {
    hide StateOk, Apply, Finished;
    if s.cells[rid].round.status == Cleared {
      calls := [Settle(rid)];
      SettleAlwaysOpen(cfg, s, rid);
      SettleEnds(cfg, s, rid);
      assert calls[1..] == [];
      assert Exec(cfg, s, calls) == Next(cfg, s, Settle(rid));
    } else {
      calls := [];
      EndedHoldsNothing(cfg, s, rid);
    }
  }

  lemma EndRevealing(cfg: Config, s: State, rid: U64) returns (calls: seq<Call>)
    requires StateOk(cfg, s) && rid in s.cells
    requires s.cells[rid].round.status == Revealing && s.cells[rid].round.revealDeadline < U64_MAX
    ensures Finished(Exec(cfg, s, calls), rid)
  {
    var deadline := s.cells[rid].round.revealDeadline;
    var wait := if s.now <= deadline then deadline + 1 - s.now else 0;
    var at := s.(now := s.now + wait);
    assert Next(cfg, s, Advance(wait)) == at;
    hide StateOk, Apply, Finished, Grows, Next;
    TimePasses(cfg, s, wait);
    ClearLands(cfg, at, rid);
    ClearEnds(cfg, at, rid);
    StepKeeps(cfg, at, Clear(rid));
    NextOk(cfg, at, Clear(rid));
    var t := Apply(cfg, at, Clear(rid)).value;
    var first := [Advance(wait), Clear(rid)];
    ExecTwo(cfg, s, Advance(wait), Clear(rid));
    var rest: seq<Call> := [];
    if t.cells[rid].round.status == Cleared {
      rest := EndCleared(cfg, t, rid);
    }
    ExecAppend(cfg, s, first, rest);
    calls := first + rest;
  }

  lemma NextOk(cfg: Config, s: State, c: Call)
    requires Apply(cfg, s, c).Ok?
    ensures Next(cfg, s, c) == Apply(cfg, s, c).value
  {
  }

  /** Wait out the commit window and open the round. */
  lemma OpenIt(cfg: Config, s: State, rid: U64, signature: Bytes) returns (calls: seq<Call>)
    requires StateOk(cfg, s) && rid in s.cells && s.cells[rid].round.status == Open
    requires cfg.verifies(s.cells[rid].round.revealRound, signature)
    ensures var t := Exec(cfg, s, calls);
            && StateOk(cfg, t) && rid in t.cells && t.cells[rid].round.status == Revealing
            && t.cells[rid].round.revealDeadline == s.cells[rid].round.revealDeadline
  {
    RoundTiming(cfg, s, rid);
    hide StateOk, Exec, CommitBooks, RevealBooks, ClearBooks, SettleBooks, VoidBooks, CreateCheck;
    var r := s.cells[rid].round;
    var wait := if s.now <= r.commitDeadline then r.commitDeadline + 1 - s.now else 0;
    calls := [Advance(wait), OpenReveal(rid, signature)];
    RunKeeps(cfg, s, calls);
    ExecTwo(cfg, s, Advance(wait), OpenReveal(rid, signature));
    assert Next(cfg, s, Advance(wait)) == s.(now := s.now + wait);
  }

  lemma EndOpen(cfg: Config, s: State, rid: U64) returns (calls: seq<Call>)
    requires StateOk(cfg, s) && rid in s.cells && s.cells[rid].round.status == Open && Endable(cfg, s.cells[rid].round)
    ensures Finished(Exec(cfg, s, calls), rid)
  {
    hide StateOk, Apply, Finished, Next, Exec;
    var first, rest;
    if s.cells[rid].round.revealDeadline + VOID_GRACE < U64_MAX {
      first := WaitThenVoid(cfg, s, rid);
      var at := Exec(cfg, s, first);
      RunKeeps(cfg, s, first);
      VoidEnds(cfg, at, rid);
      NextOk(cfg, at, Void(rid));
      rest := [Void(rid)];
      ExecOne(cfg, at, Void(rid));
    } else {
      var signature :| cfg.verifies(s.cells[rid].round.revealRound, signature);
      first := OpenIt(cfg, s, rid, signature);
      rest := EndRevealing(cfg, Exec(cfg, s, first), rid);
    }
    ExecAppend(cfg, s, first, rest);
    calls := first + rest;
  }

  lemma ExecOne(cfg: Config, s: State, c: Call)
    ensures Exec(cfg, s, [c]) == Next(cfg, s, c)
  {
    assert [c][1..] == [];
  }

  // ---- No way to the end ----

  /** Nothing that can be called ends such a round. */
  ghost predicate Stuck(cfg: Config, r: Round) {
    && r.revealDeadline + VOID_GRACE >= U64_MAX
    && ((r.status == Open && !Openable(cfg, r))
        || (r.revealDeadline == U64_MAX && (r.status == Open || r.status == Revealing)))
  }

  lemma StuckCall(cfg: Config, now: U64, b: Books, c: Call, b': Books)
    requires OnRound(c) && RoundCall(cfg, now, b, c) == Ok(b') && Stuck(cfg, b.cell.round)
    ensures Stuck(cfg, b'.cell.round)
  {
  }

  lemma {:induction false} StaysStuck(cfg: Config, s: State, calls: seq<Call>, rid: U64)
    requires StateOk(cfg, s) && rid in s.cells && Stuck(cfg, s.cells[rid].round)
    ensures var t := Exec(cfg, s, calls);
            rid in t.cells && Stuck(cfg, t.cells[rid].round)
    decreases |calls|
  {
    hide StateOk, Stuck, RoundCall, CreateCheck;
    if calls != [] {
      var c := calls[0];
      var t := Next(cfg, s, c);
      NewNumber(cfg, s, rid);
      if OnRound(c) && c.rid == rid && Apply(cfg, s, c).Ok? {
        StuckCall(cfg, s.now, BooksOf(s, rid), c, BooksOf(t, rid));
      }
      StepKeeps(cfg, s, c);
      StaysStuck(cfg, t, calls[1..], rid);
    }
  }

  lemma StuckIsLive(cfg: Config, r: Round)
    ensures Stuck(cfg, r) ==> !Final(r.status)
    ensures Stuck(cfg, r) <==> !Endable(cfg, r)
  {
  }

  /** A round can still end, by some continuation of calls, if and only if it is decided; or
      Revealing with a deadline below the largest ledger time; or Open, and either its deadline
      with the grace period is below that, or it can be opened and its deadline is. */
  lemma EndPossible(cfg: Config, s: State, rid: U64)
    requires StateOk(cfg, s) && rid in s.cells
    ensures (exists calls :: Finished(Exec(cfg, s, calls), rid)) <==> Endable(cfg, s.cells[rid].round)
  {
    StuckIsLive(cfg, s.cells[rid].round);
    if Endable(cfg, s.cells[rid].round) {
      var calls;
      if s.cells[rid].round.status == Open {
        calls := EndOpen(cfg, s, rid);
      } else if s.cells[rid].round.status == Revealing {
        calls := EndRevealing(cfg, s, rid);
      } else {
        calls := EndCleared(cfg, s, rid);
      }
    } else {
      hide StateOk, Exec, Stuck;
      forall calls: seq<Call>
        ensures !Finished(Exec(cfg, s, calls), rid)
      {
        StaysStuck(cfg, s, calls, rid);
        StuckIsLive(cfg, Exec(cfg, s, calls).cells[rid].round);
      }
    }
  }

  // ---- Escrow locked for good ----

  lemma SameHeld(cfg: Config, c: Cell, d: Cell)
    requires CellOk(cfg, c) && CellOk(cfg, d) && Later(c, d)
    requires c.round.status != Open && !Final(c.round.status) && !Final(d.round.status)
    ensures Held(d) == Held(c)
  {
    forall a | a in c.round.bidders
      ensures Locked(c.states, a) == Locked(d.states, a)
    {
      assert SameBid(c.states[a], d.states[a]);
      assert BidOk(cfg, c.round.status, c.states[a]) && BidOk(cfg, d.round.status, d.states[a]);
    }
    HeldFrame(c.states, d.states, c.round.bidders);
  }

  /** A Revealing round whose deadline is the largest ledger time stays so, with all its escrow. */
  lemma LockedForGood(cfg: Config, s: State, calls: seq<Call>, rid: U64)
    requires StateOk(cfg, s) && rid in s.cells
    requires s.cells[rid].round.status == Revealing && s.cells[rid].round.revealDeadline == U64_MAX
    ensures var t := Exec(cfg, s, calls);
            rid in t.cells && t.cells[rid].round.status == Revealing && Held(t.cells[rid]) == Held(s.cells[rid])
  {
    hide Exec;
    StaysStuck(cfg, s, calls, rid);
    RunKeeps(cfg, s, calls);
    RunGrows(cfg, s, calls);
    SameHeld(cfg, s.cells[rid], Exec(cfg, s, calls).cells[rid]);
  }

  lemma StartsInOrder(cfg: Config)
    ensures StateOk(cfg, Deployed(cfg, FUNDS))
  {
    RunKeeps(cfg, Deployed(cfg, FUNDS), []);
  }

  lemma OneBidHeld(cell: Cell)
    requires cell.round.bidders == [BIDDER] && cell.states == map[BIDDER := FreshBid(Bid([8]))]
    ensures Held(cell) == 50
  {
    var bidders := cell.round.bidders;
    assert bidders[..|bidders| - 1] == [] && bidders[|bidders| - 1] == BIDDER;
    assert HeldBy(cell.states, []) == 0;
    assert Locked(cell.states, BIDDER) == 50;
  }

  /** Such rounds exist: in this run from deployment a bid of 50 is opened, and no continuation
      ever pays it back or out. */
  lemma EscrowLockedForGood(cfg: Config, signature: Bytes, calls: seq<Call>)
    requires Sample(cfg) && cfg.verifies(10, signature)
    ensures var s := Exec(cfg, Deployed(cfg, FUNDS), OpenedRun(U64_MAX, signature));
            var t := Exec(cfg, s, calls);
            1 in t.cells && t.cells[1].round.status == Revealing && Held(t.cells[1]) == 50
  {
    hide Exec, StateOk, Held, OpenedRun;
    OpenedRound(cfg, U64_MAX, signature);
    StartsInOrder(cfg);
    RunKeeps(cfg, Deployed(cfg, FUNDS), OpenedRun(U64_MAX, signature));
    var s := Exec(cfg, Deployed(cfg, FUNDS), OpenedRun(U64_MAX, signature));
    OneBidHeld(s.cells[1]);
    LockedForGood(cfg, s, calls, 1);
  }
}

/** The round contract as the object it is: entry points that read storage, loop over the
    bidder index, move tokens and write storage back (`contracts/round/src/lib.rs`).  Each
    is proved to do exactly what `RoundSpec` says, and to leave everything as it was when
    it refuses. */
module RoundContract {
  import opened Common
  import opened Token
  import opened RoundTypes
  import opened RoundSpec
  import opened RoundRuns
  import Commitment

  function Refusal<T>(r: Result<T, Error>): Option<Error> { if r.Ok? then None else Some(r.error) }

  class Contract {
    const cfg: Config
    const usdc: Ledger
    var counter: U64
    var cells: map<U64, Cell>
    ghost var donated: nat

    ghost function View(now: U64): State
      reads this, usdc
    {
      State(now, counter, cells, usdc.balances, donated)
    }

    ghost predicate Valid()
      reads this, usdc
    {
      StateOk(cfg, View(0))
    }

    constructor (cfg: Config, usdc: Ledger)
      ensures this.cfg == cfg && this.usdc == usdc
      ensures Valid() && View(0) == Deployed(cfg, usdc.balances)
    {
      this.cfg := cfg;
      this.usdc := usdc;
      counter := 0;
      cells := map[];
      donated := Bal(usdc.balances, cfg.self);
    }

    /** The call did what the specification says: everything on success, nothing on refusal. */
    ghost predicate Did(now: U64, before: State, c: Call, error: Option<Error>)
      reads this, usdc
    {
      Apply(cfg, before, c) == if error.None? then Ok(View(now)) else Err(error.value)
    }

    ghost predicate Untouched(now: U64, before: State, error: Option<Error>)
      reads this, usdc
    {
      error.Some? ==> View(now) == before
    }

    /** Whatever entry point was called, the object invariant is back in force. */
    lemma StaysValid(now: U64, before: State, c: Call)
      requires StateOk(cfg, before) && (Apply(cfg, before, c) == Ok(View(now)) || View(now) == before)
      ensures Valid()
    {
      StepKeeps(cfg, before, c);
    }

    /** A transfer the contract asks the token for, on behalf of round `rid`. */
    method Transfer(rid: U64, from: Address, to: Address, amount: nat) returns (ok: bool)
      requires rid in cells
      modifies this`cells, usdc
      ensures ok <==> amount <= Bal(old(usdc.balances), from)
      ensures ok ==> rid in cells && cells == old(cells)[rid := cells[rid]]
                     && Pay(old(Books(cells[rid], usdc.balances)), from, to, amount)
                        == Some(Books(cells[rid], usdc.balances))
      ensures !ok ==> cells == old(cells) && usdc.balances == old(usdc.balances)
    {
      ok := usdc.Transfer(from, to, amount);
      if ok {
        var cell := cells[rid];
        cells := cells[rid := cell.(moves := cell.moves + [Move(from, to, amount)])];
      }
    }

    method CreateRound(now: U64, operator: Address, itemRef: Bytes32, revealRound: U64, rule: ClearingRule,
                       commitDeadline: U64, revealDeadline: U64, auditorPubkey: Bytes)
      returns (r: Result<U64, Error>)
      modifies this`counter, this`cells
      ensures var c := RoundTypes.CreateRound(operator, itemRef, revealRound, rule, commitDeadline, revealDeadline,
                                              auditorPubkey);
              && Did(now, old(View(now)), c, Refusal(r))
              && Untouched(now, old(View(now)), Refusal(r))
              && (r.Ok? ==> r.value == counter)
    {
      if operator == cfg.self { return Err(Trap); }
      if revealRound == 0 { return Err(InvalidAmount); }
      if |auditorPubkey| > MAX_AUDITOR_PUBKEY { return Err(PayloadTooLarge); }
      var tReveal := TimeOfRound(cfg, revealRound);
      if commitDeadline >= tReveal { return Err(CommitDeadlineAfterReveal); }
      if revealDeadline <= tReveal { return Err(CommitDeadlineAfterReveal); }
      if commitDeadline <= now { return Err(DeadlineInPast); }
      if counter == U64_MAX { return Err(Trap); }
      counter := counter + 1;
      var round := Round(operator, itemRef, revealRound, rule, commitDeadline, revealDeadline, auditorPubkey,
                         Open, [], None, 0);
      cells := cells[counter := Cell(round, map[], map[], [])];
      r := Ok(counter);
    }

    /** The token side of a commit: a previous escrow goes back, then the new one is locked.
        When either transfer is refused the call traps and the host discards both. */
    method Relock(rid: U64, bidder: Address, escrow: nat) returns (ok: bool)
      requires rid in cells
      modifies this`cells, usdc
      ensures var refunded := Refunded(cfg, old(Books(cells[rid], usdc.balances)), bidder);
              var locked := if refunded.None? then None else Pay(refunded.value, bidder, cfg.self, escrow);
              && (ok ==> rid in cells && cells == old(cells)[rid := cells[rid]]
                         && locked == Some(Books(cells[rid], usdc.balances)))
              && (!ok ==> locked.None? && cells == old(cells) && usdc.balances == old(usdc.balances))
    {
      var savedCells, savedBalances := cells, usdc.balances;
      if bidder in cells[rid].states {
        var prev := cells[rid].states[bidder];
        if prev.escrow > 0 {
          ok := Transfer(rid, cfg.self, bidder, prev.escrow);
          if !ok { return; }
        }
      }
      ok := Transfer(rid, bidder, cfg.self, escrow);
      if !ok {
        cells, usdc.balances := savedCells, savedBalances;
      }
    }

    method Commit(now: U64, rid: U64, bidder: Address, commitment: Bytes32, ciphertext: Bytes, escrow: I128,
                  auditorBlob: Bytes)
      returns (r: Result<(), Error>)
      modifies this`cells, usdc
      ensures Did(now, old(View(now)),
                  RoundTypes.Commit(rid, bidder, commitment, ciphertext, escrow, auditorBlob), Refusal(r))
      ensures Untouched(now, old(View(now)), Refusal(r))
    {
      if bidder == cfg.self { return Err(Trap); }
      if rid !in cells { return Err(RoundNotFound); }
      var round := cells[rid].round;
      if round.status != Open { return Err(WrongStatus); }
      if now > round.commitDeadline { return Err(CommitClosed); }
      if escrow <= 0 { return Err(InvalidAmount); }
      if |ciphertext| > MAX_CIPHERTEXT || |auditorBlob| > MAX_AUDITOR_BLOB { return Err(PayloadTooLarge); }

      if bidder !in cells[rid].states {
        if |round.bidders| >= MAX_BIDDERS { return Err(RoundFull); }
        round := round.(bidders := round.bidders + [bidder]);
      }
      var locked := Relock(rid, bidder, escrow);
      if !locked { return Err(Trap); }
      var cell := cells[rid];
      var state := BidState(commitment, escrow, None, None, false, false);
      cells := cells[rid := cell.(round := round, states := cell.states[bidder := state],
                                  seals := cell.seals[bidder := Seal(ciphertext, auditorBlob)])];
      assert cells == old(cells)[rid := cells[rid]];
      r := Ok(());
    }

    method OpenReveal(now: U64, rid: U64, signature: Bytes) returns (r: Result<(), Error>)
      modifies this`cells
      ensures Did(now, old(View(now)), RoundTypes.OpenReveal(rid, signature), Refusal(r))
      ensures Untouched(now, old(View(now)), Refusal(r))
    {
      if rid !in cells { return Err(RoundNotFound); }
      var round := cells[rid].round;
      if round.status != Open { return Err(RevealAlreadyOpen); }
      if now <= round.commitDeadline { return Err(CommitNotClosed); }
      if !cfg.verifies(round.revealRound, signature) { return Err(InvalidDrandSignature); }
      cells := cells[rid := cells[rid].(round := round.(status := Revealing))];
      r := Ok(());
    }

    method Reveal(now: U64, rid: U64, bidder: Address, value: I128, nonce: Bytes32) returns (r: Result<(), Error>)
      modifies this`cells
      ensures Did(now, old(View(now)), RoundTypes.Reveal(rid, bidder, value, nonce), Refusal(r))
      ensures Untouched(now, old(View(now)), Refusal(r))
    {
      if rid !in cells { return Err(RoundNotFound); }
      var cell := cells[rid];
      if cell.round.status != Revealing { return Err(RevealNotOpen); }
      if now > cell.round.revealDeadline { return Err(RevealWindowClosed); }
      if bidder !in cell.states { return Err(BidNotFound); }
      var state := cell.states[bidder];
      if state.revealedValue.Some? { return Err(AlreadyRevealed); }
      if cfg.sha256(Commitment.Encode(value, nonce)) != state.commitment { return Err(HashMismatch); }
      state := state.(revealedValue := Some(value), revealedNonce := Some(nonce));
      state := state.(valid := value > 0 && value <= state.escrow);
      cells := cells[rid := cell.(states := cell.states[bidder := state])];
      r := Ok(());
    }

    /** Give back everything a round just marked Voided has locked; a refused
        transfer aborts the call. */
    method RefundAll(rid: U64) returns (ok: bool)
      requires rid in cells
      modifies this`cells, usdc
      ensures rid in cells && cells == old(cells)[rid := cells[rid]] && cells[rid].round == old(cells[rid].round)
      ensures RefundFirst(cfg, old(Books(cells[rid], usdc.balances)), old(cells[rid].round.bidders))
              == if ok then Some(Books(cells[rid], usdc.balances)) else None
    {
      hide RefundOne;
      ghost var b0 := Books(cells[rid], usdc.balances);
      var bidders := cells[rid].round.bidders;
      for i := 0 to |bidders|
        invariant rid in cells && cells == old(cells)[rid := cells[rid]] && cells[rid].round == old(cells[rid].round)
        invariant RefundFirst(cfg, b0, bidders[..i]) == Some(Books(cells[rid], usdc.balances))
      {
        assert bidders[..i + 1][..i] == bidders[..i];
        ok := RefundBidder(rid, bidders[i]);
        if !ok {
          RefundStops(cfg, b0, bidders, i + 1);
          return;
        }
      }
      assert bidders[..|bidders|] == bidders;
      ok := true;
    }

    static lemma {:induction false} RefundStops(cfg: Config, b: Books, bidders: seq<Address>, n: nat)
      requires n <= |bidders| && RefundFirst(cfg, b, bidders[..n]).None?
      ensures RefundFirst(cfg, b, bidders).None?
      decreases |bidders|
    {
      if n < |bidders| {
        assert bidders[..|bidders| - 1][..n] == bidders[..n];
        RefundStops(cfg, b, bidders[..|bidders| - 1], n);
      } else {
        assert bidders[..n] == bidders;
      }
    }

    /** The body of the refund loop for one bidder. */
    method RefundBidder(rid: U64, bidder: Address) returns (ok: bool)
      requires rid in cells
      modifies this`cells, usdc
      ensures rid in cells && cells == old(cells)[rid := cells[rid]] && cells[rid].round == old(cells[rid].round)
      ensures RefundOne(cfg, old(Books(cells[rid], usdc.balances)), bidder)
              == if ok then Some(Books(cells[rid], usdc.balances)) else None
    {
      ok := true;
      if bidder in cells[rid].states {
        var state := cells[rid].states[bidder];
        if !state.settled && state.escrow > 0 {
          ok := Transfer(rid, cfg.self, bidder, state.escrow);
          if !ok { return; }
          var cell := cells[rid];
          cells := cells[rid := cell.(states := cell.states[bidder := state.(settled := true)])];
        }
      }
    }

    /** The selection loop of `clear`. */
    method PickWinner(rid: U64) returns (winner: Option<Address>, best: int, found: bool)
      requires rid in cells
      ensures found <==> winner.Some?
      ensures Leader(cells[rid], |cells[rid].round.bidders|) == if found then Some((winner.value, best)) else None
    {
      winner, best, found := None, 0, false;
      var round := cells[rid].round;
      for i := 0 to |round.bidders|
        invariant found <==> winner.Some?
        invariant Leader(cells[rid], i) == if found then Some((winner.value, best)) else None
      {
        var bidder := round.bidders[i];
        if bidder !in cells[rid].states { continue; }
        var state := cells[rid].states[bidder];
        if !state.valid { continue; }
        if state.revealedValue.None? { continue; }
        var value := state.revealedValue.value;
        var better := !found || match round.rule { case HighestBid => value > best case LowestBid => value < best };
        if better {
          best, winner, found := value, Some(bidder), true;
        }
      }
    }

    method Clear(now: U64, rid: U64) returns (r: Result<Option<Address>, Error>)
      modifies this`cells, usdc
      ensures Did(now, old(View(now)), RoundTypes.Clear(rid), Refusal(r))
      ensures Untouched(now, old(View(now)), Refusal(r))
      ensures r.Ok? ==> rid in cells && cells[rid].round.status == if r.value.Some? then Cleared else Voided
      ensures r.Ok? && r.value.Some? ==> cells[rid].round.winner == r.value
    {
      if rid !in cells { return Err(RoundNotFound); }
      var round := cells[rid].round;
      if round.status != Revealing { return Err(RevealNotOpen); }
      if now <= round.revealDeadline { return Err(RevealStillOpen); }

      var winner, best, found := PickWinner(rid);
      if !found {
        var voided := VoidAndRefund(rid);
        if !voided { return Err(Trap); }
        return Ok(None);
      }
      round := round.(winner := winner, winningBid := best, status := Cleared);
      cells := cells[rid := cells[rid].(round := round)];
      r := Ok(winner);
    }

    /** Mark the round Voided and refund everybody, or - when a transfer is refused - let the
        host discard it all. */
    method VoidAndRefund(rid: U64) returns (ok: bool)
      requires rid in cells
      modifies this`cells, usdc
      ensures var after := RefundFirst(cfg, SetStatus(old(Books(cells[rid], usdc.balances)), Voided),
                                       old(cells[rid].round.bidders));
              && (ok <==> after.Some?)
              && (ok ==> rid in cells && cells == old(cells)[rid := cells[rid]]
                         && after == Some(Books(cells[rid], usdc.balances))
                         && cells[rid].round == old(cells[rid].round).(status := Voided))
              && (!ok ==> cells == old(cells) && usdc.balances == old(usdc.balances))
    {
      hide RefundFirst;
      var savedCells, savedBalances := cells, usdc.balances;
      cells := cells[rid := cells[rid].(round := cells[rid].round.(status := Voided))];
      ok := RefundAll(rid);
      if !ok { cells, usdc.balances := savedCells, savedBalances; }
    }

    method Settle(now: U64, rid: U64) returns (r: Result<(), Error>)
      modifies this`cells, usdc
      ensures Did(now, old(View(now)), RoundTypes.Settle(rid), Refusal(r))
      ensures Untouched(now, old(View(now)), Refusal(r))
    {
      hide SettleFirst;
      if rid !in cells { return Err(RoundNotFound); }
      var round := cells[rid].round;
      if round.status != Cleared { return Err(NotCleared); }
      if round.winner.None? { return Err(NoValidBids); }
      var winner := round.winner.value;
      var savedCells, savedBalances := cells, usdc.balances;
      var paid := PayEveryone(rid, winner);
      if !paid {
        cells, usdc.balances := savedCells, savedBalances;
        return Err(Trap);
      }
      cells := cells[rid := cells[rid].(round := round.(status := Settled))];
      assert cells == old(cells)[rid := cells[rid]];
      r := Ok(());
    }

    /** The settlement loop; a refused transfer aborts the call. */
    method PayEveryone(rid: U64, winner: Address) returns (ok: bool)
      requires rid in cells
      modifies this`cells, usdc
      ensures rid in cells && cells == old(cells)[rid := cells[rid]] && cells[rid].round == old(cells[rid].round)
      ensures SettleFirst(cfg, old(Books(cells[rid], usdc.balances)), old(cells[rid].round.bidders), winner)
              == if ok then Some(Books(cells[rid], usdc.balances)) else None
    {
      hide SettleOne;
      ghost var b0 := Books(cells[rid], usdc.balances);
      var bidders := cells[rid].round.bidders;
      for i := 0 to |bidders|
        invariant rid in cells && cells == old(cells)[rid := cells[rid]] && cells[rid].round == old(cells[rid].round)
        invariant SettleFirst(cfg, b0, bidders[..i], winner) == Some(Books(cells[rid], usdc.balances))
      {
        assert bidders[..i + 1][..i] == bidders[..i];
        ok := SettleBidder(rid, bidders[i], winner);
        if !ok {
          SettleStops(cfg, b0, bidders, i + 1, winner);
          return;
        }
      }
      assert bidders[..|bidders|] == bidders;
      ok := true;
    }

    static lemma {:induction false} SettleStops(cfg: Config, b: Books, bidders: seq<Address>, n: nat, winner: Address)
      requires n <= |bidders| && SettleFirst(cfg, b, bidders[..n], winner).None?
      ensures SettleFirst(cfg, b, bidders, winner).None?
      decreases |bidders|
    {
      if n < |bidders| {
        assert bidders[..|bidders| - 1][..n] == bidders[..n];
        SettleStops(cfg, b, bidders[..|bidders| - 1], n, winner);
      } else {
        assert bidders[..n] == bidders;
      }
    }

    /** The body of the settlement loop for one bidder. */
    method SettleBidder(rid: U64, bidder: Address, winner: Address) returns (ok: bool)
      requires rid in cells
      modifies this`cells, usdc
      ensures rid in cells && cells == old(cells)[rid := cells[rid]] && cells[rid].round == old(cells[rid].round)
      ensures SettleOne(cfg, old(Books(cells[rid], usdc.balances)), bidder, winner)
              == if ok then Some(Books(cells[rid], usdc.balances)) else None
    {
      if bidder !in cells[rid].states { return true; }
      var state := cells[rid].states[bidder];
      if state.settled { return true; }
      var round := cells[rid].round;
      if bidder == winner {
        if round.winningBid < 0 { return false; }
        ok := Transfer(rid, cfg.self, round.operator, round.winningBid);
        if !ok { return; }
        var surplus := state.escrow - round.winningBid;
        if surplus > 0 {
          ok := Transfer(rid, cfg.self, bidder, surplus);
          if !ok { return; }
        }
      } else if state.escrow > 0 {
        ok := Transfer(rid, cfg.self, bidder, state.escrow);
        if !ok { return; }
      }
      var cell := cells[rid];
      cells := cells[rid := cell.(states := cell.states[bidder := state.(settled := true)])];
      ok := true;
    }

    method Void(now: U64, rid: U64) returns (r: Result<(), Error>)
      modifies this`cells, usdc
      ensures Did(now, old(View(now)), RoundTypes.Void(rid), Refusal(r))
      ensures Untouched(now, old(View(now)), Refusal(r))
    {
      if rid !in cells { return Err(RoundNotFound); }
      var round := cells[rid].round;
      if round.status != Open { return Err(NotVoidable); }
      if round.revealDeadline + VOID_GRACE > U64_MAX { return Err(Trap); }  // overflow checks are on
      if now <= round.revealDeadline + VOID_GRACE { return Err(NotVoidable); }
      var voided := VoidAndRefund(rid);
      if !voided { return Err(Trap); }
      r := Ok(());
    }

    lemma IndexIsShort(rid: U64)
      requires Valid() && rid in cells
      ensures |cells[rid].round.bidders| <= MAX_BIDDERS
    {
      Covered(cfg, View(0), rid);
    }

    /** One page of the index.  In a valid contract `start + limit` stays far below 2^32. */
    method GetBiddersPage(rid: U64, cursor: nat, limit: nat) returns (r: Result<Page, Error>)
      ensures r == BiddersPage(View(0), rid, cursor, limit)
      ensures r.Ok? && Valid() ==>
                (if cursor < r.value.total then cursor else r.value.total) + limit <= MAX_BIDDERS + MAX_PAGE_SIZE
    {
      hide StateOk;
      if limit == 0 || limit > MAX_PAGE_SIZE { return Err(InvalidLimit); }
      if rid !in cells { return Err(RoundNotFound); }
      if Valid() { IndexIsShort(rid); }
      var bidders := cells[rid].round.bidders;
      var total := |bidders|;
      var start := if cursor < total then cursor else total;
      var end := if start + limit < total then start + limit else total;
      var data := [];
      for i := start to end
        invariant data == bidders[start..i]
      {
        data := data + [bidders[i]];
        assert bidders[start..i + 1] == bidders[start..i] + [bidders[i]];
      }
      r := Ok(Page(data, if end < total then end else 0, total));
    }
  }
}

/** The sealed-bid auction from end to end: what bidders seal is what the keeper's pass records
    (`services/keeper/src/keeper.ts:253-398`) and what `clear` decides on
    (`contracts/round/src/lib.rs:135-351`). */
module SealedAuction {
  import opened Common
  import opened RoundTypes
  import opened RoundSpec
  import opened Clearing
  import opened RoundInvariant
  import opened RoundRuns
  import opened RoundProgress
  import opened RoundCalls
  import opened Sdk
  import opened KeeperSpec
  import Commitment

  /** The seal of `a` is there and opens the bid's commitment to `value`. */
  ghost predicate SealedTo(cfg: Config, beacon: Beacon, cell: Cell, a: Address, value: I128, nonce: Bytes32) {
    && a in cell.states && Readable(beacon, cell, a) == Some((value, nonce))
    && cfg.sha256(Commitment.Encode(value, nonce)) == cell.states[a].commitment
  }

  /** A ciphertext opens to a bid exactly when it decrypts to the bytes that are hashed. */
  lemma OpensToPreimage(beacon: Beacon, ciphertext: Bytes, value: I128, nonce: Bytes32)
    ensures OpenBid(beacon, ciphertext) == Some((value, nonce)) <==>
              beacon.decrypt(ciphertext) == Some(Commitment.Encode(value, nonce))
  {
    Commitment.DecodeEncode(value, nonce);
    var plain := beacon.decrypt(ciphertext);
    if plain.Some? && |plain.value| == 48 { Commitment.EncodeDecode(plain.value); }
  }

  /** A fault-free pass that ends inside an open window, over a round found Open or Revealing. */
  ghost predicate PassDone(cfg: Config, beacon: Beacon, rid: U64, t: State, u: State, extra: seq<Call>,
                           clock: nat, clock': nat)
  {
    && rid in t.cells && Kept(cfg, beacon, rid, t, u, extra, clock, clock')
    && rid in u.cells && u.cells[rid].round.status == Revealing && u.now <= u.cells[rid].round.revealDeadline
  }

  lemma OpenedCellOk(cfg: Config, beacon: Beacon, cell: Cell)
    requires CellOk(cfg, cell) && (cell.round.status == Open || cell.round.status == Revealing)
    ensures CellOk(cfg, OpenedCell(cell))
    ensures SealsCollisionFree(cfg, beacon, cell) ==> SealsCollisionFree(cfg, beacon, OpenedCell(cell))
  {
  }

  /** Such a pass records every seal that opens its commitment, with the value in it. */
  lemma PassRecords(cfg: Config, beacon: Beacon, rid: U64, t: State, u: State, extra: seq<Call>,
                    clock: nat, clock': nat, a: Address, value: I128, nonce: Bytes32)
    requires StateOk(cfg, t) && PassDone(cfg, beacon, rid, t, u, extra, clock, clock')
    requires SealsCollisionFree(cfg, beacon, t.cells[rid]) && SealedTo(cfg, beacon, t.cells[rid], a, value, nonce)
    ensures a in u.cells[rid].states
    ensures u.cells[rid].states[a].revealedValue == Some(value) && u.cells[rid].states[a].revealedNonce == Some(nonce)
    ensures u.cells[rid].round == OpenedCell(t.cells[rid]).round
  {
    Covered(cfg, t, rid);
    KeptLeaves(cfg, beacon, rid, t, u, extra, clock, clock');
    assert t.cells[rid].round.status == Open || t.cells[rid].round.status == Revealing;
    hide StateOk, CellOk, Kept, SealsCollisionFree;
    OpenedCellOk(cfg, beacon, t.cells[rid]);
    PassRecordsSealedValues(cfg, beacon, OpenedCell(t.cells[rid]), a);
    PassKeepsIndex(cfg, beacon, OpenedCell(t.cells[rid]));
  }

  lemma RecordedCounts(cfg: Config, u: State, rid: U64, a: Address)
    requires StateOk(cfg, u) && rid in u.cells && a in u.cells[rid].states
    ensures var st := u.cells[rid].states[a];
            Candidate(u.cells[rid].states, a) <==> st.revealedValue.Some? && 0 < st.revealedValue.value <= st.escrow
  {
    Covered(cfg, u, rid);
    assert BidOk(cfg, u.cells[rid].round.status, u.cells[rid].states[a]);
  }

  /** From the commit to the record: unless it is overwritten or its seal expires first, a bid
      whose ciphertext opens its commitment is recorded with that value by any fault-free pass
      inside the window, and counts exactly if the value is positive and covered. */
  lemma CommittedBidIsRecorded(cfg: Config, beacon: Beacon, s: State, c: Call, calls: seq<Call>, u: State,
                               extra: seq<Call>, clock: nat, clock': nat, value: I128, nonce: Bytes32)
    requires StateOk(cfg, s) && c.Commit? && Apply(cfg, s, c).Ok?
    requires forall d | d in calls && d.Commit? && d.rid == c.rid :: d.bidder != c.bidder
    requires ExpireSeal(c.rid, c.bidder) !in calls
    requires OpenBid(beacon, c.ciphertext) == Some((value, nonce))
    requires cfg.sha256(Commitment.Encode(value, nonce)) == c.commitment
    requires var t := Exec(cfg, Apply(cfg, s, c).value, calls);
             && PassDone(cfg, beacon, c.rid, t, u, extra, clock, clock') && StateOk(cfg, u)
             && SealsCollisionFree(cfg, beacon, t.cells[c.rid])
    ensures c.bidder in u.cells[c.rid].states
    ensures u.cells[c.rid].states[c.bidder].revealedValue == Some(value)
    ensures u.cells[c.rid].states[c.bidder].revealedNonce == Some(nonce)
    ensures Candidate(u.cells[c.rid].states, c.bidder) <==> 0 < value <= c.escrow
  {
    hide StateOk, Exec, Apply, PassDone, SealsCollisionFree, Candidate, OpenBid;
    var t0 := Apply(cfg, s, c).value;
    var t := Exec(cfg, t0, calls);
    CommittedSealStands(cfg, s, c, calls);
    AcceptedStep(cfg, s, c);
    CommitStands(cfg, s, c);
    RunKeepsBid(cfg, t0, calls, c.rid, c.bidder, c.commitment, c.escrow);
    RunKeeps(cfg, t0, calls);
    PassRecords(cfg, beacon, c.rid, t, u, extra, clock, clock', c.bidder, value, nonce);
    RoundOpened(cfg, beacon, c.rid, t, u, extra, clock, clock');
    RecordedCounts(cfg, u, c.rid, c.bidder);
    PassKeepsEscrow(cfg, beacon, c.rid, t, u, extra, clock, clock', c.bidder);
  }

  lemma AcceptedStep(cfg: Config, s: State, c: Call)
    requires StateOk(cfg, s) && Apply(cfg, s, c).Ok?
    ensures StateOk(cfg, Apply(cfg, s, c).value)
  {
    StepKeeps(cfg, s, c);
  }

  lemma PassKeepsEscrow(cfg: Config, beacon: Beacon, rid: U64, t: State, u: State, extra: seq<Call>,
                        clock: nat, clock': nat, a: Address)
    requires PassDone(cfg, beacon, rid, t, u, extra, clock, clock') && a in t.cells[rid].states
    ensures a in u.cells[rid].states && u.cells[rid].states[a].escrow == t.cells[rid].states[a].escrow
  {
    KeptLeaves(cfg, beacon, rid, t, u, extra, clock, clock');
    hide Kept, Revealable, Readable;
  }

  /** The value sealed for `a` counts: positive, and covered by the escrow. */
  ghost predicate Counts(cell: Cell, values: map<Address, I128>, a: Address) {
    a in cell.round.bidders && a in cell.states && a in values && 0 < values[a] <= cell.states[a].escrow
  }

  /** Every bid of the round is sealed to the value listed for it. */
  ghost predicate AllSealed(cfg: Config, beacon: Beacon, cell: Cell, values: map<Address, I128>) {
    forall a | a in cell.round.bidders ::
      a in values && exists nonce :: SealedTo(cfg, beacon, cell, a, values[a], nonce)
  }

  lemma AllRecorded(cfg: Config, beacon: Beacon, rid: U64, t: State, u: State, extra: seq<Call>,
                    clock: nat, clock': nat, values: map<Address, I128>)
    requires StateOk(cfg, t) && StateOk(cfg, u) && PassDone(cfg, beacon, rid, t, u, extra, clock, clock')
    requires SealsCollisionFree(cfg, beacon, t.cells[rid]) && AllSealed(cfg, beacon, t.cells[rid], values)
    ensures u.cells[rid].round.bidders == t.cells[rid].round.bidders
    ensures u.cells[rid].round.rule == t.cells[rid].round.rule
    ensures forall a | a in t.cells[rid].round.bidders ::
              && a in values && a in u.cells[rid].states && u.cells[rid].states[a].revealedValue == Some(values[a])
              && (Candidate(u.cells[rid].states, a) <==> Counts(t.cells[rid], values, a))
  {
    hide StateOk, SealsCollisionFree, Candidate, SealedTo, PassDone;
    RoundOpened(cfg, beacon, rid, t, u, extra, clock, clock');
    forall a | a in t.cells[rid].round.bidders
      ensures a in values && a in u.cells[rid].states && u.cells[rid].states[a].revealedValue == Some(values[a])
      ensures Candidate(u.cells[rid].states, a) <==> Counts(t.cells[rid], values, a)
    {
      var nonce :| SealedTo(cfg, beacon, t.cells[rid], a, values[a], nonce);
      PassRecords(cfg, beacon, rid, t, u, extra, clock, clock', a, values[a], nonce);
      RecordedCounts(cfg, u, rid, a);
      SealedHasBid(cfg, beacon, t.cells[rid], a, values[a], nonce);
      PassKeepsEscrow(cfg, beacon, rid, t, u, extra, clock, clock', a);
    }
  }

  lemma SealedHasBid(cfg: Config, beacon: Beacon, cell: Cell, a: Address, value: I128, nonce: Bytes32)
    requires SealedTo(cfg, beacon, cell, a, value, nonce)
    ensures a in cell.states
  {
  }

  lemma RoundOpened(cfg: Config, beacon: Beacon, rid: U64, t: State, u: State, extra: seq<Call>,
                    clock: nat, clock': nat)
    requires PassDone(cfg, beacon, rid, t, u, extra, clock, clock')
    ensures rid in t.cells && rid in u.cells && u.cells[rid].round == OpenedCell(t.cells[rid]).round
    ensures u.cells[rid].round.status == Revealing
  {
    KeptLeaves(cfg, beacon, rid, t, u, extra, clock, clock');
    PassKeepsIndex(cfg, beacon, OpenedCell(t.cells[rid]));
  }

  /** Once every bid is revealed, nothing that is called changes who bid, how much and whether it
      counts. */
  lemma RevealedBidsFrozen(cfg: Config, u: State, calls: seq<Call>, rid: U64)
    requires StateOk(cfg, u) && rid in u.cells && u.cells[rid].round.status == Revealing
    requires forall a | a in u.cells[rid].round.bidders ::
               a in u.cells[rid].states && u.cells[rid].states[a].revealedValue.Some?
    ensures var w := Exec(cfg, u, calls);
            && StateOk(cfg, w) && rid in w.cells
            && var p, q := u.cells[rid], w.cells[rid];
               && q.round.bidders == p.round.bidders && q.round.rule == p.round.rule
               && forall a | a in p.round.bidders ::
                    && a in q.states && q.states[a].revealedValue == p.states[a].revealedValue
                    && (Candidate(q.states, a) <==> Candidate(p.states, a))
  {
    RunKeeps(cfg, u, calls);
    RunGrows(cfg, u, calls);
    hide StateOk, Exec;
    assert Later(u.cells[rid], Exec(cfg, u, calls).cells[rid]);
    assert BidsFrozen(u.cells[rid], Exec(cfg, u, calls).cells[rid]);
  }

  /** `winner` is the earliest in the index of those that count with the highest value - with the
      lowest, if the lowest bid wins. */
  ghost predicate BestSealed(cell: Cell, values: map<Address, I128>, winner: Address) {
    && Counts(cell, values, winner)
    && (forall a | Counts(cell, values, a) ::
          if cell.round.rule == HighestBid then values[a] <= values[winner] else values[a] >= values[winner])
    && forall i, j | 0 <= i < j < |cell.round.bidders| && cell.round.bidders[j] == winner
                     && Counts(cell, values, cell.round.bidders[i]) ::
         values[cell.round.bidders[i]] != values[winner]
  }

  lemma BestIsBestSealed(cell: Cell, after: Cell, values: map<Address, I128>, winner: Address, winningBid: int)
    requires after.round.bidders == cell.round.bidders && after.round.rule == cell.round.rule
    requires forall a | a in cell.round.bidders ::
               && a in values && a in after.states && after.states[a].revealedValue == Some(values[a])
               && (Candidate(after.states, a) <==> Counts(cell, values, a))
    requires Best(after, winner, winningBid)
    ensures BestSealed(cell, values, winner) && winningBid == values[winner]
  {
    hide Candidate;
    forall i, j | 0 <= i < j < |cell.round.bidders| && cell.round.bidders[j] == winner
                  && Counts(cell, values, cell.round.bidders[i])
      ensures values[cell.round.bidders[i]] != values[winner]
    {
      assert cell.round.bidders[i] in cell.round.bidders;
    }
  }

  /** The auction decides by what was sealed: after one fault-free pass over good seals, whatever
      anybody calls, clearing names the best of the sealed values that are positive and covered,
      or gives everything back exactly when there is none. */
  lemma AuctionDecides(cfg: Config, beacon: Beacon, rid: U64, t: State, u: State, extra: seq<Call>,
                       clock: nat, clock': nat, values: map<Address, I128>, calls: seq<Call>)
    requires StateOk(cfg, t) && StateOk(cfg, u) && PassDone(cfg, beacon, rid, t, u, extra, clock, clock')
    requires SealsCollisionFree(cfg, beacon, t.cells[rid]) && AllSealed(cfg, beacon, t.cells[rid], values)
    ensures var w := Exec(cfg, u, calls);
            var r := Apply(cfg, w, Clear(rid));
            r.Ok? ==>
              && rid in w.cells && rid in r.value.cells
              && var after := r.value.cells[rid].round;
                 if exists a :: Counts(t.cells[rid], values, a) then
                   && after.status == Cleared && after.winner.Some?
                   && BestSealed(t.cells[rid], values, after.winner.value)
                   && after.winningBid == values[after.winner.value]
                 else after.status == Voided && PaidBack(cfg, w, rid, r.value, Voided, None, 0)
  {
    hide StateOk, Apply, Exec, PassDone, AllSealed, SealsCollisionFree, Candidate, Counts, Best, BestSealed;
    AllRecorded(cfg, beacon, rid, t, u, extra, clock, clock', values);
    RoundOpened(cfg, beacon, rid, t, u, extra, clock, clock');
    RevealedBidsFrozen(cfg, u, calls, rid);
    var w := Exec(cfg, u, calls);
    ClearAnswers(cfg, w, rid);
    var r := Apply(cfg, w, Clear(rid));
    if r.Ok? {
      OnlyBiddersCount(t.cells[rid], values);
      var after := r.value.cells[rid].round;
      if a :| a in w.cells[rid].round.bidders && Candidate(w.cells[rid].states, a) {
        BestIsBestSealed(t.cells[rid], w.cells[rid], values, after.winner.value, after.winningBid);
      }
    }
  }

  lemma OnlyBiddersCount(cell: Cell, values: map<Address, I128>)
    ensures forall a | Counts(cell, values, a) :: a in cell.round.bidders
  {
  }
}

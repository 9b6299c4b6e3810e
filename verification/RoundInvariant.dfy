/** What holds of every round between any two calls, and the proof that each entry point
    keeps it. */
module RoundInvariant {
  import opened Common
  import opened Token
  import opened RoundTypes
  import opened RoundSpec
  import opened Accounts
  import opened Clearing
  import Commitment

  predicate Final(status: Status) { status == Settled || status == Voided }

  /** One bid: something is escrowed, a recorded reveal opens the commitment, `valid` says
      that the revealed value is positive and covered, and escrow leaves only at the end. */
  ghost predicate BidOk(cfg: Config, status: Status, st: BidState) {
    && 0 < st.escrow <= I128_MAX && |st.commitment| == 32
    && (st.revealedValue.Some? <==> st.revealedNonce.Some?)
    && (st.valid <==> st.revealedValue.Some? && 0 < st.revealedValue.value <= st.escrow)
    && (st.revealedValue.Some? ==>
          cfg.sha256(Commitment.Encode(st.revealedValue.value, st.revealedNonce.value)) == st.commitment)
    && (status == Open ==> st.revealedValue.None?)
    && (st.settled <==> Final(status))
  }

  ghost predicate OutcomeOk(cell: Cell) {
    var r := cell.round;
    && (r.status == Cleared || r.status == Settled ==>
          r.winner.Some? && IsWinner(cell, r.winner.value, r.winningBid))
    && (r.status != Cleared && r.status != Settled ==> r.winner.None? && r.winningBid == 0)
    && (r.status == Voided ==> NoCandidate(cell))
  }

  /** Commits close before the beacon of round R, which comes before the end of the reveal
      window - in exact arithmetic, although the contract computes with saturation. */
  ghost predicate TimingOk(cfg: Config, r: Round) {
    r.commitDeadline < ExactTime(cfg, r.revealRound) < r.revealDeadline
  }

  /** The price, once paid, as a net payment of `a`. */
  function Price(r: Round, a: Address): int {
    if r.status == Settled then
      (if r.winner == Some(a) then r.winningBid else 0) - (if r.operator == a then r.winningBid else 0)
    else 0
  }

  /** What `a` has paid into the round on balance: its locked escrow and its part in the price. */
  function Due(cfg: Config, cell: Cell, a: Address): int {
    if a == cfg.self then -Held(cell) else Locked(cell.states, a) + Price(cell.round, a)
  }

  ghost predicate AccountsOk(cfg: Config, cell: Cell) {
    forall a :: Net(cell.moves, a) == Due(cfg, cell, a)
  }

  ghost predicate IndexOk(cfg: Config, cell: Cell) {
    var bidders := cell.round.bidders;
    && Distinct(bidders) && |bidders| <= MAX_BIDDERS
    && (forall a | a in bidders :: a in cell.states)
    && (forall a | a in cell.states :: a in bidders)
    && (forall a | a in cell.seals :: a in cell.states)
    && cfg.self !in bidders && cfg.self != cell.round.operator
  }

  ghost predicate BidsOk(cfg: Config, cell: Cell) {
    forall a | a in cell.states :: BidOk(cfg, cell.round.status, cell.states[a])
  }

  ghost predicate CellOk(cfg: Config, cell: Cell) {
    && TimingOk(cfg, cell.round) && IndexOk(cfg, cell) && BidsOk(cfg, cell)
    && OutcomeOk(cell) && AccountsOk(cfg, cell)
  }

  // ---- Each entry point keeps it ----

  lemma CreateKeeps(cfg: Config, now: U64, c: Call)
    requires c.CreateRound? && CreateCheck(cfg, now, c).None?
    ensures CellOk(cfg, NewRound(c))
  {
  }

  lemma OpenKeeps(cfg: Config, now: U64, b: Books, signature: Bytes)
    requires CellOk(cfg, b.cell) && OpenBooks(cfg, now, b, signature).Ok?
    ensures CellOk(cfg, OpenBooks(cfg, now, b, signature).value.cell)
  {
  }

  lemma ExpireKeeps(cfg: Config, cell: Cell, bidder: Address)
    requires CellOk(cfg, cell)
    ensures CellOk(cfg, cell.(seals := cell.seals - {bidder}))
  {
    if cell.round.winner.Some? {
      SameWinner(cell, cell.(seals := cell.seals - {bidder}), cell.round.winner.value, cell.round.winningBid);
    }
  }

  lemma RevealKeeps(cfg: Config, now: U64, b: Books, bidder: Address, value: I128, nonce: Bytes32)
    requires CellOk(cfg, b.cell) && RevealBooks(cfg, now, b, bidder, value, nonce).Ok?
    ensures CellOk(cfg, RevealBooks(cfg, now, b, bidder, value, nonce).value.cell)
  {
    var st := Recorded(b.cell.states[bidder], value, nonce);
    HeldUpdate(b.cell.states, b.cell.round.bidders, bidder, st);
  }

  // ---- Payouts ----

  lemma MarkedAll(cfg: Config, cell: Cell, paid: Cell)
    requires IndexOk(cfg, cell)
    requires paid.states == Marked(cell.states, cell.round.bidders)
    requires paid.round.bidders == cell.round.bidders
    ensures Held(paid) == 0
  {
    AllSettled(paid.states, paid.round.bidders);
  }

  lemma {:induction false} AllSettled(s: map<Address, BidState>, bidders: seq<Address>)
    requires forall a | a in bidders :: a in s && s[a].settled
    ensures HeldBy(s, bidders) == 0
  {
    if bidders != [] { AllSettled(s, bidders[..|bidders| - 1]); }
  }

  /** A round that has not ended can always be paid out. */
  lemma PayoutReady(cfg: Config, b: Books, w: Address)
    requires CellOk(cfg, b.cell) && !Final(b.cell.round.status)
    requires Held(b.cell) <= Bal(b.balances, cfg.self)
    requires w == cfg.self || (b.cell.round.status == Cleared && b.cell.round.winner == Some(w))
    ensures Payable(cfg, b, w)
  {
    if w != cfg.self {
      var k: nat :| WinsAt(b.cell, |b.cell.round.bidders|, k) && b.cell.round.bidders[k] == w
                    && ValueAt(b.cell, w) == b.cell.round.winningBid;
    }
  }

  /** `after` is `cell` with everybody paid: escrow back, and the price from `w` to the operator. */
  ghost predicate PaidOut(cfg: Config, cell: Cell, after: Cell, status: Status, w: Address) {
    && after == cell.(round := cell.round.(status := status), moves := after.moves,
                      states := Marked(cell.states, cell.round.bidders))
    && Net(after.moves, cfg.self) == Net(cell.moves, cfg.self) + Held(cell)
    && forall a | a != cfg.self ::
         Net(after.moves, a) == Net(cell.moves, a) - Received(cell, cell.round.bidders, w, a)
  }

  lemma PaidOutAccounts(cfg: Config, cell: Cell, after: Cell, status: Status, w: Address)
    requires IndexOk(cfg, cell) && AccountsOk(cfg, cell) && BidsOk(cfg, cell) && !Final(cell.round.status)
    requires PaidOut(cfg, cell, after, status, w)
    requires status == Settled ==> cell.round.winner == Some(w) && w in cell.round.bidders
    requires status == Voided ==> w == cfg.self
    requires Final(status)
    ensures AccountsOk(cfg, after) && Held(after) == 0
  {
    MarkedAll(cfg, cell, after);
    forall a
      ensures Net(after.moves, a) == Due(cfg, after, a)
    {
      assert Net(cell.moves, a) == Due(cfg, cell, a);
      if a != cfg.self {
        assert Locked(after.states, a) == 0;
      }
    }
  }

  lemma PaidOutBids(cfg: Config, cell: Cell, after: Cell, status: Status, w: Address)
    requires IndexOk(cfg, cell) && BidsOk(cfg, cell) && !Final(cell.round.status) && Final(status)
    requires PaidOut(cfg, cell, after, status, w)
    ensures IndexOk(cfg, after) && BidsOk(cfg, after)
    ensures forall a :: Candidate(after.states, a) == Candidate(cell.states, a)
    ensures forall a | Candidate(cell.states, a) :: ValueAt(after, a) == ValueAt(cell, a)
  {
  }

  lemma RefundPaysOut(cfg: Config, b: Books)
    requires CellOk(cfg, b.cell) && !Final(b.cell.round.status) && b.cell.round.status != Cleared
    requires Held(b.cell) <= Bal(b.balances, cfg.self)
    ensures var r := RefundFirst(cfg, SetStatus(b, Voided), b.cell.round.bidders);
            r.Some? && PaidOut(cfg, b.cell, r.value.cell, Voided, cfg.self) && MoneyKept(b, r.value)
  {
    var bidders := b.cell.round.bidders;
    var v := SetStatus(b, Voided);
    PayoutReady(cfg, b, cfg.self);
    assert Payable(cfg, v, cfg.self);
    RefundLoop(cfg, v, |bidders|);
    PayoutLoop(cfg, v, |bidders|, cfg.self);
    assert bidders[..|bidders|] == bidders;
    forall a ensures Received(v.cell, bidders, cfg.self, a) == Received(b.cell, bidders, cfg.self, a) {}
  }

  lemma RefundKeeps(cfg: Config, b: Books)
    requires CellOk(cfg, b.cell) && !Final(b.cell.round.status) && b.cell.round.status != Cleared
    requires NoCandidate(b.cell)
    requires Held(b.cell) <= Bal(b.balances, cfg.self)
    ensures var r := RefundFirst(cfg, SetStatus(b, Voided), b.cell.round.bidders);
            r.Some? && CellOk(cfg, r.value.cell) && MoneyKept(b, r.value) && Held(r.value.cell) == 0
  {
    RefundPaysOut(cfg, b);
    var after := RefundFirst(cfg, SetStatus(b, Voided), b.cell.round.bidders).value.cell;
    PaidOutAccounts(cfg, b.cell, after, Voided, cfg.self);
    PaidOutBids(cfg, b.cell, after, Voided, cfg.self);
  }

  lemma SettlePaysOut(cfg: Config, b: Books)
    requires CellOk(cfg, b.cell) && b.cell.round.status == Cleared
    requires Held(b.cell) <= Bal(b.balances, cfg.self)
    ensures var r := SettleBooks(cfg, b);
            && r.Ok? && PaidOut(cfg, b.cell, r.value.cell, Settled, b.cell.round.winner.value)
            && MoneyKept(b, r.value)
  {
    var bidders, w := b.cell.round.bidders, b.cell.round.winner.value;
    PayoutReady(cfg, b, w);
    PayoutLoop(cfg, b, |bidders|, w);
    assert bidders[..|bidders|] == bidders;
  }

  lemma SettleKeeps(cfg: Config, b: Books)
    requires CellOk(cfg, b.cell) && b.cell.round.status == Cleared
    requires Held(b.cell) <= Bal(b.balances, cfg.self)
    ensures var r := SettleBooks(cfg, b);
            r.Ok? && CellOk(cfg, r.value.cell) && MoneyKept(b, r.value) && Held(r.value.cell) == 0
  {
    var w := b.cell.round.winner.value;
    SettlePaysOut(cfg, b);
    var after := SettleBooks(cfg, b).value.cell;
    PaidOutBids(cfg, b.cell, after, Settled, w);
    SameWinner(b.cell, after, w, b.cell.round.winningBid);
    assert w in b.cell.round.bidders;
    PaidOutAccounts(cfg, b.cell, after, Settled, w);
  }

  lemma SameWinner(c: Cell, d: Cell, w: Address, value: int)
    requires c.round.bidders == d.round.bidders && c.round.rule == d.round.rule
    requires forall a :: Candidate(c.states, a) == Candidate(d.states, a)
    requires forall a | Candidate(c.states, a) :: ValueAt(c, a) == ValueAt(d, a)
    requires IsWinner(c, w, value)
    ensures IsWinner(d, w, value)
    ensures w in c.round.bidders
  {
    LeaderIsTheWinner(c, w, value);
    LeaderIsTheWinner(d, w, value);
    LeaderCongruence(c, d, |c.round.bidders|);
  }

  lemma WinnerKeeps(cfg: Config, cell: Cell, w: Address, value: int)
    requires CellOk(cfg, cell) && cell.round.status == Revealing
    requires Leader(cell, |cell.round.bidders|) == Some((w, value))
    ensures CellOk(cfg, cell.(round := cell.round.(winner := Some(w), winningBid := value, status := Cleared)))
  {
    hide IsWinner, Leader, Net, NoCandidate;
    var after := cell.(round := cell.round.(winner := Some(w), winningBid := value, status := Cleared));
    LeaderIsTheWinner(cell, w, value);
    SameWinner(cell, after, w, value);
    forall a ensures Net(after.moves, a) == Due(cfg, after, a) {
      assert Net(cell.moves, a) == Due(cfg, cell, a);
    }
  }

  lemma ClearKeeps(cfg: Config, b: Books, b': Books, now: U64)
    requires CellOk(cfg, b.cell) && Held(b.cell) <= Bal(b.balances, cfg.self)
    requires ClearBooks(cfg, now, b) == Ok(b')
    ensures CellOk(cfg, b'.cell) && MoneyKept(b, b')
  {
    var leader := Leader(b.cell, |b.cell.round.bidders|);
    if leader.Some? {
      WinnerKeeps(cfg, b.cell, leader.value.0, leader.value.1);
    } else {
      LeaderIsTheWinner(b.cell, cfg.self, 0);
      RefundKeeps(cfg, b);
    }
  }

  lemma VoidKeeps(cfg: Config, b: Books, b': Books, now: U64)
    requires CellOk(cfg, b.cell) && Held(b.cell) <= Bal(b.balances, cfg.self)
    requires VoidBooks(cfg, now, b) == Ok(b')
    ensures CellOk(cfg, b'.cell) && MoneyKept(b, b')
  {
    RefundKeeps(cfg, b);
  }

  // ---- Committing ----

  lemma RefundedMoves(cfg: Config, b: Books, bidder: Address, r: Books)
    requires Refunded(cfg, b, bidder) == Some(r)
    requires bidder in b.cell.states ==> b.cell.states[bidder].escrow >= 0
    ensures MoneyKept(b, r) && r.cell == b.cell.(moves := r.cell.moves)
    ensures forall a :: Net(r.cell.moves, a) == Net(b.cell.moves, a)
              + if bidder in b.cell.states then Delta(Move(cfg.self, bidder, b.cell.states[bidder].escrow), a) else 0
  {
    if bidder in b.cell.states && b.cell.states[bidder].escrow > 0 {
      PayMoves(b, cfg.self, bidder, b.cell.states[bidder].escrow);
    }
  }

  lemma CommitMoves(cfg: Config, now: U64, b: Books, c: Call, b': Books)
    requires c.Commit? && CommitBooks(cfg, now, b, c) == Ok(b')
    requires c.bidder in b.cell.states ==> b.cell.states[c.bidder].escrow >= 0
    ensures MoneyKept(b, b')
    ensures forall a :: Net(b'.cell.moves, a) == Net(b.cell.moves, a) + Delta(Move(c.bidder, cfg.self, c.escrow), a)
              + if c.bidder in b.cell.states
                then Delta(Move(cfg.self, c.bidder, b.cell.states[c.bidder].escrow), a) else 0
  {
    var refunded := Refunded(cfg, b, c.bidder).value;
    var locked := Pay(refunded, c.bidder, cfg.self, c.escrow).value;
    RefundedMoves(cfg, b, c.bidder, refunded);
    PayMoves(refunded, c.bidder, cfg.self, c.escrow);
    MoneyKeptChain(b, refunded, locked);
  }

  lemma CommitHeld(cfg: Config, cell: Cell, c: Call)
    requires c.Commit? && IndexOk(cfg, cell)
    ensures var after := Indexed(cell, c.bidder);
            HeldBy(cell.states[c.bidder := FreshBid(c)], after.round.bidders)
            == Held(cell) - Locked(cell.states, c.bidder) + c.escrow
  {
    var bidders := cell.round.bidders;
    if c.bidder in cell.states {
      HeldUpdate(cell.states, bidders, c.bidder, FreshBid(c));
    } else {
      HeldFrame(cell.states, cell.states[c.bidder := FreshBid(c)], bidders);
      assert (bidders + [c.bidder])[..|bidders|] == bidders;
    }
  }

  lemma CommitIndex(cfg: Config, cell: Cell, c: Call, after: Cell)
    requires c.Commit? && c.bidder != cfg.self && IndexOk(cfg, cell)
    requires c.bidder in cell.states || |cell.round.bidders| < MAX_BIDDERS
    requires after.round == Indexed(cell, c.bidder).round
    requires after.states == cell.states[c.bidder := FreshBid(c)]
    requires after.seals == cell.seals[c.bidder := Seal(c.ciphertext, c.auditorBlob)]
    ensures IndexOk(cfg, after)
  {
    if c.bidder !in cell.states {
      assert after.round.bidders == cell.round.bidders + [c.bidder];
      assert c.bidder !in cell.round.bidders;
    }
  }

  /** What the overwritten bid, if there is one, had locked. */
  function Freed(cell: Cell, bidder: Address): int { if bidder in cell.states then cell.states[bidder].escrow else 0 }

  lemma FreedLocked(cfg: Config, cell: Cell, bidder: Address)
    requires BidsOk(cfg, cell) && cell.round.status == Open
    ensures Locked(cell.states, bidder) == Freed(cell, bidder)
  {
    assert bidder in cell.states ==> BidOk(cfg, Open, cell.states[bidder]);
  }

  lemma CommitDue(cfg: Config, cell: Cell, c: Call, after: Cell, a: Address)
    requires c.Commit? && c.bidder != cfg.self && IndexOk(cfg, cell) && BidsOk(cfg, cell) && cell.round.status == Open
    requires after.round == Indexed(cell, c.bidder).round && after.states == cell.states[c.bidder := FreshBid(c)]
    ensures Due(cfg, after, a) - Due(cfg, cell, a)
            == (if a == c.bidder then c.escrow - Freed(cell, c.bidder) else 0)
             - (if a == cfg.self then c.escrow - Freed(cell, c.bidder) else 0)
  {
    FreedLocked(cfg, cell, c.bidder);
    if a == cfg.self {
      CommitHeld(cfg, cell, c);
    } else {
      hide IndexOk, BidsOk, HeldBy, Freed;
      assert Price(after.round, a) == Price(cell.round, a);
      assert Locked(after.states, a) == if a == c.bidder then c.escrow else Locked(cell.states, a);
    }
  }

  lemma CommitAccounts(cfg: Config, now: U64, b: Books, c: Call, b': Books)
    requires c.Commit? && c.bidder != cfg.self && CellOk(cfg, b.cell)
    requires CommitBooks(cfg, now, b, c) == Ok(b')
    ensures AccountsOk(cfg, b'.cell) && MoneyKept(b, b')
  {
    hide MoneyKept, OutcomeOk, TimingOk, Supply, Transferred, Due, Net;
    CommitMoves(cfg, now, b, c, b');
    forall a
      ensures Net(b'.cell.moves, a) == Due(cfg, b'.cell, a)
    {
      CommitDue(cfg, b.cell, c, b'.cell, a);
      assert Net(b.cell.moves, a) == Due(cfg, b.cell, a);
    }
  }

  lemma CommitKeeps(cfg: Config, now: U64, b: Books, c: Call, b': Books)
    requires c.Commit? && c.bidder != cfg.self && CellOk(cfg, b.cell)
    requires CommitBooks(cfg, now, b, c) == Ok(b')
    ensures CellOk(cfg, b'.cell) && MoneyKept(b, b')
  {
    CommitAccounts(cfg, now, b, c, b');
    CommitIndex(cfg, b.cell, c, b'.cell);
  }
}

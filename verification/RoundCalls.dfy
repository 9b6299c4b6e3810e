/** What each entry point of the round contract answers and leaves behind, said in stored fields,
    balances and plain arithmetic: when it is accepted, which error it gives otherwise, and what
    is different afterwards (`contracts/round/src/lib.rs:69-500`). */
module RoundCalls {
  import opened Common
  import opened Token
  import opened RoundTypes
  import opened RoundSpec
  import opened Accounts
  import opened Clearing
  import opened RoundInvariant
  import opened RoundRuns
  import opened RoundProgress
  import Commitment

  // ---- Creating ----

  /** The terms of a round are the arguments of the call that created it. */
  ghost predicate TermsOf(r: Round, c: Call)
    requires c.CreateRound?
  {
    && r.operator == c.operator && r.itemRef == c.itemRef && r.revealRound == c.revealRound && r.rule == c.rule
    && r.commitDeadline == c.commitDeadline && r.revealDeadline == c.revealDeadline
    && r.auditorPubkey == c.auditorPubkey
  }

  /** A creation is accepted exactly when its deadlines lie around the exact time of beacon R, the
      first of them ahead, and it puts a round with its own terms under the next number. */
  lemma CreateAnswers(cfg: Config, s: State, c: Call)
    requires StateOk(cfg, s) && c.CreateRound?
    ensures var due := cfg.genesis + cfg.period * c.revealRound;
            var sized := c.operator != cfg.self && c.revealRound != 0 && |c.auditorPubkey| <= 1024;
            var timely := c.commitDeadline < due < c.revealDeadline;
            var r := Apply(cfg, s, c);
            && (r.Ok? <==> sized && timely && s.now < c.commitDeadline && s.counter < U64_MAX)
            && (r == Err(InvalidAmount) <==> c.operator != cfg.self && c.revealRound == 0)
            && (r == Err(PayloadTooLarge) <==>
                  c.operator != cfg.self && c.revealRound != 0 && |c.auditorPubkey| > 1024)
            && (r == Err(CommitDeadlineAfterReveal) <==> sized && !timely)
            && (r == Err(DeadlineInPast) <==> sized && timely && c.commitDeadline <= s.now)
            && (r.Err? ==> r.error in {Trap, InvalidAmount, PayloadTooLarge, CommitDeadlineAfterReveal, DeadlineInPast})
    ensures Apply(cfg, s, c).Ok? ==>
              var t := Apply(cfg, s, c).value;
              var rid := s.counter + 1;
              && rid !in s.cells && rid in t.cells && t == s.(counter := rid, cells := s.cells[rid := t.cells[rid]])
              && var cell := t.cells[rid];
                 && TermsOf(cell.round, c) && cell.round.status == Open
                 && cell.round.winner.None? && cell.round.winningBid == 0
                 && cell.round.bidders == [] && cell.states == map[] && cell.seals == map[] && cell.moves == []
  {
  }

  // ---- Committing ----

  /** What an accepted bid leaves: the new bid with the new seal, first or overwriting, a place in
      the index, and the two escrows exchanged; everything else as it was. */
  ghost predicate Bidden(cfg: Config, s: State, c: Call, t: State)
    requires c.Commit? && c.rid in s.cells && c.rid in t.cells
  {
    var p, q := s.cells[c.rid], t.cells[c.rid];
    var more := c.escrow - if c.bidder in p.states then p.states[c.bidder].escrow else 0;
    && t == s.(cells := s.cells[c.rid := q], balances := t.balances)
    && q.round == p.round.(bidders := p.round.bidders + if c.bidder in p.round.bidders then [] else [c.bidder])
    && q.states == p.states[c.bidder := BidState(c.commitment, c.escrow, None, None, false, false)]
    && q.seals == p.seals[c.bidder := Seal(c.ciphertext, c.auditorBlob)]
    && Bal(t.balances, c.bidder) == Bal(s.balances, c.bidder) - more
    && Bal(t.balances, cfg.self) == Bal(s.balances, cfg.self) + more
    && forall a | a != c.bidder && a != cfg.self :: Bal(t.balances, a) == Bal(s.balances, a)
  }

  lemma CommitLeaves(cfg: Config, s: State, c: Call)
    requires StateOk(cfg, s) && c.Commit? && Apply(cfg, s, c).Ok?
    ensures c.rid in Apply(cfg, s, c).value.cells && Bidden(cfg, s, c, Apply(cfg, s, c).value)
  {
    IndexInOrder(cfg, s, c.rid);
    hide StateOk, Distinct;
    var b := BooksOf(s, c.rid);
    var refunded := Refunded(cfg, b, c.bidder).value;
    RefundedBooks(cfg, s, c.rid, c.bidder, refunded);
    hide Refunded, IndexOk;
  }

  /** The old escrow, if there is one, is back with the bidder. */
  lemma RefundedBooks(cfg: Config, s: State, rid: U64, bidder: Address, b: Books)
    requires StateOk(cfg, s) && rid in s.cells && s.cells[rid].round.status == Open && bidder != cfg.self
    requires Refunded(cfg, BooksOf(s, rid), bidder) == Some(b)
    ensures b.cell == s.cells[rid].(moves := b.cell.moves)
    ensures var freed := if bidder in s.cells[rid].states then s.cells[rid].states[bidder].escrow else 0;
            && Bal(b.balances, bidder) == Bal(s.balances, bidder) + freed
            && Bal(b.balances, cfg.self) == Bal(s.balances, cfg.self) - freed
            && forall a | a != bidder && a != cfg.self :: Bal(b.balances, a) == Bal(s.balances, a)
  {
    Covered(cfg, s, rid);
    assert bidder in s.cells[rid].states ==> BidOk(cfg, Open, s.cells[rid].states[bidder]);
    hide StateOk, CellOk, IndexOk;
  }

  lemma CommitAnswers(cfg: Config, s: State, c: Call)
    requires StateOk(cfg, s) && c.Commit?
    ensures var r := Apply(cfg, s, c);
            && (r == Err(RoundNotFound) <==> c.bidder != cfg.self && c.rid !in s.cells)
            && (c.bidder != cfg.self && c.rid in s.cells ==>
                  var round := s.cells[c.rid].round;
                  var open, early := round.status == Open, s.now <= round.commitDeadline;
                  var sized := |c.ciphertext| <= 4096 && |c.auditorBlob| <= 2048;
                  var placed := c.bidder in round.bidders || |round.bidders| < 500;
                  var funded := c.escrow <= Bal(s.balances, c.bidder) + Locked(s.cells[c.rid].states, c.bidder);
                  && (r.Ok? <==> open && early && 0 < c.escrow && sized && placed && funded)
                  && (r == Err(WrongStatus) <==> !open)
                  && (r == Err(CommitClosed) <==> open && !early)
                  && (r == Err(InvalidAmount) <==> open && early && c.escrow <= 0)
                  && (r == Err(PayloadTooLarge) <==> open && early && 0 < c.escrow && !sized)
                  && (r == Err(RoundFull) <==> open && early && 0 < c.escrow && sized && !placed)
                  && (r == Err(Trap) <==> open && early && 0 < c.escrow && sized && placed && !funded))
  {
    CommitAccepted(cfg, s, c);
    if c.rid in s.cells {
      IndexInOrder(cfg, s, c.rid);
      assert c.bidder in s.cells[c.rid].round.bidders <==> c.bidder in s.cells[c.rid].states;
      hide StateOk, IndexOk, Bal, Locked, Transferred;
    }
  }

  // ---- Opening and revealing ----

  /** The window opens exactly for a signature of beacon R after the commit deadline. */
  lemma OpenAnswers(cfg: Config, s: State, rid: U64, signature: Bytes)
    ensures var r := Apply(cfg, s, OpenReveal(rid, signature));
            && (r == Err(RoundNotFound) <==> rid !in s.cells)
            && (rid in s.cells ==>
                  var round := s.cells[rid].round;
                  var open, late := round.status == Open, s.now > round.commitDeadline;
                  var signed := cfg.verifies(round.revealRound, signature);
                  && (r.Ok? <==> open && late && signed)
                  && (r == Err(RevealAlreadyOpen) <==> !open)
                  && (r == Err(CommitNotClosed) <==> open && !late)
                  && (r == Err(InvalidDrandSignature) <==> open && late && !signed)
                  && (r.Ok? ==>
                        r.value == s.(cells := s.cells[rid := s.cells[rid].(round := round.(status := Revealing))])))
  {
  }

  /** A reveal is accepted exactly for the opening of an unrevealed bid while the window lasts. */
  lemma RevealAnswers(cfg: Config, s: State, rid: U64, bidder: Address, value: I128, nonce: Bytes32)
    ensures var r := Apply(cfg, s, Reveal(rid, bidder, value, nonce));
            && (r == Err(RoundNotFound) <==> rid !in s.cells)
            && (rid in s.cells ==>
                  var cell := s.cells[rid];
                  var open := cell.round.status == Revealing;
                  var early := s.now <= cell.round.revealDeadline;
                  && (r == Err(RevealNotOpen) <==> !open)
                  && (r == Err(RevealWindowClosed) <==> open && !early)
                  && (r == Err(BidNotFound) <==> open && early && bidder !in cell.states)
                  && (open && early && bidder in cell.states ==>
                        var st := cell.states[bidder];
                        var fresh', fits := st.revealedValue.None?,
                                            cfg.sha256(Commitment.Encode(value, nonce)) == st.commitment;
                        && (r.Ok? <==> fresh' && fits)
                        && (r == Err(AlreadyRevealed) <==> !fresh')
                        && (r == Err(HashMismatch) <==> fresh' && !fits)
                        && (r.Ok? ==>
                              && rid in r.value.cells && bidder in r.value.cells[rid].states
                              && var after := r.value.cells[rid].states[bidder];
                                 && r.value == s.(cells := s.cells[rid :=
                                                    cell.(states := cell.states[bidder := after])])
                                 && after.commitment == st.commitment && after.escrow == st.escrow
                                 && after.settled == st.settled
                                 && after.revealedValue == Some(value) && after.revealedNonce == Some(nonce)
                                 && (after.valid <==> 0 < value <= st.escrow))))
  {
  }

  // ---- Paying out ----

  /** Every bid is closed, and nothing else changed but the status. */
  ghost predicate BidsClosed(p: Cell, q: Cell, status: Status) {
    && q.round == p.round.(status := status) && q.seals == p.seals && q.states.Keys == p.states.Keys
    && forall a | a in p.states :: q.states[a] == p.states[a].(settled := true)
  }

  /** What a payout gives `a`: the escrow back, less the `price` that the winner, if there is one,
      pays to the operator. */
  function PaidTo(cell: Cell, winner: Option<Address>, price: int, a: Address): int {
    (if a in cell.states then cell.states[a].escrow else 0)
    - (if winner == Some(a) then price else 0)
    + (if winner.Some? && a == cell.round.operator then price else 0)
  }

  /** Round `rid` is paid out, and other rounds are as they were. */
  ghost predicate PaidBack(cfg: Config, s: State, rid: U64, t: State, status: Status, winner: Option<Address>,
                           price: int)
    requires rid in s.cells && rid in t.cells
  {
    && t == s.(cells := s.cells[rid := t.cells[rid]], balances := t.balances)
    && BidsClosed(s.cells[rid], t.cells[rid], status)
    && forall a | a != cfg.self ::
         Bal(t.balances, a) == Bal(s.balances, a) + PaidTo(s.cells[rid], winner, price, a)
  }

  lemma BalanceAfter(cfg: Config, b: Books, b': Books, status: Status, w: Address, a: Address)
    requires PaidOut(cfg, b.cell, b'.cell, status, w) && MoneyKept(b, b') && a != cfg.self
    requires IndexOk(cfg, b.cell) && (w in b.cell.round.bidders || w == cfg.self)
    ensures Bal(b'.balances, a) == Bal(b.balances, a)
                                   + PaidTo(b.cell, if w == cfg.self then None else Some(w), b.cell.round.winningBid, a)
  {
    hide Distinct, Supply, Marked, Net, HeldBy;
    assert Bal(b'.balances, a) + Net(b'.cell.moves, a) == Bal(b.balances, a) + Net(b.cell.moves, a);
    assert a in b.cell.round.bidders <==> a in b.cell.states;
  }

  lemma PaidOutCloses(cfg: Config, p: Cell, q: Cell, status: Status, w: Address)
    requires PaidOut(cfg, p, q, status, w) && IndexOk(cfg, p)
    ensures BidsClosed(p, q, status)
  {
    hide Distinct, Net, HeldBy, Received;
  }

  lemma IndexInOrder(cfg: Config, s: State, rid: U64)
    requires StateOk(cfg, s) && rid in s.cells
    ensures IndexOk(cfg, s.cells[rid])
  {
    Covered(cfg, s, rid);
  }

  lemma PaidBackFrom(cfg: Config, s: State, rid: U64, t: State, status: Status, w: Address)
    requires StateOk(cfg, s) && rid in s.cells && rid in t.cells
    requires t == PutBooks(s, rid, BooksOf(t, rid))
    requires PaidOut(cfg, s.cells[rid], t.cells[rid], status, w) && MoneyKept(BooksOf(s, rid), BooksOf(t, rid))
    requires w in s.cells[rid].round.bidders || w == cfg.self
    ensures PaidBack(cfg, s, rid, t, status, if w == cfg.self then None else Some(w), s.cells[rid].round.winningBid)
  {
    IndexInOrder(cfg, s, rid);
    hide StateOk, IndexOk, PaidOut, MoneyKept, Bal, BidsClosed, PaidTo;
    PaidOutCloses(cfg, s.cells[rid], t.cells[rid], status, w);
    forall a | a != cfg.self {
      BalanceAfter(cfg, BooksOf(s, rid), BooksOf(t, rid), status, w, a);
    }
  }

  /** Settling pays the winning bid from the winner to the operator and gives back all the rest. */
  lemma SettleAnswers(cfg: Config, s: State, rid: U64)
    requires StateOk(cfg, s)
    ensures var r := Apply(cfg, s, Settle(rid));
            && (r == Err(RoundNotFound) <==> rid !in s.cells)
            && (rid in s.cells ==>
                  var round := s.cells[rid].round;
                  && (r.Ok? <==> round.status == Cleared)
                  && (r == Err(NotCleared) <==> round.status != Cleared)
                  && (r.Ok? ==>
                        && round.winner.Some? && rid in r.value.cells
                        && PaidBack(cfg, s, rid, r.value, Settled, round.winner, round.winningBid)))
  {
    hide StateOk, CellOk, SettleFirst, PaidOut, MoneyKept, PaidBack;
    if rid in s.cells && s.cells[rid].round.status == Cleared {
      Covered(cfg, s, rid);
      SettlePaysOut(cfg, BooksOf(s, rid));
      WinnerBids(cfg, s.cells[rid]);
      PaidBackFrom(cfg, s, rid, Apply(cfg, s, Settle(rid)).value, Settled, s.cells[rid].round.winner.value);
    }
  }

  lemma WinnerBids(cfg: Config, cell: Cell)
    requires CellOk(cfg, cell) && cell.round.status == Cleared
    ensures cell.round.winner.Some? && cell.round.winner.value in cell.round.bidders
    ensures cell.round.winner.value != cfg.self
  {
  }

  /** Voiding gives everybody the escrow back. */
  lemma VoidAnswers(cfg: Config, s: State, rid: U64)
    requires StateOk(cfg, s)
    ensures var r := Apply(cfg, s, Void(rid));
            && (r == Err(RoundNotFound) <==> rid !in s.cells)
            && (rid in s.cells ==>
                  var round := s.cells[rid].round;
                  && (r.Ok? <==> round.status == Open && s.now > round.revealDeadline + 3600)
                  && (r == Err(Trap) <==> round.status == Open && round.revealDeadline + 3600 > U64_MAX)
                  && (r == Err(NotVoidable) <==>
                        round.status != Open || s.now <= round.revealDeadline + 3600 <= U64_MAX)
                  && (r.Ok? ==> rid in r.value.cells && PaidBack(cfg, s, rid, r.value, Voided, None, 0)))
  {
    hide StateOk, CellOk, RefundFirst, PaidOut, MoneyKept, PaidBack;
    if rid in s.cells && s.cells[rid].round.status == Open {
      Covered(cfg, s, rid);
      RefundPaysOut(cfg, BooksOf(s, rid));
      if Apply(cfg, s, Void(rid)).Ok? {
        PaidBackFrom(cfg, s, rid, Apply(cfg, s, Void(rid)).value, Voided, cfg.self);
        NoPrice(cfg, s, rid, Apply(cfg, s, Void(rid)).value);
      }
    }
  }

  lemma NoPrice(cfg: Config, s: State, rid: U64, t: State)
    requires rid in s.cells && rid in t.cells
    requires PaidBack(cfg, s, rid, t, Voided, None, s.cells[rid].round.winningBid)
    ensures PaidBack(cfg, s, rid, t, Voided, None, 0)
  {
  }

  // ---- Clearing ----

  /** The winner is a candidate; no candidate bid more - less, if the lowest bid wins - and those
      before the winner in the index bid strictly less, or more. */
  ghost predicate Best(cell: Cell, winner: Address, winningBid: int) {
    var bidders := cell.round.bidders;
    && winner in bidders && Candidate(cell.states, winner) && ValueAt(cell, winner) == winningBid
    && (forall a | a in bidders && Candidate(cell.states, a) ::
          if cell.round.rule == HighestBid then ValueAt(cell, a) <= winningBid else ValueAt(cell, a) >= winningBid)
    && (forall i, j | 0 <= i < j < |bidders| && bidders[j] == winner && Candidate(cell.states, bidders[i]) ::
          if cell.round.rule == HighestBid then ValueAt(cell, bidders[i]) < winningBid
          else ValueAt(cell, bidders[i]) > winningBid)
  }

  lemma WinnerIsBest(cell: Cell, winner: Address, winningBid: int)
    requires Distinct(cell.round.bidders) && IsWinner(cell, winner, winningBid)
    ensures Best(cell, winner, winningBid)
  {
    var k: nat :| WinsAt(cell, |cell.round.bidders|, k) && cell.round.bidders[k] == winner;
    forall a | a in cell.round.bidders && Candidate(cell.states, a)
      ensures if cell.round.rule == HighestBid then ValueAt(cell, a) <= winningBid else ValueAt(cell, a) >= winningBid
    {
      var j :| 0 <= j < |cell.round.bidders| && cell.round.bidders[j] == a;
    }
  }

  /** Clearing names the earliest best candidate and moves no money, or, exactly when there is no
      candidate, gives everybody the escrow back. */
  lemma ClearAnswers(cfg: Config, s: State, rid: U64)
    requires StateOk(cfg, s)
    ensures var r := Apply(cfg, s, Clear(rid));
            && (r == Err(RoundNotFound) <==> rid !in s.cells)
            && (rid in s.cells ==>
                  var cell := s.cells[rid];
                  && (r.Ok? <==> cell.round.status == Revealing && s.now > cell.round.revealDeadline)
                  && (r == Err(RevealNotOpen) <==> cell.round.status != Revealing)
                  && (r == Err(RevealStillOpen) <==>
                        cell.round.status == Revealing && s.now <= cell.round.revealDeadline)
                  && (r.Ok? ==>
                        && rid in r.value.cells
                        && if forall a | a in cell.round.bidders :: !Candidate(cell.states, a)
                           then PaidBack(cfg, s, rid, r.value, Voided, None, 0)
                           else ClearedWith(s, rid, r.value)))
  {
    hide StateOk, CellOk, Leader, RefundFirst, PaidOut, MoneyKept, PaidBack, IsWinner, Best, Candidate;
    if rid in s.cells && s.cells[rid].round.status == Revealing && s.now > s.cells[rid].round.revealDeadline {
      var cell := s.cells[rid];
      Covered(cfg, s, rid);
      var leader := Leader(cell, |cell.round.bidders|);
      if leader.None? {
        LeaderIsTheWinner(cell, cfg.self, 0);
        RefundPaysOut(cfg, BooksOf(s, rid));
        PaidBackFrom(cfg, s, rid, Apply(cfg, s, Clear(rid)).value, Voided, cfg.self);
        NoPrice(cfg, s, rid, Apply(cfg, s, Clear(rid)).value);
      } else {
        LeaderIsTheWinner(cell, leader.value.0, leader.value.1);
        IndexDistinct(cfg, cell);
        WinnerIsBest(cell, leader.value.0, leader.value.1);
        WinnerStands(cell, leader.value.0, leader.value.1);
      }
    }
  }

  ghost predicate ClearedWith(s: State, rid: U64, t: State)
    requires rid in s.cells && rid in t.cells
  {
    var round, after := s.cells[rid].round, t.cells[rid].round;
    && after == round.(status := Cleared, winner := after.winner, winningBid := after.winningBid)
    && t == s.(cells := s.cells[rid := s.cells[rid].(round := after)])
    && after.winner.Some? && Best(s.cells[rid], after.winner.value, after.winningBid)
  }

  lemma IndexDistinct(cfg: Config, cell: Cell)
    requires CellOk(cfg, cell)
    ensures Distinct(cell.round.bidders)
  {
  }

  lemma WinnerStands(cell: Cell, winner: Address, winningBid: int)
    requires Best(cell, winner, winningBid)
    ensures winner in cell.round.bidders && Candidate(cell.states, winner)
  {
  }

  // ---- Reading the index ----

  /** A page shows the index from the cursor on, and its next cursor is where it ends, or 0 when
      nothing is left. */
  lemma PageAnswers(s: State, rid: U64, cursor: nat, limit: nat)
    ensures var r := BiddersPage(s, rid, cursor, limit);
            && (r == Err(InvalidLimit) <==> limit == 0 || limit > 100)
            && (r == Err(RoundNotFound) <==> 1 <= limit <= 100 && rid !in s.cells)
            && (r.Ok? <==> 1 <= limit <= 100 && rid in s.cells)
            && (r.Ok? ==>
                  var bidders, page := s.cells[rid].round.bidders, r.value;
                  && page.total == |bidders|
                  && |page.data| == (if cursor >= |bidders| then 0
                                     else if |bidders| - cursor < limit then |bidders| - cursor else limit)
                  && (forall i | 0 <= i < |page.data| :: page.data[i] == bidders[cursor + i])
                  && page.nextCursor == if cursor + limit < |bidders| then cursor + limit else 0)
  {
  }

  // ---- Over runs ----

  /** Some accepted creation in the run made round `rid`. */
  ghost predicate MadeAt(cfg: Config, s: State, calls: seq<Call>, rid: U64, r: Round, k: nat) {
    && k < |calls| && calls[k].CreateRound?
    && var before := Exec(cfg, s, calls[..k]);
       Apply(cfg, before, calls[k]).Ok? && before.counter + 1 == rid && TermsOf(r, calls[k])
  }

  lemma ExecLast(cfg: Config, s: State, calls: seq<Call>)
    requires calls != []
    ensures var n := |calls| - 1;
            Exec(cfg, s, calls) == Next(cfg, Exec(cfg, s, calls[..n]), calls[n])
  {
    var n := |calls| - 1;
    assert calls == calls[..n] + [calls[n]] && [calls[n]][1..] == [];
    hide Next;
    ExecAppend(cfg, s, calls[..n], [calls[n]]);
    var t := Exec(cfg, s, calls[..n]);
    assert Exec(cfg, t, [calls[n]]) == Exec(cfg, Next(cfg, t, calls[n]), []);
  }

  lemma TermsStay(cfg: Config, s: State, c: Call, rid: U64)
    requires StateOk(cfg, s) && rid in s.cells
    ensures rid in Next(cfg, s, c).cells && SameTerms(s.cells[rid].round, Next(cfg, s, c).cells[rid].round)
  {
    hide StateOk, Next;
    StepGrows(cfg, s, c);
    assert Later(s.cells[rid], Next(cfg, s, c).cells[rid]);
  }

  lemma OnlyCreationAdds(cfg: Config, s: State, c: Call, rid: U64)
    requires StateOk(cfg, s) && rid !in s.cells && rid in Next(cfg, s, c).cells
    ensures c.CreateRound? && Apply(cfg, s, c).Ok? && s.counter + 1 == rid
    ensures TermsOf(Next(cfg, s, c).cells[rid].round, c)
  {
    hide StateOk, CreateCheck, RoundCall;
    if c.CreateRound? { CreateAnswers(cfg, s, c); }
  }

  lemma MadeEarlier(cfg: Config, s: State, calls: seq<Call>, rid: U64, early: Round, late: Round, k: nat)
    requires calls != [] && MadeAt(cfg, s, calls[..|calls| - 1], rid, early, k) && SameTerms(early, late)
    ensures MadeAt(cfg, s, calls, rid, late, k)
  {
    hide Exec, Apply;
    assert calls[..|calls| - 1][..k] == calls[..k];
  }

  /** In any run from deployment, every round carries the terms given to the accepted call that
      created it, and is numbered by it. */
  lemma {:induction false} RoundsAsCreated(cfg: Config, balances: Balances, calls: seq<Call>, rid: U64)
    requires rid in Exec(cfg, Deployed(cfg, balances), calls).cells
    ensures exists k :: MadeAt(cfg, Deployed(cfg, balances), calls, rid,
                               Exec(cfg, Deployed(cfg, balances), calls).cells[rid].round, k)
    decreases |calls|
  {
    var s0 := Deployed(cfg, balances);
    if calls == [] { return; }
    var n := |calls| - 1;
    var s := Exec(cfg, s0, calls[..n]);
    ExecLast(cfg, s0, calls);
    RunKeeps(cfg, s0, calls[..n]);
    hide StateOk, Exec, Next, Apply, SameTerms, TermsOf;
    var r := Exec(cfg, s0, calls).cells[rid].round;
    if rid in s.cells {
      RoundsAsCreated(cfg, balances, calls[..n], rid);
      TermsStay(cfg, s, calls[n], rid);
      var k :| MadeAt(cfg, s0, calls[..n], rid, s.cells[rid].round, k);
      MadeEarlier(cfg, s0, calls, rid, s.cells[rid].round, r, k);
    } else {
      OnlyCreationAdds(cfg, s, calls[n], rid);
      assert MadeAt(cfg, s0, calls, rid, r, n);
    }
  }

  // ---- A seal stands ----

  /** The seal of `bidder` is this one, or has expired. */
  predicate SealStands(cell: Cell, bidder: Address, seal: Seal, expired: bool) {
    (bidder in cell.seals <==> !expired) && (bidder in cell.seals ==> cell.seals[bidder] == seal)
  }

  lemma RoundCallKeepsSeal(cfg: Config, now: U64, b: Books, c: Call, b': Books, bidder: Address)
    requires CellOk(cfg, b.cell) && Held(b.cell) <= Bal(b.balances, cfg.self)
    requires OnRound(c) && RoundCall(cfg, now, b, c) == Ok(b') && (c.Commit? ==> c.bidder != bidder)
    ensures bidder in b'.cell.seals <==> bidder in b.cell.seals && !(c.ExpireSeal? && c.bidder == bidder)
    ensures bidder in b'.cell.seals ==> b'.cell.seals[bidder] == b.cell.seals[bidder]
  {
    hide CellOk, SettleFirst, RefundFirst, Leader, Held;
    if c.Settle? {
      SettlePaysOut(cfg, b);
    } else if c.Void? || (c.Clear? && Leader(b.cell, |b.cell.round.bidders|).None?) {
      RefundPaysOut(cfg, b);
    }
  }

  lemma StepKeepsSeal(cfg: Config, s: State, c: Call, rid: U64, bidder: Address, seal: Seal, expired: bool)
    requires StateOk(cfg, s) && rid in s.cells && SealStands(s.cells[rid], bidder, seal, expired)
    requires c.Commit? && c.rid == rid ==> c.bidder != bidder
    ensures var t := Next(cfg, s, c);
            rid in t.cells && SealStands(t.cells[rid], bidder, seal, expired || c == ExpireSeal(rid, bidder))
  {
    hide StateOk, CellOk, RoundCall, CreateCheck, Held;
    Covered(cfg, s, rid);
    NewNumber(cfg, s, rid);
    assert c == ExpireSeal(rid, bidder) ==> Apply(cfg, s, c).Ok? by { ExpiryAccepted(cfg, s, rid, bidder); }
    if OnRound(c) && c.rid == rid && Apply(cfg, s, c).Ok? {
      RoundCallKeepsSeal(cfg, s.now, BooksOf(s, rid), c, BooksOf(Next(cfg, s, c), rid), bidder);
    }
  }

  lemma ExpiryAccepted(cfg: Config, s: State, rid: U64, bidder: Address)
    requires rid in s.cells
    ensures Apply(cfg, s, ExpireSeal(rid, bidder)).Ok?
  {
  }

  /** Until its bidder overwrites it, the seal stored with an accepted bid is the one committed,
      and it is there unless it has expired. */
  lemma {:induction false} RunKeepsSeal(cfg: Config, s: State, calls: seq<Call>, rid: U64, bidder: Address, seal: Seal,
                                        expired: bool)
    requires StateOk(cfg, s) && rid in s.cells && SealStands(s.cells[rid], bidder, seal, expired)
    requires forall c | c in calls && c.Commit? && c.rid == rid :: c.bidder != bidder
    ensures var t := Exec(cfg, s, calls);
            && rid in t.cells
            && SealStands(t.cells[rid], bidder, seal, expired || ExpireSeal(rid, bidder) in calls)
    decreases |calls|
  {
    if calls != [] {
      hide StateOk, SealStands, Next;
      var first, rest := calls[0], calls[1..];
      StepKeeps(cfg, s, first);
      StepKeepsSeal(cfg, s, first, rid, bidder, seal, expired);
      var gone := expired || first == ExpireSeal(rid, bidder);
      RunKeepsSeal(cfg, Next(cfg, s, first), rest, rid, bidder, seal, gone);
      assert ExpireSeal(rid, bidder) in calls <==> first == ExpireSeal(rid, bidder) || ExpireSeal(rid, bidder) in rest;
    }
  }

  lemma CommittedSealStands(cfg: Config, s: State, c: Call, calls: seq<Call>)
    requires StateOk(cfg, s) && c.Commit? && Apply(cfg, s, c).Ok?
    requires forall d | d in calls && d.Commit? && d.rid == c.rid :: d.bidder != c.bidder
    ensures var t := Exec(cfg, Apply(cfg, s, c).value, calls);
            && c.rid in t.cells
            && SealStands(t.cells[c.rid], c.bidder, Seal(c.ciphertext, c.auditorBlob),
                          ExpireSeal(c.rid, c.bidder) in calls)
  {
    hide StateOk, Exec;
    CommitLeaves(cfg, s, c);
    StepKeeps(cfg, s, c);
    RunKeepsSeal(cfg, Apply(cfg, s, c).value, calls, c.rid, c.bidder, Seal(c.ciphertext, c.auditorBlob), false);
  }
}

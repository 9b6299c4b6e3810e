/** How a round may change over time: its terms never, its status only forward, its bids
    not at all once the reveal is open, and nothing once it has ended. */
module RoundProgress {
  import opened Common
  import opened Token
  import opened RoundTypes
  import opened RoundSpec
  import opened Accounts
  import opened RoundInvariant
  import opened RoundRuns
  import opened SampleRuns
  import Commitment

  predicate Forward(p: Status, q: Status) {
    p == q || p == Open || (p == Revealing && q != Open) || (p == Cleared && q == Settled)
  }

  ghost predicate SameTerms(p: Round, q: Round) {
    q == p.(status := q.status, bidders := q.bidders, winner := q.winner, winningBid := q.winningBid)
  }

  ghost predicate SameBid(p: BidState, q: BidState) {
    && q.commitment == p.commitment && q.escrow == p.escrow
    && (p.revealedValue.Some? ==> q.revealedValue == p.revealedValue && q.revealedNonce == p.revealedNonce
                                  && q.valid == p.valid)
  }

  ghost predicate BidsFrozen(c: Cell, d: Cell) {
    && d.round.bidders == c.round.bidders
    && d.states.Keys == c.states.Keys
    && (forall a | a in c.states :: SameBid(c.states[a], d.states[a]))
    && (forall a | a in d.seals :: a in c.seals && d.seals[a] == c.seals[a])
  }

  predicate Decided(status: Status) { status != Open && status != Revealing }

  ghost predicate SameReveals(c: Cell, d: Cell)
    requires d.states.Keys == c.states.Keys
  {
    forall a | a in c.states ::
      d.states[a].valid == c.states[a].valid && d.states[a].revealedValue == c.states[a].revealedValue
  }

  /** `d` is a possible later condition of the round `c`. */
  ghost predicate Later(c: Cell, d: Cell) {
    && SameTerms(c.round, d.round)
    && Forward(c.round.status, d.round.status)
    && c.round.bidders <= d.round.bidders
    && (c.round.status != Open ==> BidsFrozen(c, d))
    && (Decided(c.round.status) ==> SameReveals(c, d))
    && (c.round.status == Cleared ==> d.round.winner == c.round.winner && d.round.winningBid == c.round.winningBid)
    && (Final(c.round.status) ==> d == c.(seals := d.seals))
  }

  lemma LaterRefl(c: Cell)
    ensures Later(c, c)
  {
  }

  lemma LaterTrans(c: Cell, d: Cell, e: Cell)
    requires Later(c, d) && Later(d, e)
    ensures Later(c, e)
  {
    if c.round.status != Open {
      forall a | a in c.states
        ensures SameBid(c.states[a], e.states[a])
      {
        assert SameBid(c.states[a], d.states[a]) && SameBid(d.states[a], e.states[a]);
      }
    }
  }

  lemma PaidOutLater(cfg: Config, cell: Cell, after: Cell, status: Status, w: Address)
    requires !Final(cell.round.status) && Forward(cell.round.status, status)
    requires PaidOut(cfg, cell, after, status, w)
    ensures Later(cell, after)
  {
  }

  lemma CommitLater(cfg: Config, now: U64, b: Books, c: Call, b': Books)
    requires c.Commit? && CommitBooks(cfg, now, b, c) == Ok(b')
    ensures Later(b.cell, b'.cell)
  {
  }

  lemma RoundCallLater(cfg: Config, now: U64, b: Books, c: Call, b': Books)
    requires CellOk(cfg, b.cell) && Held(b.cell) <= Bal(b.balances, cfg.self)
    requires OnRound(c) && RoundCall(cfg, now, b, c) == Ok(b')
    ensures Later(b.cell, b'.cell)
  {
    match c
    case Commit(_, _, _, _, _, _) => CommitLater(cfg, now, b, c, b');
    case OpenReveal(_, _) =>
    case Reveal(_, bidder, _, _) =>
    case Clear(_) =>
      if Leader(b.cell, |b.cell.round.bidders|).None? {
        RefundPaysOut(cfg, b);
        PaidOutLater(cfg, b.cell, b'.cell, Voided, cfg.self);
      }
    case Settle(_) =>
      SettlePaysOut(cfg, b);
      PaidOutLater(cfg, b.cell, b'.cell, Settled, b.cell.round.winner.value);
    case Void(_) =>
      RefundPaysOut(cfg, b);
      PaidOutLater(cfg, b.cell, b'.cell, Voided, cfg.self);
    case ExpireSeal(_, _) =>
  }

  /** Every round of `s` is still there in `t`, at a later point of its life. */
  ghost predicate Grows(s: State, t: State) {
    && s.now <= t.now
    && forall rid | rid in s.cells :: rid in t.cells && Later(s.cells[rid], t.cells[rid])
  }

  lemma GrowsTrans(s: State, t: State, u: State)
    requires Grows(s, t) && Grows(t, u)
    ensures Grows(s, u)
  {
    forall rid | rid in s.cells
      ensures rid in u.cells && Later(s.cells[rid], u.cells[rid])
    {
      LaterTrans(s.cells[rid], t.cells[rid], u.cells[rid]);
    }
  }

  lemma IndexGrows(cfg: Config, s: State, t: State, rid: U64)
    requires Grows(s, t) && StateOk(cfg, t) && rid in s.cells
    ensures rid in t.cells && s.cells[rid].round.bidders <= t.cells[rid].round.bidders
  {
    assert Later(s.cells[rid], t.cells[rid]);
  }

  lemma IndexBounds(cfg: Config, s: State, rid: U64)
    requires StateOk(cfg, s) && rid in s.cells
    ensures Distinct(s.cells[rid].round.bidders) && |s.cells[rid].round.bidders| <= MAX_BIDDERS
  {
    Covered(cfg, s, rid);
  }

  lemma StepGrows(cfg: Config, s: State, c: Call)
    requires StateOk(cfg, s)
    ensures Grows(s, Next(cfg, s, c))
  {
    hide CellOk, Later, RoundCall, CreateCheck, Held;
    var t := Next(cfg, s, c);
    forall rid | rid in s.cells
      ensures rid in t.cells && Later(s.cells[rid], t.cells[rid])
    {
      if OnRound(c) && Apply(cfg, s, c).Ok? && c.rid == rid {
        Covered(cfg, s, rid);
        RoundCallLater(cfg, s.now, BooksOf(s, rid), c, BooksOf(t, rid));
      } else {
        LaterRefl(s.cells[rid]);
      }
    }
  }

  /** Whatever calls are made, every round only moves forward. */
  lemma {:induction false} RunGrows(cfg: Config, s: State, calls: seq<Call>)
    requires StateOk(cfg, s)
    ensures Grows(s, Exec(cfg, s, calls))
    decreases |calls|
  {
    if calls == [] {
      forall rid | rid in s.cells { LaterRefl(s.cells[rid]); }
    } else {
      var t := Next(cfg, s, calls[0]);
      StepKeeps(cfg, s, calls[0]);
      StepGrows(cfg, s, calls[0]);
      RunGrows(cfg, t, calls[1..]);
      GrowsTrans(s, t, Exec(cfg, s, calls));
    }
  }

  lemma GrowsRefl(cfg: Config, s: State)
    requires StateOk(cfg, s)
    ensures Grows(s, s)
  {
    RunGrows(cfg, s, []);
  }

  lemma ClockForward(s: State, t: State)
    requires Grows(s, t)
    ensures s.now <= t.now
  {
  }

  lemma TimePasses(cfg: Config, s: State, seconds: nat)
    requires StateOk(cfg, s) && s.now + seconds <= U64_MAX
    ensures StateOk(cfg, s.(now := s.now + seconds)) && Grows(s, s.(now := s.now + seconds))
  {
    hide StateOk, Grows;
    StepKeeps(cfg, s, Advance(seconds));
    StepGrows(cfg, s, Advance(seconds));
  }

  /** From deployment: at any two moments of a run, the second shows each round further on. */
  lemma RoundsOnlyAdvance(cfg: Config, balances: Balances, first: seq<Call>, then': seq<Call>, rid: U64)
    requires rid in Exec(cfg, Deployed(cfg, balances), first).cells
    ensures var early := Exec(cfg, Deployed(cfg, balances), first);
            var late := Exec(cfg, Deployed(cfg, balances), first + then');
            && rid in late.cells && Later(early.cells[rid], late.cells[rid])
            && TimingOk(cfg, late.cells[rid].round)
  {
    var s0 := Deployed(cfg, balances);
    RunKeeps(cfg, s0, first);
    RunKeeps(cfg, s0, first + then');
    ExecAppend(cfg, s0, first, then');
    RunGrows(cfg, Exec(cfg, s0, first), then');
    assert CellOk(cfg, Exec(cfg, s0, first + then').cells[rid]);
  }

  /** A bid is taken exactly while the round is open and before its commit deadline, hence
      strictly before the beacon that could unseal the others; and only if the bidder can
      fund it, counting the escrow an overwritten bid gives back. */
  lemma CommitAccepted(cfg: Config, s: State, c: Call)
    requires StateOk(cfg, s) && c.Commit?
    ensures Apply(cfg, s, c).Ok? <==>
              && c.bidder != cfg.self && c.rid in s.cells
              && var cell := s.cells[c.rid];
                 && cell.round.status == Open && s.now <= cell.round.commitDeadline
                 && 0 < c.escrow
                 && |c.ciphertext| <= MAX_CIPHERTEXT && |c.auditorBlob| <= MAX_AUDITOR_BLOB
                 && (c.bidder in cell.round.bidders || |cell.round.bidders| < MAX_BIDDERS)
                 && c.escrow <= Bal(s.balances, c.bidder) + Locked(cell.states, c.bidder)
    ensures Apply(cfg, s, c).Ok? ==> s.now < ExactTime(cfg, s.cells[c.rid].round.revealRound)
  {
    if c.rid in s.cells {
      Covered(cfg, s, c.rid);
      var cell := s.cells[c.rid];
      if c.bidder in cell.states && c.bidder != cfg.self {
        LockedCovered(cfg, cell, c.bidder);
      }
    }
  }

  lemma {:induction false} LockedWithin(s: map<Address, BidState>, bidders: seq<Address>, a: Address)
    requires forall x | x in s :: s[x].escrow >= 0
    requires a in bidders
    ensures Locked(s, a) <= HeldBy(s, bidders)
  {
    var n := |bidders| - 1;
    HeldPrefix(s, bidders, n);
    if bidders[n] != a {
      LockedWithin(s, bidders[..n], a);
    }
  }

  lemma LockedCovered(cfg: Config, cell: Cell, a: Address)
    requires CellOk(cfg, cell) && a in cell.states
    ensures Locked(cell.states, a) <= Held(cell)
  {
    LockedWithin(cell.states, cell.round.bidders, a);
  }

  // ---- A sealed bid stands ----

  /** The bid of `bidder` is the one with this commitment and escrow. */
  predicate Stands(cell: Cell, bidder: Address, commitment: Bytes, escrow: int) {
    bidder in cell.states && cell.states[bidder].commitment == commitment && cell.states[bidder].escrow == escrow
  }

  lemma RoundCallKeepsBid(cfg: Config, now: U64, b: Books, c: Call, b': Books, bidder: Address,
                          commitment: Bytes, escrow: int)
    requires CellOk(cfg, b.cell) && Held(b.cell) <= Bal(b.balances, cfg.self)
    requires OnRound(c) && RoundCall(cfg, now, b, c) == Ok(b') && (c.Commit? ==> c.bidder != bidder)
    requires Stands(b.cell, bidder, commitment, escrow)
    ensures Stands(b'.cell, bidder, commitment, escrow)
  {
    if b.cell.round.status != Open {
      RoundCallLater(cfg, now, b, c, b');
      assert SameBid(b.cell.states[bidder], b'.cell.states[bidder]);
    } else if c.Void? {
      RefundPaysOut(cfg, b);
    }
  }

  lemma StepKeepsBid(cfg: Config, s: State, c: Call, rid: U64, bidder: Address, commitment: Bytes, escrow: int)
    requires StateOk(cfg, s) && rid in s.cells && Stands(s.cells[rid], bidder, commitment, escrow)
    requires c.Commit? && c.rid == rid ==> c.bidder != bidder
    ensures var t := Next(cfg, s, c);
            rid in t.cells && Stands(t.cells[rid], bidder, commitment, escrow)
  {
    hide StateOk, CellOk, Stands, RoundCall, CreateCheck, Held;
    Covered(cfg, s, rid);
    NewNumber(cfg, s, rid);
    if OnRound(c) && c.rid == rid && Apply(cfg, s, c).Ok? {
      var t := Next(cfg, s, c);
      RoundCallKeepsBid(cfg, s.now, BooksOf(s, rid), c, BooksOf(t, rid), bidder, commitment, escrow);
    }
  }

  lemma NewNumber(cfg: Config, s: State, rid: U64)
    requires StateOk(cfg, s) && rid in s.cells
    ensures rid != s.counter + 1
  {
  }

  lemma {:induction false} RunKeepsBid(cfg: Config, s: State, calls: seq<Call>, rid: U64, bidder: Address,
                                       commitment: Bytes, escrow: int)
    requires StateOk(cfg, s) && rid in s.cells && Stands(s.cells[rid], bidder, commitment, escrow)
    requires forall c | c in calls && c.Commit? && c.rid == rid :: c.bidder != bidder
    ensures var t := Exec(cfg, s, calls);
            rid in t.cells && Stands(t.cells[rid], bidder, commitment, escrow)
    decreases |calls|
  {
    if calls != [] {
      hide StateOk, Stands, Next;
      StepKeeps(cfg, s, calls[0]);
      StepKeepsBid(cfg, s, calls[0], rid, bidder, commitment, escrow);
      RunKeepsBid(cfg, Next(cfg, s, calls[0]), calls[1..], rid, bidder, commitment, escrow);
    }
  }

  lemma CommitStands(cfg: Config, s: State, c: Call)
    requires c.Commit? && Apply(cfg, s, c).Ok?
    ensures var t := Apply(cfg, s, c).value;
            c.rid in t.cells && Stands(t.cells[c.rid], c.bidder, c.commitment, c.escrow)
  {
  }

  lemma OpeningAccepted(cfg: Config, t: State, rid: U64, bidder: Address, value: I128, nonce: Bytes32, escrow: int)
    requires rid in t.cells
    requires Stands(t.cells[rid], bidder, cfg.sha256(Commitment.Encode(value, nonce)), escrow)
    ensures var cell := t.cells[rid];
            var r := Apply(cfg, t, Reveal(rid, bidder, value, nonce));
            && (r.Ok? <==> cell.round.status == Revealing && t.now <= cell.round.revealDeadline
                           && cell.states[bidder].revealedValue.None?)
            && (r.Ok? ==>
                  && rid in r.value.cells && bidder in r.value.cells[rid].states
                  && r.value.cells[rid].states[bidder].revealedValue == Some(value)
                  && (Candidate(r.value.cells[rid].states, bidder) <==> 0 < value <= escrow))
  {
  }

  /** Unless its bidder overwrites it, an accepted bid stands as committed through whatever is
      called; and anybody who knows its opening can have it recorded while the window is open,
      with the value counting exactly if it is positive and covered. */
  lemma SealedBidStands(cfg: Config, s: State, c: Call, calls: seq<Call>, value: I128, nonce: Bytes32)
    requires StateOk(cfg, s) && c.Commit? && Apply(cfg, s, c).Ok?
    requires forall d | d in calls && d.Commit? && d.rid == c.rid :: d.bidder != c.bidder
    requires cfg.sha256(Commitment.Encode(value, nonce)) == c.commitment
    ensures var t := Exec(cfg, Apply(cfg, s, c).value, calls);
            && c.rid in t.cells && Stands(t.cells[c.rid], c.bidder, c.commitment, c.escrow)
            && var cell := t.cells[c.rid];
               var r := Apply(cfg, t, Reveal(c.rid, c.bidder, value, nonce));
               && (r.Ok? <==> cell.round.status == Revealing && t.now <= cell.round.revealDeadline
                              && cell.states[c.bidder].revealedValue.None?)
               && (r.Ok? ==>
                     && c.rid in r.value.cells && c.bidder in r.value.cells[c.rid].states
                     && r.value.cells[c.rid].states[c.bidder].revealedValue == Some(value)
                     && (Candidate(r.value.cells[c.rid].states, c.bidder) <==> 0 < value <= c.escrow))
  {
    hide StateOk, RoundCall, Candidate;
    StepKeeps(cfg, s, c);
    CommitStands(cfg, s, c);
    RunKeepsBid(cfg, Apply(cfg, s, c).value, calls, c.rid, c.bidder, c.commitment, c.escrow);
    OpeningAccepted(cfg, Exec(cfg, Apply(cfg, s, c).value, calls), c.rid, c.bidder, value, nonce, c.escrow);
  }

  // ---- The void exit can be closed for good ----

  lemma NeverVoided(cfg: Config, s: State, calls: seq<Call>, rid: U64)
    requires StateOk(cfg, s) && rid in s.cells && s.cells[rid].round.revealDeadline + VOID_GRACE >= U64_MAX
    ensures Apply(cfg, Exec(cfg, s, calls), Void(rid)).Err?
  {
    hide StateOk, Apply, Exec;
    RunKeeps(cfg, s, calls);
    RunGrows(cfg, s, calls);
    VoidAlwaysOpen(cfg, Exec(cfg, s, calls), rid);
  }

  lemma WaitThenVoid(cfg: Config, s: State, rid: U64) returns (calls: seq<Call>)
    requires StateOk(cfg, s) && rid in s.cells && s.cells[rid].round.status == Open
    requires s.cells[rid].round.revealDeadline + VOID_GRACE < U64_MAX
    ensures Apply(cfg, Exec(cfg, s, calls), Void(rid)).Ok?
  {
    var due := s.cells[rid].round.revealDeadline + VOID_GRACE + 1;
    var wait := if s.now < due then due - s.now else 0;
    calls := [Advance(wait)];
    assert calls[1..] == [];
    var t := s.(now := s.now + wait);
    assert Next(cfg, s, Advance(wait)) == t;
    hide StateOk, Apply, Next, Grows;
    assert Exec(cfg, s, calls) == Exec(cfg, t, []) == t;
    TimePasses(cfg, s, wait);
    VoidAlwaysOpen(cfg, t, rid);
  }

  /** An open round can ever be voided if and only if its deadline plus the grace period is
      below the largest ledger time; whatever else is called makes no difference. */
  lemma VoidEverPossible(cfg: Config, s: State, rid: U64)
    requires StateOk(cfg, s) && rid in s.cells && s.cells[rid].round.status == Open
    ensures (exists calls :: Apply(cfg, Exec(cfg, s, calls), Void(rid)).Ok?)
            <==> s.cells[rid].round.revealDeadline + VOID_GRACE < U64_MAX
  {
    hide StateOk, Apply, Exec;
    if s.cells[rid].round.revealDeadline + VOID_GRACE < U64_MAX {
      var calls := WaitThenVoid(cfg, s, rid);
    } else {
      forall calls: seq<Call>
        ensures Apply(cfg, Exec(cfg, s, calls), Void(rid)).Err?
      {
        NeverVoided(cfg, s, calls, rid);
      }
    }
  }

  /** Such rounds exist: one whose reveal deadline is the largest 64-bit number is accepted,
      voiding it traps, and no continuation of the run ever voids it. */
  lemma UnvoidableRound(cfg: Config, calls: seq<Call>)
    requires Sample(cfg)
    ensures var s := Exec(cfg, Deployed(cfg, FUNDS), [Creation(U64_MAX)]);
            && 1 in s.cells && s.cells[1].round.status == Open
            && Apply(cfg, s, Void(1)) == Err(Trap)
            && Apply(cfg, Exec(cfg, s, calls), Void(1)).Err?
  {
    var s := Exec(cfg, Deployed(cfg, FUNDS), [Creation(U64_MAX)]);
    Created(cfg, U64_MAX);
    RunKeeps(cfg, Deployed(cfg, FUNDS), [Creation(U64_MAX)]);
    hide StateOk, Exec;
    NeverVoided(cfg, s, calls, 1);
  }
}

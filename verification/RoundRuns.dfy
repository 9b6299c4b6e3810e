/** Whole runs: any finite list of calls on any number of rounds, refused calls included,
    with time passing, seals expiring and outsiders moving tokens in between. */
module RoundRuns {
  import opened Common
  import opened Token
  import opened RoundTypes
  import opened RoundSpec
  import opened Accounts
  import opened Clearing
  import opened RoundInvariant

  function TotalHeld(cells: map<U64, Cell>, n: nat): int {
    if n == 0 then 0 else TotalHeld(cells, n - 1) + if n in cells then Held(cells[n]) else 0
  }

  ghost predicate Numbered(cells: map<U64, Cell>, n: U64) {
    forall rid :: rid in cells <==> 1 <= rid <= n
  }

  ghost predicate CellsOk(cfg: Config, cells: map<U64, Cell>) {
    forall rid | rid in cells :: CellOk(cfg, cells[rid])
  }

  lemma CellsPut(cfg: Config, cells: map<U64, Cell>, rid: U64, cell: Cell)
    requires CellsOk(cfg, cells) && CellOk(cfg, cell)
    ensures CellsOk(cfg, cells[rid := cell])
  {
    forall id | id in cells && id != rid
      ensures cells[rid := cell][id] == cells[id]
    {
    }
  }

  /** Rounds are numbered from 1, each is in order, and the contract's balance is what it
      owes plus what it was given. */
  ghost predicate StateOk(cfg: Config, s: State) {
    && Numbered(s.cells, s.counter)
    && CellsOk(cfg, s.cells)
    && Bal(s.balances, cfg.self) == s.donated + TotalHeld(s.cells, s.counter)
  }

  lemma {:induction false} TotalFrame(cells: map<U64, Cell>, cells': map<U64, Cell>, n: nat)
    requires forall rid | 1 <= rid <= n ::
               (rid in cells <==> rid in cells') && (rid in cells ==> Held(cells[rid]) == Held(cells'[rid]))
    ensures TotalHeld(cells, n) == TotalHeld(cells', n)
  {
    if n > 0 { TotalFrame(cells, cells', n - 1); }
  }

  lemma {:induction false} TotalUpdate(cells: map<U64, Cell>, n: nat, rid: U64, cell: Cell)
    requires 1 <= rid <= n && rid in cells
    ensures TotalHeld(cells[rid := cell], n) == TotalHeld(cells, n) - Held(cells[rid]) + Held(cell)
  {
    if n == rid {
      TotalFrame(cells, cells[rid := cell], n - 1);
    } else {
      TotalUpdate(cells, n - 1, rid, cell);
    }
  }

  lemma {:induction false} TotalCovers(cfg: Config, s: State, n: nat, rid: U64)
    requires CellsOk(cfg, s.cells) && rid in s.cells
    ensures 0 <= TotalHeld(s.cells, n)
    ensures 1 <= rid <= n ==> Held(s.cells[rid]) <= TotalHeld(s.cells, n)
  {
    if n > 0 {
      TotalCovers(cfg, s, n - 1, rid);
      if n in s.cells { HeldPositive(cfg, s.cells[n]); }
    }
  }

  lemma HeldPositive(cfg: Config, cell: Cell)
    requires CellOk(cfg, cell)
    ensures 0 <= Held(cell)
  {
    HeldPrefix(cell.states, cell.round.bidders, 0);
  }

  /** The shared balance covers each round on its own. */
  lemma Covered(cfg: Config, s: State, rid: U64)
    requires StateOk(cfg, s) && rid in s.cells
    ensures CellOk(cfg, s.cells[rid])
    ensures 0 <= Held(s.cells[rid]) <= Bal(s.balances, cfg.self)
  {
    HeldPositive(cfg, s.cells[rid]);
    TotalCovers(cfg, s, s.counter, rid);
  }

  lemma RoundCallKeeps(cfg: Config, now: U64, b: Books, c: Call, b': Books)
    requires CellOk(cfg, b.cell) && Held(b.cell) <= Bal(b.balances, cfg.self)
    requires OnRound(c) && (c.Commit? ==> c.bidder != cfg.self)
    requires RoundCall(cfg, now, b, c) == Ok(b')
    ensures CellOk(cfg, b'.cell) && MoneyKept(b, b')
  {
    match c
    case Commit(_, _, _, _, _, _) => CommitKeeps(cfg, now, b, c, b');
    case OpenReveal(_, signature) => OpenKeeps(cfg, now, b, signature);
    case Reveal(_, bidder, value, nonce) => RevealKeeps(cfg, now, b, bidder, value, nonce);
    case Clear(_) => ClearKeeps(cfg, b, b', now);
    case Settle(_) => SettleKeeps(cfg, b);
    case Void(_) => VoidKeeps(cfg, b, b', now);
    case ExpireSeal(_, bidder) => ExpireKeeps(cfg, b.cell, bidder);
  }

  lemma ContractOwes(cfg: Config, cell: Cell)
    requires CellOk(cfg, cell)
    ensures Net(cell.moves, cfg.self) == -Held(cell)
  {
    assert Net(cell.moves, cfg.self) == Due(cfg, cell, cfg.self);
  }

  lemma RoundStepKeeps(cfg: Config, s: State, c: Call)
    requires StateOk(cfg, s) && OnRound(c) && Apply(cfg, s, c).Ok?
    ensures StateOk(cfg, Apply(cfg, s, c).value)
    ensures Supply(Apply(cfg, s, c).value.balances) == Supply(s.balances)
  {
    hide CellOk, CellsOk, TotalHeld, Held, Supply, RoundCall;
    var b := BooksOf(s, c.rid);
    Covered(cfg, s, c.rid);
    var b' := RoundCall(cfg, s.now, b, c).value;
    RoundCallKeeps(cfg, s.now, b, c, b');
    ContractOwes(cfg, b.cell);
    ContractOwes(cfg, b'.cell);
    assert Bal(b'.balances, cfg.self) + Net(b'.cell.moves, cfg.self)
        == Bal(b.balances, cfg.self) + Net(b.cell.moves, cfg.self);
    TotalUpdate(s.cells, s.counter, c.rid, b'.cell);
    CellsPut(cfg, s.cells, c.rid, b'.cell);
    assert Numbered(s.cells[c.rid := b'.cell], s.counter);
  }

  lemma TotalCreate(cells: map<U64, Cell>, n: nat, cell: Cell)
    requires n < U64_MAX && cell.round.bidders == []
    ensures TotalHeld(cells[n + 1 := cell], n + 1) == TotalHeld(cells, n)
  {
    TotalFrame(cells, cells[n + 1 := cell], n);
    assert Held(cell) == 0;
  }

  lemma FreshIndex(c: Call)
    requires c.CreateRound?
    ensures NewRound(c).round.bidders == []
  {
  }

  lemma CreateStepKeeps(cfg: Config, s: State, c: Call)
    requires StateOk(cfg, s) && c.CreateRound? && CreateCheck(cfg, s.now, c).None? && s.counter < U64_MAX
    ensures StateOk(cfg, s.(counter := s.counter + 1, cells := s.cells[s.counter + 1 := NewRound(c)]))
  {
    hide CellOk, CellsOk, TotalHeld, Numbered, CreateCheck, NewRound;
    FreshIndex(c);
    TotalCreate(s.cells, s.counter, NewRound(c));
    CreateKeeps(cfg, s.now, c);
    CellsPut(cfg, s.cells, s.counter + 1, NewRound(c));
    NumberedNext(s.cells, s.counter, NewRound(c));
  }

  lemma NumberedNext(cells: map<U64, Cell>, n: U64, cell: Cell)
    requires Numbered(cells, n) && n < U64_MAX
    ensures Numbered(cells[n + 1 := cell], n + 1)
  {
  }

  lemma OutsideStepKeeps(cfg: Config, s: State, c: Call)
    requires StateOk(cfg, s) && c.Outside? && Apply(cfg, s, c).Ok?
    ensures StateOk(cfg, Apply(cfg, s, c).value)
    ensures Supply(Apply(cfg, s, c).value.balances) == Supply(s.balances)
  {
    hide CellsOk, Numbered, TotalHeld, Supply;
    TransferKeepsSupply(s.balances, c.from, c.to, c.amount);
  }

  lemma AdvanceStepKeeps(cfg: Config, s: State, c: Call)
    requires StateOk(cfg, s) && c.Advance? && Apply(cfg, s, c).Ok?
    ensures StateOk(cfg, Apply(cfg, s, c).value)
  {
  }

  lemma StepKeeps(cfg: Config, s: State, c: Call)
    requires StateOk(cfg, s)
    ensures StateOk(cfg, Next(cfg, s, c))
    ensures Supply(Next(cfg, s, c).balances) == Supply(s.balances)
  {
    hide StateOk, Supply, RoundCall, CreateCheck;
    if Apply(cfg, s, c).Ok? {
      if OnRound(c) {
        RoundStepKeeps(cfg, s, c);
      } else if c.CreateRound? {
        CreateStepKeeps(cfg, s, c);
      } else if c.Outside? {
        OutsideStepKeeps(cfg, s, c);
      } else {
        AdvanceStepKeeps(cfg, s, c);
      }
    }
  }

  lemma {:induction false} RunKeeps(cfg: Config, s: State, calls: seq<Call>)
    requires StateOk(cfg, s)
    ensures StateOk(cfg, Exec(cfg, s, calls))
    ensures Supply(Exec(cfg, s, calls).balances) == Supply(s.balances)
    decreases |calls|
  {
    if calls != [] {
      StepKeeps(cfg, s, calls[0]);
      RunKeeps(cfg, Next(cfg, s, calls[0]), calls[1..]);
    }
  }

  lemma {:induction false} ExecAppend(cfg: Config, s: State, first: seq<Call>, then': seq<Call>)
    ensures Exec(cfg, s, first + then') == Exec(cfg, Exec(cfg, s, first), then')
    decreases |first|
  {
    if first == [] {
      assert first + then' == then';
    } else {
      assert (first + then')[1..] == first[1..] + then';
      ExecAppend(cfg, Next(cfg, s, first[0]), first[1..], then');
    }
  }

  // ---- Main results over runs from deployment ----

  /** At every moment of every run the contract holds exactly the escrow it still owes, over
      all rounds together, plus what outsiders gave it; and no token appears or disappears. */
  lemma Conservation(cfg: Config, balances: Balances, calls: seq<Call>)
    ensures var s := Exec(cfg, Deployed(cfg, balances), calls);
            && StateOk(cfg, s)
            && Bal(s.balances, cfg.self) == s.donated + TotalHeld(s.cells, s.counter)
            && Supply(s.balances) == Supply(balances)
  {
    RunKeeps(cfg, Deployed(cfg, balances), calls);
  }

  lemma FinalNets(cfg: Config, cell: Cell, a: Address)
    requires CellOk(cfg, cell) && Final(cell.round.status)
    ensures Held(cell) == 0
    ensures Net(cell.moves, a) == if a == cfg.self then 0 else Price(cell.round, a)
  {
    assert Net(cell.moves, a) == Due(cfg, cell, a);
    AllSettled(cell.states, cell.round.bidders);
  }

  /** Over the whole life of a round everybody's net payment is what the auction says: the
      winner pays the winning bid and nobody else pays anything, the operator earns exactly
      the winning bid (an operator who also bids nets the two), the contract keeps nothing. */
  lemma NetPayments(cfg: Config, balances: Balances, calls: seq<Call>, rid: U64, a: Address)
    requires rid in Exec(cfg, Deployed(cfg, balances), calls).cells
    ensures var cell := Exec(cfg, Deployed(cfg, balances), calls).cells[rid];
            && (cell.round.status == Settled && a != cfg.self ==>
                  cell.round.winner.Some? && cell.round.winningBid > 0
                  && Net(cell.moves, a) == (if a == cell.round.winner.value then cell.round.winningBid else 0)
                                           - (if a == cell.round.operator then cell.round.winningBid else 0))
            && (cell.round.status == Voided ==> Net(cell.moves, a) == 0)
            && (Final(cell.round.status) ==> Held(cell) == 0 && Net(cell.moves, cfg.self) == 0)
            && (!Final(cell.round.status) && a != cfg.self ==>
                  Net(cell.moves, a) == if a in cell.states then cell.states[a].escrow else 0)
  {
    RunKeeps(cfg, Deployed(cfg, balances), calls);
    var cell := Exec(cfg, Deployed(cfg, balances), calls).cells[rid];
    assert CellOk(cfg, cell);
    if Final(cell.round.status) {
      FinalNets(cfg, cell, a);
      FinalNets(cfg, cell, cfg.self);
    } else {
      assert Net(cell.moves, a) == Due(cfg, cell, a);
    }
    if cell.round.status == Settled {
      var k: nat :| WinsAt(cell, |cell.round.bidders|, k) && cell.round.bidders[k] == cell.round.winner.value;
      assert cell.states[cell.round.bidders[k]].valid;
    }
  }

  /** The exits cannot be blocked: each is accepted exactly when its status and time
      conditions hold, never refused for lack of funds. */
  lemma SettleAlwaysOpen(cfg: Config, s: State, rid: U64)
    requires StateOk(cfg, s)
    ensures Apply(cfg, s, Settle(rid)).Ok? <==> rid in s.cells && s.cells[rid].round.status == Cleared
    ensures Apply(cfg, s, Settle(rid)).Ok? ==>
              var after := Apply(cfg, s, Settle(rid)).value.cells[rid];
              after.round.status == Settled && Held(after) == 0
  {
    if rid in s.cells && s.cells[rid].round.status == Cleared {
      Covered(cfg, s, rid);
      hide StateOk, SettleFirst, Held;
      SettleKeeps(cfg, BooksOf(s, rid));
      SettledStatus(cfg, BooksOf(s, rid));
      hide CellOk;
    }
  }

  lemma SettledStatus(cfg: Config, b: Books)
    ensures SettleBooks(cfg, b).Ok? ==> SettleBooks(cfg, b).value.cell.round.status == Settled
  {
    hide SettleFirst;
  }

  lemma VoidAlwaysOpen(cfg: Config, s: State, rid: U64)
    requires StateOk(cfg, s)
    ensures Apply(cfg, s, Void(rid)).Ok? <==>
              && rid in s.cells && s.cells[rid].round.status == Open
              && s.now > s.cells[rid].round.revealDeadline + VOID_GRACE
    ensures Apply(cfg, s, Void(rid)) == Err(Trap) <==>
              rid in s.cells && s.cells[rid].round.status == Open
              && s.cells[rid].round.revealDeadline + VOID_GRACE > U64_MAX
    ensures Apply(cfg, s, Void(rid)).Ok? ==>
              var after := Apply(cfg, s, Void(rid)).value.cells[rid];
              after.round.status == Voided && Held(after) == 0
  {
    hide StateOk, CellOk, Held, RefundFirst;
    if rid in s.cells && s.cells[rid].round.status == Open {
      Covered(cfg, s, rid);
      VoidedCell(cfg, BooksOf(s, rid));
    }
  }

  lemma VoidedCell(cfg: Config, b: Books)
    requires CellOk(cfg, b.cell) && b.cell.round.status == Open && Held(b.cell) <= Bal(b.balances, cfg.self)
    ensures var r := RefundFirst(cfg, SetStatus(b, Voided), b.cell.round.bidders);
            r.Some? && r.value.cell.round.status == Voided && Held(r.value.cell) == 0
  {
    RefundPaysOut(cfg, b);
    RefundKeeps(cfg, b);
  }

  /** After `clear` the round is Cleared with the earliest of the best bids, or - exactly when
      no valid bid was revealed - Voided with every escrow back. */
  lemma ClearDecides(cfg: Config, s: State, rid: U64)
    requires StateOk(cfg, s)
    ensures Apply(cfg, s, Clear(rid)).Ok? <==>
              rid in s.cells && s.cells[rid].round.status == Revealing && s.now > s.cells[rid].round.revealDeadline
    ensures Apply(cfg, s, Clear(rid)).Ok? ==>
              ClearOutcome(cfg, s.cells[rid], Apply(cfg, s, Clear(rid)).value.cells[rid])
  {
    if rid in s.cells && s.cells[rid].round.status == Revealing && s.now > s.cells[rid].round.revealDeadline {
      Covered(cfg, s, rid);
      ClearedCell(cfg, BooksOf(s, rid), s.now);
    }
  }

  ghost predicate ClearOutcome(cfg: Config, before: Cell, after: Cell) {
    if NoCandidate(before) then
      after.round.status == Voided && after.round.winner.None? && Held(after) == 0
      && forall a :: Net(after.moves, a) == 0
    else
      after.round.status == Cleared && after.round.winner.Some?
      && IsWinner(before, after.round.winner.value, after.round.winningBid)
      && after.moves == before.moves && after.states == before.states
  }

  lemma ClearedCell(cfg: Config, b: Books, now: U64)
    requires CellOk(cfg, b.cell) && Held(b.cell) <= Bal(b.balances, cfg.self)
    requires b.cell.round.status == Revealing && now > b.cell.round.revealDeadline
    ensures ClearBooks(cfg, now, b).Ok? && ClearOutcome(cfg, b.cell, ClearBooks(cfg, now, b).value.cell)
  {
    var leader := Leader(b.cell, |b.cell.round.bidders|);
    if leader.None? {
      LeaderIsTheWinner(b.cell, cfg.self, 0);
      NobodyWins(cfg, b);
    } else {
      LeaderIsTheWinner(b.cell, leader.value.0, leader.value.1);
    }
  }

  lemma NobodyWins(cfg: Config, b: Books)
    requires CellOk(cfg, b.cell) && Held(b.cell) <= Bal(b.balances, cfg.self)
    requires b.cell.round.status == Revealing && NoCandidate(b.cell)
    ensures var r := RefundFirst(cfg, SetStatus(b, Voided), b.cell.round.bidders);
            r.Some? && ClearOutcome(cfg, b.cell, r.value.cell)
  {
    RefundPaysOut(cfg, b);
    RefundKeeps(cfg, b);
    var after := RefundFirst(cfg, SetStatus(b, Voided), b.cell.round.bidders).value.cell;
    forall a { FinalNets(cfg, after, a); }
  }
}

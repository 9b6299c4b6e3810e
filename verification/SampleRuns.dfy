/** Small concrete runs from deployment: one operator, one bidder, round 1.  They are where
    the counterexamples of the other modules come from. */
module SampleRuns {
  import opened Common
  import opened Token
  import opened RoundTypes
  import opened RoundSpec
  import opened RoundRuns

  const CREATOR := Account(1)
  const BIDDER := Account(2)
  const FUNDS: Balances := map[BIDDER := 80]

  predicate Sample(cfg: Config) {
    cfg.self != CREATOR && cfg.self != BIDDER && cfg.genesis == 1000 && cfg.period == 30
  }

  /** Beacon round 10 is due at 1300. */
  function Creation(revealDeadline: U64): Call {
    CreateRound(CREATOR, seq(32, i => 0), 10, HighestBid, 1200, revealDeadline, [])
  }

  function Bid(auditorBlob: Bytes): Call { Commit(1, BIDDER, seq(32, i => 0), [7], 50, auditorBlob) }

  lemma ExecTwo(cfg: Config, s: State, a: Call, b: Call)
    ensures Exec(cfg, s, [a, b]) == Next(cfg, Next(cfg, s, a), b)
  {
    hide Next;
    assert [a, b][1..] == [b] && [b][1..] == [];
    assert Exec(cfg, s, [a, b]) == Exec(cfg, Next(cfg, s, a), [b]);
  }

  lemma Created(cfg: Config, revealDeadline: U64)
    requires Sample(cfg) && revealDeadline > 1300
    ensures Exec(cfg, Deployed(cfg, FUNDS), [Creation(revealDeadline)])
            == Deployed(cfg, FUNDS).(counter := 1, cells := map[1 := NewRound(Creation(revealDeadline))])
  {
    var c := Creation(revealDeadline);
    var s0 := Deployed(cfg, FUNDS);
    assert [c][1..] == [];
    assert Next(cfg, s0, c) == s0.(counter := 1, cells := map[1 := NewRound(c)]);
  }

  lemma Committed(cfg: Config, revealDeadline: U64, auditorBlob: Bytes)
    requires Sample(cfg) && revealDeadline > 1300 && |auditorBlob| <= MAX_AUDITOR_BLOB
    ensures var s := Exec(cfg, Deployed(cfg, FUNDS), [Creation(revealDeadline), Bid(auditorBlob)]);
            && s.now == 0 && 1 in s.cells
            && s.cells[1].round == NewRound(Creation(revealDeadline)).round.(bidders := [BIDDER])
            && s.cells[1].states == map[BIDDER := FreshBid(Bid(auditorBlob))]
            && s.cells[1].seals == map[BIDDER := Seal([7], auditorBlob)]
  {
    var calls := [Creation(revealDeadline), Bid(auditorBlob)];
    var s0 := Deployed(cfg, FUNDS);
    Created(cfg, revealDeadline);
    assert [calls[0]][1..] == [] && calls[1..][1..] == [];
    var s1 := Next(cfg, s0, calls[0]);
    assert Exec(cfg, s0, [calls[0]]) == s1;
    assert Exec(cfg, s0, calls) == Exec(cfg, s1, calls[1..]) == Next(cfg, s1, calls[1]);
    assert CommitBooks(cfg, 0, BooksOf(s1, 1), calls[1]).Ok?;
  }

  /** One bid, whose ciphertext is a single byte, and the window opened a second after R is due. */
  function OpenedRun(revealDeadline: U64, signature: Bytes): seq<Call> {
    [Creation(revealDeadline), Bid([8])] + [Advance(1301), OpenReveal(1, signature)]
  }

  lemma WindowOpened(cfg: Config, s: State, signature: Bytes)
    requires s.now == 0 && 1 in s.cells && s.cells[1].round.status == Open && s.cells[1].round.commitDeadline <= 1300
    requires cfg.verifies(s.cells[1].round.revealRound, signature)
    ensures var t := Exec(cfg, s, [Advance(1301), OpenReveal(1, signature)]);
            && t.now == 1301 && 1 in t.cells
            && t.cells[1] == s.cells[1].(round := s.cells[1].round.(status := Revealing))
  {
    ExecTwo(cfg, s, Advance(1301), OpenReveal(1, signature));
    hide Exec, CommitBooks;
    assert Next(cfg, s, Advance(1301)) == s.(now := 1301);
  }

  lemma OpenedRound(cfg: Config, revealDeadline: U64, signature: Bytes)
    requires Sample(cfg) && cfg.verifies(10, signature) && revealDeadline > 1300
    ensures var s := Exec(cfg, Deployed(cfg, FUNDS), OpenedRun(revealDeadline, signature));
            && s.now == 1301 && 1 in s.cells && s.cells[1].seals == map[BIDDER := Seal([7], [8])]
            && s.cells[1].round == NewRound(Creation(revealDeadline)).round.(bidders := [BIDDER], status := Revealing)
            && s.cells[1].states == map[BIDDER := FreshBid(Bid([8]))]
  {
    hide Exec;
    var first, rest := [Creation(revealDeadline), Bid([8])], [Advance(1301), OpenReveal(1, signature)];
    Committed(cfg, revealDeadline, [8]);
    ExecAppend(cfg, Deployed(cfg, FUNDS), first, rest);
    WindowOpened(cfg, Exec(cfg, Deployed(cfg, FUNDS), first), signature);
  }
}

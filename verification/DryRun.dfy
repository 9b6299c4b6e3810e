/** The dry-run predictor (`services/keeper/src/dry-run.ts`) against the keeper itself. */
module DryRun {
  import opened Common
  import opened RoundTypes
  import opened RoundSpec
  import opened RoundInvariant
  import opened RoundRuns
  import opened RoundProgress
  import opened SampleRuns
  import opened SettlementGuard
  import opened Sdk
  import opened KeeperSpec
  import opened Keeper

  datatype Phase = AwaitingDrand | StaleOpen | RevealingBids | AwaitingClear | ReadyToClear | ReadyToSettle | Complete

  function Decide(status: Status, revealDeadline: U64, bidderCount: nat, revealedCount: Option<nat>, now: nat): Phase {
    match status
    case Open => if now > revealDeadline + VOID_GRACE then StaleOpen else AwaitingDrand
    case Revealing =>
      if now > revealDeadline then ReadyToClear
      else if revealedCount.None? || bidderCount > revealedCount.value then RevealingBids
      else AwaitingClear
    case Cleared => ReadyToSettle
    case Settled => Complete
    case Voided => Complete
  }

  function CountRevealed(cell: Cell, bidders: seq<Address>): nat {
    if bidders == [] then 0
    else
      var a := bidders[|bidders| - 1];
      CountRevealed(cell, bidders[..|bidders| - 1])
      + if a in cell.states && cell.states[a].revealedValue.Some? then 1 else 0
  }

  lemma {:induction false} AllCounted(cell: Cell, bidders: seq<Address>)
    ensures CountRevealed(cell, bidders) <= |bidders|
    ensures CountRevealed(cell, bidders) == |bidders| <==>
              forall a | a in bidders :: a in cell.states && cell.states[a].revealedValue.Some?
  {
    if bidders != [] {
      AllCounted(cell, bidders[..|bidders| - 1]);
      assert bidders == bidders[..|bidders| - 1] + [bidders[|bidders| - 1]];
    }
  }

  lemma {:induction false} PassFinds(cfg: Config, beacon: Beacon, rid: U64, cell: Cell, bidders: seq<Address>)
    ensures PassCalls(cfg, beacon, rid, cell, bidders) != [] <==>
              exists a :: a in bidders && Revealable(cfg, beacon, cell, a)
    ensures forall c | c in PassCalls(cfg, beacon, rid, cell, bidders) :: c.Reveal? && c.rid == rid
  {
    if bidders != [] {
      PassFinds(cfg, beacon, rid, cell, bidders[..|bidders| - 1]);
      assert bidders == bidders[..|bidders| - 1] + [bidders[|bidders| - 1]];
    }
  }

  lemma NothingPending(cfg: Config, beacon: Beacon, cell: Cell)
    requires forall a | a in cell.round.bidders :: a in cell.states && cell.states[a].revealedValue.Some?
    ensures forall a | a in cell.round.bidders :: !Revealable(cfg, beacon, cell, a)
  {
  }

  /** What a phase promises about the first call that lands, exactly: voiding, clearing and
      settling without condition; opening when R is out; revealing when the ledger window is
      still open and some pending seal really opens its commitment. */
  ghost predicate Foretells(cfg: Config, beacon: Beacon, s: State, now: nat, rid: U64, phase: Phase,
                            first: Option<Call>)
    requires rid in s.cells
  {
    var cell := s.cells[rid];
    var r := cell.round;
    match phase
    case StaleOpen => first == Some(Void(rid))
    case AwaitingDrand =>
      first == if beacon.serves(r.revealRound) && now >= ExactTime(cfg, r.revealRound)
               then Some(OpenReveal(rid, beacon.signature(r.revealRound))) else None
    case RevealingBids =>
      && (first.Some? ==> first.value.Reveal? && first.value.rid == rid)
      && (first.Some? <==> s.now <= r.revealDeadline
                           && exists a :: a in r.bidders && Revealable(cfg, beacon, cell, a))
    case AwaitingClear => first.None?
    case ReadyToClear => first == Some(Clear(rid))
    case ReadyToSettle => first == Some(Settle(rid))
    case Complete => first.None?
  }

  /** The predicted phase tells the first call a fault-free tick gets accepted. */
  lemma PredictionExact(cfg: Config, beacon: Beacon, s: State, now: nat, rid: U64, revealedCount: Option<nat>)
    requires rid in s.cells && now <= s.now
    requires revealedCount.Some? ==> revealedCount.value == CountRevealed(s.cells[rid], s.cells[rid].round.bidders)
    ensures var r := s.cells[rid].round;
            Foretells(cfg, beacon, s, now, rid, Decide(r.status, r.revealDeadline, |r.bidders|, revealedCount, now),
                      FirstMove(cfg, beacon, s, now, rid))
  {
    hide Revealable;
    var cell := s.cells[rid];
    PassFinds(cfg, beacon, rid, cell, cell.round.bidders);
    AllCounted(cell, cell.round.bidders);
    if forall a | a in cell.round.bidders :: a in cell.states && cell.states[a].revealedValue.Some? {
      NothingPending(cfg, beacon, cell);
    }
  }

  // ---- The dry run as it reads the chain, and a tick after it ----

  /** Read every bid and count the revealed ones; one failed read makes the count unknown. */
  method CountRevealedBids(c: Client, rid: U64, bidders: seq<Address>) returns (count: Option<nat>)
    requires c.Valid()
    modifies c`chain, c`clock, c`landed, c`done, c`lost
    ensures c.Looked()
    ensures c.faultFree && rid in old(c.chain).cells
            && (forall a | a in bidders :: a in old(c.chain).cells[rid].states) ==>
              count == Some(CountRevealed(old(c.chain).cells[rid], bidders))
  {
    hide StateOk, Grows;
    RunGrows(c.cfg, c.chain, []);
    var total := 0;
    for i := 0 to |bidders|
      invariant c.Looked()
      invariant c.faultFree && rid in old(c.chain).cells
                && (forall a | a in bidders :: a in old(c.chain).cells[rid].states) ==>
                  total == CountRevealed(old(c.chain).cells[rid], bidders[..i])
    {
      ghost var before := c.chain;
      var state := c.GetBidState(rid, bidders[i]);
      GrowsTrans(old(c.chain), before, c.chain);
      if state.Failed? { return None; }
      assert bidders[..i + 1][..i] == bidders[..i] && bidders[i] in bidders;
      if state.value.revealedValue.Some? { total := total + 1; }
    }
    assert bidders[..|bidders|] == bidders;
    count := Some(total);
  }

  /** The dry run: read, count, decide; nothing is sent. */
  method Summarize(c: Client, rid: U64) returns (phase: Read<Phase>)
    requires c.Valid()
    modifies c`chain, c`clock, c`landed, c`done, c`lost
    ensures c.Looked()
    ensures c.faultFree && rid in old(c.chain).cells ==>
              && phase.Got?
              && Foretells(c.cfg, c.beacon, old(c.chain), old(c.Now()), rid, phase.value,
                           FirstMove(c.cfg, c.beacon, old(c.chain), old(c.Now()), rid))
  {
    hide StateOk, Grows, Foretells, FirstMove, CountRevealed;
    var now := c.Now();
    var round := c.GetRound(rid);
    if round.Failed? { return Failed; }
    ghost var seen := c.chain;
    if c.faultFree { IndexComplete(c.cfg, seen, rid); }
    var count := CountRevealedBids(c, rid, round.value.bidders);
    GrowsTrans(old(c.chain), seen, c.chain);
    if c.faultFree { PredictionExact(c.cfg, c.beacon, old(c.chain), now, rid, count); }
    phase := Got(Decide(round.value.status, round.value.revealDeadline, |round.value.bidders|, count, now));
  }

  /** A dry run, then a fault-free tick: what was announced is what lands first, unless a
      deadline passes between the start of the one and the end of the other; and when the round
      is foreseeable none can pass. */
  method PredictThenTick(c: Client, rid: U64, guard: Guard?, pollMs: nat)
    returns (phase: Read<Phase>, tick: Option<Tick>)
    requires c.Valid() && c.faultFree && rid in c.chain.cells
    requires guard != null ==> guard.Coherent(c.done) && guard.Idle()
    modifies c`chain, c`clock, c`landed, c`done, c`lost, guard
    ensures c.Valid() && phase.Got? && tick.Some? && old(c.landed) <= c.landed
    ensures var r := old(c.chain).cells[rid].round;
            Foreseeable(c.cfg, c.beacon, r, old(c.Now()))
            || Uncrossed(c.cfg, c.beacon, r, old(c.chain).now, c.chain.now, old(c.Now()), c.Now(), c.Now()) ==>
              Foretells(c.cfg, c.beacon, old(c.chain), old(c.Now()), rid, phase.value,
                        Head(c.landed[|old(c.landed)|..]))
  {
    hide StateOk, Grows, Foretells, FirstMove, Finished, Elsewhere, Overdue;
    ghost var s0, t0 := c.chain, c.Now();
    phase := Summarize(c, rid);
    ghost var s1, t1 := c.chain, c.Now();
    tick := WatchRound(c, rid, guard, pollMs);
    ghost var r := s0.cells[rid].round;
    ClockBehind(c);
    if Foreseeable(c.cfg, c.beacon, r, t0) {
      ForeseeableIsUncrossed(c.cfg, c.beacon, r, s0.now, c.chain.now, t0, c.Now(), c.Now());
    }
    if Uncrossed(c.cfg, c.beacon, r, s0.now, c.chain.now, t0, c.Now(), c.Now()) {
      FirstMoveSteady(c.cfg, c.beacon, s0, s1, t0, t1, rid);
    }
  }

  // ---- Where "revealing" promises nothing ----

  /** "Revealing" can be announced with nothing to reveal: in this run the one pending bid has a
      seal that decrypts to nothing. */
  lemma RevealingWithoutReveal(cfg: Config, beacon: Beacon, signature: Bytes)
    requires Sample(cfg) && cfg.verifies(10, signature) && OpenBid(beacon, [7]).None?
    ensures var s := Exec(cfg, Deployed(cfg, FUNDS), OpenedRun(2000, signature));
            && s.now == 1301 && 1 in s.cells
            && var r := s.cells[1].round;
               && Decide(r.status, r.revealDeadline, |r.bidders|, Some(CountRevealed(s.cells[1], r.bidders)), 1301)
                  == RevealingBids
               && FirstMove(cfg, beacon, s, 1301, 1) == None
  {
    hide Exec;
    OpenedRound(cfg, 2000, signature);
    var cell := Exec(cfg, Deployed(cfg, FUNDS), OpenedRun(2000, signature)).cells[1];
    assert CountRevealed(cell, []) == 0;
    PassFinds(cfg, beacon, 1, cell, [BIDDER]);
  }

  // ---- Where a passing deadline changes the first call ----

  /** R is due one second after this tick starts: nothing is announced, and the tick opens the
      window. */
  lemma CrossingMatters(cfg: Config, beacon: Beacon) returns (k: TickRun)
    requires Sample(cfg) && beacon.serves(10)
    ensures k.s0 == Exec(cfg, Deployed(cfg, FUNDS), [Creation(2000)] + [Advance(1299)])
    ensures TickOk(cfg, beacon, 1, k) && k.t0 == 1299 && k.t2 == 1300
    ensures FirstMove(cfg, beacon, k.s0, k.t0, 1) == None
    ensures Head(k.voids + k.keeps + k.closes) == Some(OpenReveal(1, beacon.signature(10)))
  {
    Created(cfg, 2000);
    ExecAppend(cfg, Deployed(cfg, FUNDS), [Creation(2000)], [Advance(1299)]);
    var created := Exec(cfg, Deployed(cfg, FUNDS), [Creation(2000)]);
    assert [Advance(1299)][1..] == [];
    assert Exec(cfg, created, [Advance(1299)]) == created.(now := 1299);
    var s0 := created.(now := 1299);
    var s1 := OpenedState(s0, 1).(now := 1300);
    k := TickRun(s0, s1, s1, 1299, 1300, 1300, [], [OpenReveal(1, beacon.signature(10))], []);
    assert s1.cells[1].states == map[];
    PassStart(cfg, beacon, 1, OpenedState(s0, 1), s1);
    assert k.keeps[1..] == [];
  }
}

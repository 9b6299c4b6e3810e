/** When a prediction of the dry run can be relied on however slow the tick is that follows: the
    exact condition, which can be checked before the tick starts. */
module SafePrediction {
  import opened Common
  import opened RoundTypes
  import opened RoundSpec
  import opened RoundInvariant
  import opened RoundRuns
  import opened RoundProgress
  import opened Sdk
  import opened KeeperSpec
  import opened Keeper
  import opened DryRun

  lemma VoidedTick(cfg: Config, beacon: Beacon, s: State, t: State, t0: nat, late: nat, rid: U64)
    requires rid in s.cells && s.cells[rid].round.status == Open && TimingOk(cfg, s.cells[rid].round)
    requires t0 <= s.now <= t.now && s.cells[rid].round.revealDeadline + VOID_GRACE < late <= t.now && t0 <= late
    requires Finished(t, rid) && Elsewhere(s, t, rid)
    ensures TickOk(cfg, beacon, rid, TickRun(s, t, t, t0, late, late, [Void(rid)], [], []))
  {
    FinishedIsFinal(t, rid);
    hide Finished, Elsewhere, Kept;
    NothingToClose(rid, t, late);
  }

  /** An Open round within grace: a tick slow enough voids it. */
  lemma LateVoid(cfg: Config, beacon: Beacon, s: State, t0: nat, rid: U64) returns (k: TickRun)
    requires StateOk(cfg, s) && rid in s.cells && s.cells[rid].round.status == Open && t0 <= s.now
    requires t0 <= s.cells[rid].round.revealDeadline + VOID_GRACE < U64_MAX
    ensures TickOk(cfg, beacon, rid, k) && k.s0 == s && k.t0 == t0
    ensures Head(k.voids + k.keeps + k.closes) == Some(Void(rid))
  {
    hide StateOk, Grows, Finished, Elsewhere, Apply, TickOk;
    var due := s.cells[rid].round.revealDeadline + VOID_GRACE + 1;
    var late := if s.now < due then due else s.now;
    var at := s.(now := late);
    TimePasses(cfg, s, late - s.now);
    RoundTiming(cfg, s, rid);
    VoidAlwaysOpen(cfg, at, rid);
    VoidEnds(cfg, at, rid);
    var t := Apply(cfg, at, Void(rid)).value;
    ElsewhereTime(s, at, t, rid);
    VoidedTick(cfg, beacon, s, t, t0, late, rid);
    k := TickRun(s, t, t, t0, late, late, [Void(rid)], [], []);
  }

  /** What a pass over a Revealing round leaves when it is over at `late`. */
  lemma LatePass(cfg: Config, beacon: Beacon, from: State, late: U64, rid: U64) returns (t: State, pass: seq<Call>)
    requires rid in from.cells && from.now <= late
    requires late <= from.cells[rid].round.revealDeadline || from.now > from.cells[rid].round.revealDeadline
    ensures Passed(cfg, beacon, rid, from, t, pass) && t.now == late
    ensures rid in t.cells && t.cells[rid].round == from.cells[rid].round && Elsewhere(from, t, rid)
  {
    hide PassCalls;
    var cell := from.cells[rid];
    var bidders := cell.round.bidders;
    var inTime := late <= cell.round.revealDeadline;
    var after := if inTime then PassCell(cfg, beacon, cell, bidders) else cell;
    pass := if inTime then PassCalls(cfg, beacon, rid, cell, bidders) else [];
    t := from.(now := late, cells := from.cells[rid := after]);
    assert bidders[..|bidders|] == bidders;
    assert after.states.Keys == cell.states.Keys && after == cell.(states := after.states);
  }

  lemma OpenedTick(cfg: Config, beacon: Beacon, s: State, s1: State, pass: seq<Call>, t0: nat, due: nat, rid: U64)
    requires rid in s.cells && s.cells[rid].round.status == Open && TimingOk(cfg, s.cells[rid].round)
    requires beacon.serves(s.cells[rid].round.revealRound)
    requires t0 < due == ExactTime(cfg, s.cells[rid].round.revealRound)
    requires t0 <= s.now <= s1.now && due <= s1.now
    requires Passed(cfg, beacon, rid, OpenedState(s, rid), s1, pass) && Elsewhere(OpenedState(s, rid), s1, rid)
    requires rid in s1.cells && s1.cells[rid].round == OpenedCell(s.cells[rid]).round
    ensures var opening := OpenReveal(rid, beacon.signature(s.cells[rid].round.revealRound));
            TickOk(cfg, beacon, rid, TickRun(s, s1, s1, t0, due, due, [], [opening] + pass, []))
  {
    hide PassedUpTo, Finished;
    var keeps := [OpenReveal(rid, beacon.signature(s.cells[rid].round.revealRound))] + pass;
    assert keeps[1..] == pass;
    OpenedElsewhere(s, rid);
    ThroughElsewhere(s, OpenedState(s, rid), s1, rid);
    assert Kept(cfg, beacon, rid, s, s1, keeps, t0, due);
    assert Closed(rid, s1, s1, [], due, due);
  }

  lemma OpenedElsewhere(s: State, rid: U64)
    requires rid in s.cells
    ensures Elsewhere(s, OpenedState(s, rid), rid)
  {
  }

  lemma ThroughElsewhere(s: State, t: State, u: State, rid: U64)
    requires Elsewhere(s, t, rid) && Elsewhere(t, u, rid)
    ensures Elsewhere(s, u, rid)
  {
  }

  /** An Open round whose R is not due yet, on a beacon that will serve it: a tick slow enough
      opens it. */
  lemma LateOpen(cfg: Config, beacon: Beacon, s: State, t0: nat, rid: U64) returns (k: TickRun)
    requires StateOk(cfg, s) && rid in s.cells && s.cells[rid].round.status == Open && t0 <= s.now
    requires beacon.serves(s.cells[rid].round.revealRound) && t0 < ExactTime(cfg, s.cells[rid].round.revealRound)
    ensures TickOk(cfg, beacon, rid, k) && k.s0 == s && k.t0 == t0
    ensures Head(k.voids + k.keeps + k.closes)
            == Some(OpenReveal(rid, beacon.signature(s.cells[rid].round.revealRound)))
  {
    hide StateOk, TickOk, Passed, Elsewhere;
    RoundTiming(cfg, s, rid);
    var r := s.cells[rid].round;
    var due := ExactTime(cfg, r.revealRound);
    var late := if s.now < due then due else s.now;
    var s1, pass := LatePass(cfg, beacon, OpenedState(s, rid), late, rid);
    OpenedTick(cfg, beacon, s, s1, pass, t0, due, rid);
    k := TickRun(s, s1, s1, t0, due, due, [], [OpenReveal(rid, beacon.signature(r.revealRound))] + pass, []);
  }

  /** What closing a Revealing round at the state `at` does, past its deadline. */
  lemma ClosedAt(cfg: Config, at: State, rid: U64, clock: nat) returns (t: State, closes: seq<Call>)
    requires StateOk(cfg, at) && rid in at.cells && at.cells[rid].round.status == Revealing
    requires at.cells[rid].round.revealDeadline < clock <= at.now
    ensures closes != [] && closes[0] == Clear(rid) && t.now == at.now && Closed(rid, at, t, closes, clock, clock)
  {
    ClearLands(cfg, at, rid);
    ClearEnds(cfg, at, rid);
    StepKeeps(cfg, at, Clear(rid));
    hide StateOk, Apply, Finished, Elsewhere;
    t, closes := Apply(cfg, at, Clear(rid)).value, [Clear(rid)];
    assert Next(cfg, at, Clear(rid)) == t;
    if t.cells[rid].round.status == Cleared {
      ghost var mid := t;
      SettleAlwaysOpen(cfg, mid, rid);
      SettleEnds(cfg, mid, rid);
      t, closes := Apply(cfg, mid, Settle(rid)).value, [Clear(rid), Settle(rid)];
      ThroughElsewhere(at, mid, t, rid);
    }
  }

  lemma ClearedTick(cfg: Config, beacon: Beacon, s: State, at: State, t: State, closes: seq<Call>, t0: nat, rid: U64)
    requires rid in s.cells && s.cells[rid].round.status == Revealing && TimingOk(cfg, s.cells[rid].round)
    requires t0 <= s.now <= at.now && at == s.(now := at.now) && at.now > s.cells[rid].round.revealDeadline
    requires Closed(rid, at, t, closes, at.now, at.now) && t.now == at.now
    ensures TickOk(cfg, beacon, rid, TickRun(s, at, t, t0, at.now, at.now, [], [], closes))
  {
    hide Closed, PassCell, PassCalls, Finished;
    assert s.cells[rid := s.cells[rid]] == s.cells;
    assert Passed(cfg, beacon, rid, s, at, []);
    assert Elsewhere(s, at, rid);
  }

  /** A Revealing round within its window: a tick slow enough only comes to clear it. */
  lemma LateClear(cfg: Config, beacon: Beacon, s: State, t0: nat, rid: U64) returns (k: TickRun)
    requires StateOk(cfg, s) && rid in s.cells && s.cells[rid].round.status == Revealing && t0 <= s.now
    requires t0 <= s.cells[rid].round.revealDeadline < U64_MAX
    ensures TickOk(cfg, beacon, rid, k) && k.s0 == s && k.t0 == t0
    ensures Head(k.voids + k.keeps + k.closes) == Some(Clear(rid))
  {
    hide StateOk, Grows, Closed, TickOk;
    var deadline := s.cells[rid].round.revealDeadline;
    var late := if s.now <= deadline then deadline + 1 else s.now;
    var at := s.(now := late);
    TimePasses(cfg, s, late - s.now);
    RoundTiming(cfg, s, rid);
    var t, closes := ClosedAt(cfg, at, rid, late);
    ClearedTick(cfg, beacon, s, at, t, closes, t0, rid);
    k := TickRun(s, at, t, t0, late, late, [], [], closes);
  }

  /** Whether a prediction made now can be relied on, however long the tick then takes: exactly
      when the round is foreseeable, which can be checked before the tick starts. */
  lemma PredictionSafe(cfg: Config, beacon: Beacon, s: State, t0: nat, rid: U64)
    requires StateOk(cfg, s) && rid in s.cells && t0 <= s.now
    ensures (forall k | TickOk(cfg, beacon, rid, k) && k.s0 == s && k.t0 == t0 ::
               Head(k.voids + k.keeps + k.closes) == FirstMove(cfg, beacon, s, t0, rid))
            <==> Foreseeable(cfg, beacon, s.cells[rid].round, t0)
  {
    var r := s.cells[rid].round;
    if Foreseeable(cfg, beacon, r, t0) {
      forall k | TickOk(cfg, beacon, rid, k) && k.s0 == s && k.t0 == t0
        ensures Head(k.voids + k.keeps + k.closes) == FirstMove(cfg, beacon, s, t0, rid)
      {
        TickLedger(cfg, beacon, rid, k);
        ForeseeableIsUncrossed(cfg, beacon, r, s.now, k.s1.now, t0, k.t1, k.t2);
        TickStartsAsPredicted(cfg, beacon, rid, k);
      }
    } else {
      var k := MisledTick(cfg, beacon, s, t0, rid);
    }
  }

  lemma TickLedger(cfg: Config, beacon: Beacon, rid: U64, k: TickRun)
    requires TickOk(cfg, beacon, rid, k)
    ensures k.s0.now <= k.s1.now && k.t0 <= k.t1 <= k.t2 <= U64_MAX
  {
  }

  lemma NoClearYet(cfg: Config, beacon: Beacon, s: State, t0: nat, rid: U64)
    requires rid in s.cells && s.cells[rid].round.status == Revealing && t0 <= s.cells[rid].round.revealDeadline
    ensures FirstMove(cfg, beacon, s, t0, rid) != Some(Clear(rid))
  {
    PassFinds(cfg, beacon, rid, s.cells[rid], s.cells[rid].round.bidders);
    hide PassCalls, Revealable;
  }

  lemma MisledTick(cfg: Config, beacon: Beacon, s: State, t0: nat, rid: U64) returns (k: TickRun)
    requires StateOk(cfg, s) && rid in s.cells && t0 <= s.now
    requires !Foreseeable(cfg, beacon, s.cells[rid].round, t0)
    ensures TickOk(cfg, beacon, rid, k) && k.s0 == s && k.t0 == t0
    ensures Head(k.voids + k.keeps + k.closes) != FirstMove(cfg, beacon, s, t0, rid)
  {
    RoundTiming(cfg, s, rid);
    hide StateOk, TickOk, PassCalls, Revealable;
    var cell := s.cells[rid];
    if cell.round.status == Revealing {
      k := LateClear(cfg, beacon, s, t0, rid);
      NoClearYet(cfg, beacon, s, t0, rid);
    } else if cell.round.revealDeadline + VOID_GRACE < U64_MAX {
      k := LateVoid(cfg, beacon, s, t0, rid);
    } else {
      k := LateOpen(cfg, beacon, s, t0, rid);
    }
  }
}

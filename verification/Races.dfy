/** Two keepers, one round: what the loser of a race is told, and whether it goes on
    (`services/keeper/src/keeper.ts:59-60, 150-158, 205-219, 270-330, 385-395`). */
module Races {
  import opened Common
  import opened RoundTypes
  import opened RoundSpec
  import opened RoundInvariant
  import opened RoundRuns
  import opened RoundProgress
  import opened RoundCalls
  import opened Keeper
  import Commitment

  predicate KeeperCall(c: Call) { c.OpenReveal? || c.Reveal? || c.Clear? || c.Settle? || c.Void? }

  /** Whether the keeper takes such a refusal of its call for granted and goes on; otherwise it
      throws. */
  predicate TakenForGranted(c: Call, e: Error)
    requires KeeperCall(c)
  {
    match c
    case OpenReveal(_, _) => AlreadyOpened(e)
    case Reveal(_, _, _, _) => e in {AlreadyRevealed, HashMismatch, RevealWindowClosed}
    case Clear(_) => ClearAlreadyDone(e)
    case Settle(_) => SettleAlreadyDone(e)
    case Void(_) => VoidRefused(e)
  }

  lemma LostOpening(cfg: Config, s: State, c: Call, u: State)
    requires c.OpenReveal? && Apply(cfg, s, c).Ok? && Grows(Apply(cfg, s, c).value, u)
    ensures Apply(cfg, u, c) == Err(RevealAlreadyOpen) && c.rid in u.cells
  {
    OpenAnswers(cfg, s, c.rid, c.signature);
    OpenAnswers(cfg, u, c.rid, c.signature);
    LaterRound(Apply(cfg, s, c).value, u, c.rid);
  }

  lemma LostReveal(cfg: Config, s: State, c: Call, u: State)
    requires c.Reveal? && Apply(cfg, s, c).Ok? && Grows(Apply(cfg, s, c).value, u)
    ensures Apply(cfg, u, c).Err? && c.rid in u.cells
    ensures u.cells[c.rid].round.status == Revealing ==> Apply(cfg, u, c).error in {AlreadyRevealed, RevealWindowClosed}
    ensures u.cells[c.rid].round.status != Revealing ==> Apply(cfg, u, c).error == RevealNotOpen
  {
    var t := Apply(cfg, s, c).value;
    RevealAnswers(cfg, s, c.rid, c.bidder, c.value, c.nonce);
    RevealAnswers(cfg, u, c.rid, c.bidder, c.value, c.nonce);
    LaterRound(t, u, c.rid);
    StillRevealed(t, u, c.rid, c.bidder);
    hide StateOk, Grows, Apply;
  }

  lemma StillRevealed(t: State, u: State, rid: U64, bidder: Address)
    requires Grows(t, u) && rid in t.cells && t.cells[rid].round.status != Open
    requires bidder in t.cells[rid].states && t.cells[rid].states[bidder].revealedValue.Some?
    ensures bidder in u.cells[rid].states && u.cells[rid].states[bidder].revealedValue.Some?
  {
    assert Later(t.cells[rid], u.cells[rid]);
    assert SameBid(t.cells[rid].states[bidder], u.cells[rid].states[bidder]);
  }

  lemma LostEnding(cfg: Config, s: State, c: Call, u: State)
    requires StateOk(cfg, s) && StateOk(cfg, u) && (c.Clear? || c.Settle? || c.Void?)
    requires Apply(cfg, s, c).Ok? && Grows(Apply(cfg, s, c).value, u)
    ensures Apply(cfg, u, c) == Err(if c.Clear? then RevealNotOpen else if c.Settle? then NotCleared else NotVoidable)
  {
    hide StateOk, Grows, Apply, PaidBack, Best;
    StatusAfter(cfg, s, c);
    LaterRound(Apply(cfg, s, c).value, u, c.rid);
    if c.Clear? {
      ClearAnswers(cfg, u, c.rid);
    } else if c.Settle? {
      SettleAnswers(cfg, u, c.rid);
      assert c == Settle(c.rid);
    } else {
      VoidAnswers(cfg, u, c.rid);
      assert c == Void(c.rid);
    }
  }

  lemma StatusAfter(cfg: Config, s: State, c: Call)
    requires StateOk(cfg, s) && (c.Clear? || c.Settle? || c.Void?) && Apply(cfg, s, c).Ok?
    ensures c.rid in Apply(cfg, s, c).value.cells && Decided(Apply(cfg, s, c).value.cells[c.rid].round.status)
    ensures c.Settle? ==> Apply(cfg, s, c).value.cells[c.rid].round.status == Settled
    ensures c.Void? ==> Apply(cfg, s, c).value.cells[c.rid].round.status == Voided
  {
    if c.Clear? {
      ClearDecides(cfg, s, c.rid);
    } else if c.Settle? {
      SettleAlwaysOpen(cfg, s, c.rid);
    } else {
      VoidAlwaysOpen(cfg, s, c.rid);
    }
  }

  /** Whoever sends a call that somebody else has got accepted before is refused, whatever else
      happened in between; and goes on, except after `clear`, and after a reveal when the round
      has been decided meanwhile - there the refusal is one the keeper does not expect. */
  lemma LostRace(cfg: Config, s: State, c: Call, u: State)
    requires StateOk(cfg, s) && StateOk(cfg, u) && KeeperCall(c)
    requires Apply(cfg, s, c).Ok? && Grows(Apply(cfg, s, c).value, u)
    ensures Apply(cfg, u, c).Err? && c.rid in u.cells
    ensures TakenForGranted(c, Apply(cfg, u, c).error) <==>
              !c.Clear? && (c.Reveal? ==> u.cells[c.rid].round.status == Revealing)
  {
    RoundStays(cfg, s, c, u);
    hide StateOk, Apply, Grows, TakenForGranted;
    ExpectedRefusals(c);
    if c.OpenReveal? {
      LostOpening(cfg, s, c, u);
    } else if c.Reveal? {
      LostReveal(cfg, s, c, u);
    } else {
      LostEnding(cfg, s, c, u);
    }
  }

  /** Which of the refusals above the keeper expects. */
  lemma ExpectedRefusals(c: Call)
    requires KeeperCall(c)
    ensures c.OpenReveal? ==> TakenForGranted(c, RevealAlreadyOpen)
    ensures c.Reveal? ==> TakenForGranted(c, AlreadyRevealed) && TakenForGranted(c, RevealWindowClosed)
                          && !TakenForGranted(c, RevealNotOpen)
    ensures c.Clear? ==> !TakenForGranted(c, RevealNotOpen)
    ensures c.Settle? ==> TakenForGranted(c, NotCleared)
    ensures c.Void? ==> TakenForGranted(c, NotVoidable)
  {
  }

  lemma RoundStays(cfg: Config, s: State, c: Call, u: State)
    requires KeeperCall(c) && Apply(cfg, s, c).Ok? && Grows(Apply(cfg, s, c).value, u)
    ensures c.rid in u.cells
  {
  }
}

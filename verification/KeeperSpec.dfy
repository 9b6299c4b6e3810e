/** What the keeper is supposed to achieve, as functions of the chain it finds: the effect
    of a reveal pass on each bid, and the first call a watch tick gets accepted
    (`services/keeper/src/keeper.ts`). */
module KeeperSpec {
  import opened Common
  import opened RoundTypes
  import opened RoundSpec
  import opened Accounts
  import opened RoundInvariant
  import opened Sdk
  import Commitment

  /** The opening hidden in a bid's seal, if the seal is still stored and decrypts to 48 bytes. */
  function Readable(beacon: Beacon, cell: Cell, a: Address): Option<(I128, Bytes32)> {
    if a in cell.seals then OpenBid(beacon, cell.seals[a].ciphertext) else None
  }

  /** A bid a reveal pass opens: not yet revealed, seal readable, opening fits the commitment. */
  predicate Revealable(cfg: Config, beacon: Beacon, cell: Cell, a: Address) {
    && a in cell.states && cell.states[a].revealedValue.None?
    && Readable(beacon, cell, a).Some?
    && var (value, nonce) := Readable(beacon, cell, a).value;
       cfg.sha256(Commitment.Encode(value, nonce)) == cell.states[a].commitment
  }

  function RevealCall(beacon: Beacon, rid: U64, cell: Cell, a: Address): Call
    requires Readable(beacon, cell, a).Some?
  {
    var (value, nonce) := Readable(beacon, cell, a).value;
    Reveal(rid, a, value, nonce)
  }

  function PassBid(cfg: Config, beacon: Beacon, cell: Cell, a: Address): BidState
    requires a in cell.states
  {
    if Revealable(cfg, beacon, cell, a) then
      var (value, nonce) := Readable(beacon, cell, a).value;
      Recorded(cell.states[a], value, nonce)
    else cell.states[a]
  }

  /** The round after a reveal pass over the listed bidders. */
  function PassCell(cfg: Config, beacon: Beacon, cell: Cell, bidders: seq<Address>): Cell {
    cell.(states := map a | a in cell.states ::
                      if a in bidders then PassBid(cfg, beacon, cell, a) else cell.states[a])
  }

  /** The reveals such a pass lands, in index order. */
  function PassCalls(cfg: Config, beacon: Beacon, rid: U64, cell: Cell, bidders: seq<Address>): seq<Call> {
    if bidders == [] then []
    else
      var a := bidders[|bidders| - 1];
      PassCalls(cfg, beacon, rid, cell, bidders[..|bidders| - 1])
      + if Revealable(cfg, beacon, cell, a) then [RevealCall(beacon, rid, cell, a)] else []
  }

  function OpenedCell(cell: Cell): Cell { cell.(round := cell.round.(status := Revealing)) }

  /** A round that a fault-free tick must be able to end. */
  ghost predicate Overdue(beacon: Beacon, chain: State, clock: nat, rid: U64) {
    && rid in chain.cells
    && var r := chain.cells[rid].round;
       || Final(r.status) || r.status == Cleared
       || clock > r.revealDeadline + VOID_GRACE
       || (clock > r.revealDeadline && (r.status != Open || beacon.serves(r.revealRound)))
  }

  // ---- What each stage of a fault-free tick does to the chain ----

  /** Only round `rid` may differ, and only in its bid states. */
  ghost predicate OnlyBidsChanged(s: State, t: State, rid: U64)
    requires rid in s.cells
  {
    && s.now <= t.now && rid in t.cells
    && t == s.(now := t.now, cells := s.cells[rid := t.cells[rid]])
    && t.cells[rid] == s.cells[rid].(states := t.cells[rid].states)
    && t.cells[rid].states.Keys == s.cells[rid].states.Keys
  }

  /** How far a pass has got after `n` bidders of the index it read. */
  ghost predicate PassedUpTo(cfg: Config, beacon: Beacon, rid: U64, s0: State, s: State, extra: seq<Call>, n: nat)
    requires rid in s0.cells && n <= |s0.cells[rid].round.bidders|
  {
    var cell := s0.cells[rid];
    && OnlyBidsChanged(s0, s, rid)
    && (s.now <= cell.round.revealDeadline ==>
          && s.cells[rid] == PassCell(cfg, beacon, cell, cell.round.bidders[..n])
          && extra == PassCalls(cfg, beacon, rid, cell, cell.round.bidders[..n]))
    && (s0.now > cell.round.revealDeadline ==> s.cells[rid] == cell && extra == [])
  }

  ghost predicate Passed(cfg: Config, beacon: Beacon, rid: U64, s0: State, s: State, extra: seq<Call>)
    requires rid in s0.cells
  {
    PassedUpTo(cfg, beacon, rid, s0, s, extra, |s0.cells[rid].round.bidders|)
  }

  function OpenedState(s: State, rid: U64): State
    requires rid in s.cells
  {
    s.(cells := s.cells[rid := OpenedCell(s.cells[rid])])
  }

  ghost predicate OnlyTime(s: State, t: State, extra: seq<Call>) {
    s.now <= t.now && t == s.(now := t.now) && extra == []
  }

  /** `keepRound`: nothing, or the window opened and every readable seal revealed. */
  ghost predicate Kept(cfg: Config, beacon: Beacon, rid: U64, s: State, t: State, extra: seq<Call>,
                       clock: nat, clock': nat)
    requires rid in s.cells
  {
    var r := s.cells[rid].round;
    match r.status
    case Open =>
      var due := ExactTime(cfg, r.revealRound);
      if extra == [] then OnlyTime(s, t, extra) && !(beacon.serves(r.revealRound) && clock >= due)
      else
        && beacon.serves(r.revealRound) && clock' >= due
        && extra[0] == OpenReveal(rid, beacon.signature(r.revealRound))
        && Passed(cfg, beacon, rid, OpenedState(s, rid), t, extra[1..])
    case Revealing => Passed(cfg, beacon, rid, s, t, extra)
    case _ => OnlyTime(s, t, extra)
  }

  /** Other rounds are as they were. */
  ghost predicate Elsewhere(s: State, t: State, rid: U64) {
    forall id | id != rid :: (id in s.cells <==> id in t.cells) && (id in s.cells ==> t.cells[id] == s.cells[id])
  }

  ghost predicate Finished(s: State, rid: U64) {
    rid in s.cells && Final(s.cells[rid].round.status) && Held(s.cells[rid]) == 0
  }

  lemma FinishedIsFinal(s: State, rid: U64)
    requires Finished(s, rid)
    ensures rid in s.cells && Final(s.cells[rid].round.status)
  {
  }

  /** `closeRound`: nothing while the reveal window is open, otherwise the round ends. */
  ghost predicate Closed(rid: U64, s: State, t: State, extra: seq<Call>, clock: nat, clock': nat)
    requires rid in s.cells
  {
    var r := s.cells[rid].round;
    && s.now <= t.now && Elsewhere(s, t, rid)
    && match r.status
       case Revealing =>
         if extra == [] then OnlyTime(s, t, extra) && clock <= r.revealDeadline
         else extra[0] == Clear(rid) && clock' > r.revealDeadline && Finished(t, rid)
       case Cleared => extra == [Settle(rid)] && Finished(t, rid)
       case _ => OnlyTime(s, t, extra)
  }

  /** `voidIfStale`: nothing, or an Open round past its grace period voided. */
  ghost predicate VoidTried(rid: U64, s: State, t: State, extra: seq<Call>, clock: nat, clock': nat)
    requires rid in s.cells
  {
    var r := s.cells[rid].round;
    && s.now <= t.now && Elsewhere(s, t, rid)
    && if extra == [] then OnlyTime(s, t, extra) && (r.status == Open ==> clock <= r.revealDeadline + VOID_GRACE)
       else r.status == Open && extra == [Void(rid)] && clock' > r.revealDeadline + VOID_GRACE && Finished(t, rid)
  }

  /** The first call a tick gets accepted when it runs at one instant: keeper clock `clock`,
      ledger time `s.now`. */
  function FirstMove(cfg: Config, beacon: Beacon, s: State, clock: nat, rid: U64): Option<Call>
    requires rid in s.cells
  {
    var cell := s.cells[rid];
    var r := cell.round;
    match r.status
    case Open =>
      if clock > r.revealDeadline + VOID_GRACE then Some(Void(rid))
      else if beacon.serves(r.revealRound) && clock >= ExactTime(cfg, r.revealRound) then
        Some(OpenReveal(rid, beacon.signature(r.revealRound)))
      else None
    case Revealing =>
      var pass := PassCalls(cfg, beacon, rid, cell, r.bidders);
      if s.now <= r.revealDeadline && pass != [] then Some(pass[0])
      else if clock > r.revealDeadline then Some(Clear(rid))
      else None
    case Cleared => Some(Settle(rid))
    case _ => None
  }

  /** The first half of a tick: void if stale, otherwise keep. */
  ghost predicate VoidKept(cfg: Config, beacon: Beacon, rid: U64, s: State, t: State,
                           voids: seq<Call>, keeps: seq<Call>, clock: nat, clock': nat)
    requires rid in s.cells
  {
    var r := s.cells[rid].round;
    && s.now <= t.now && Elsewhere(s, t, rid) && rid in t.cells
    && if voids != [] then
         && r.status == Open && voids == [Void(rid)] && clock' > r.revealDeadline + VOID_GRACE
         && Finished(t, rid) && keeps == []
       else
         && (r.status == Open ==> clock <= r.revealDeadline + VOID_GRACE)
         && Kept(cfg, beacon, rid, s, t, keeps, clock, clock')
  }

  /** A whole fault-free tick. */
  datatype TickRun = TickRun(s0: State, s1: State, s2: State, t0: nat, t1: nat, t2: nat,
                             voids: seq<Call>, keeps: seq<Call>, closes: seq<Call>)

  ghost predicate TickOk(cfg: Config, beacon: Beacon, rid: U64, k: TickRun) {
    && rid in k.s0.cells && TimingOk(cfg, k.s0.cells[rid].round)
    && k.t0 <= k.t1 <= k.t2 && k.t0 <= k.s0.now && k.t1 <= k.s1.now && k.t2 <= k.s2.now
    && VoidKept(cfg, beacon, rid, k.s0, k.s1, k.voids, k.keeps, k.t0, k.t1)
    && Closed(rid, k.s1, k.s2, k.closes, k.t1, k.t2)
  }

  /** The end-to-end liveness result: whatever state an overdue round was in, one tick ends
      it and pays everything out. */
  lemma TickFinishesOverdue(cfg: Config, beacon: Beacon, rid: U64, k: TickRun)
    requires TickOk(cfg, beacon, rid, k) && Overdue(beacon, k.s0, k.t0, rid)
    requires CellOk(cfg, k.s0.cells[rid])
    ensures Finished(k.s2, rid)
  {
    var cell := k.s0.cells[rid];
    if Final(cell.round.status) {
      AllSettled(cell.states, cell.round.bidders);
    } else if cell.round.status == Open && k.voids == [] {
      assert k.keeps != [];
      assert k.s1.cells[rid] == OpenedCell(cell);
    }
  }

  /** Enough for the prediction to come true: no deadline of the round that the decision depends
      on passes while a tick runs, from ledger time `now` to `now'`, and on the keeper's clock
      from `clock` over `clock'`, when the round has been kept, to `clock''`. */
  predicate Uncrossed(cfg: Config, beacon: Beacon, r: Round, now: nat, now': nat,
                      clock: nat, clock': nat, clock'': nat)
  {
    match r.status
    case Open =>
      || clock > r.revealDeadline + VOID_GRACE
      || (clock' <= r.revealDeadline + VOID_GRACE
          && (beacon.serves(r.revealRound) ==>
                (clock >= ExactTime(cfg, r.revealRound) <==> clock' >= ExactTime(cfg, r.revealRound))))
    case Revealing =>
      && (now <= r.revealDeadline <==> now' <= r.revealDeadline)
      && (clock <= r.revealDeadline <==> clock'' <= r.revealDeadline)
    case _ => true
  }

  /** The round is past every deadline that matters in its status. */
  predicate PastDeadlines(r: Round, clock: nat) {
    match r.status
    case Open => clock > r.revealDeadline + VOID_GRACE
    case Revealing => clock > r.revealDeadline
    case _ => true
  }

  /** What can be said before a tick starts: every deadline that still matters is past, or lies
      beyond the last second of ledger time. */
  predicate Foreseeable(cfg: Config, beacon: Beacon, r: Round, clock: nat) {
    || PastDeadlines(r, clock)
    || (r.status == Open && r.revealDeadline + VOID_GRACE >= U64_MAX
        && (beacon.serves(r.revealRound) ==> clock >= ExactTime(cfg, r.revealRound)))
    || (r.status == Revealing && r.revealDeadline == U64_MAX)
  }

  /** Then no passing of time can cross a deadline. */
  lemma ForeseeableIsUncrossed(cfg: Config, beacon: Beacon, r: Round, now: nat, now': nat,
                               clock: nat, clock': nat, clock'': nat)
    requires Foreseeable(cfg, beacon, r, clock)
    requires clock <= now <= now' <= U64_MAX && clock <= clock' <= clock'' <= U64_MAX
    ensures Uncrossed(cfg, beacon, r, now, now', clock, clock', clock'')
  {
  }

  /** However long a tick takes, the first call it gets accepted is the predicted one, unless
      a deadline passes meanwhile. */
  lemma TickStartsAsPredicted(cfg: Config, beacon: Beacon, rid: U64, k: TickRun)
    requires TickOk(cfg, beacon, rid, k)
    requires Uncrossed(cfg, beacon, k.s0.cells[rid].round, k.s0.now, k.s1.now, k.t0, k.t1, k.t2)
    ensures Head(k.voids + k.keeps + k.closes) == FirstMove(cfg, beacon, k.s0, k.t0, rid)
  {
    var r := k.s0.cells[rid].round;
    assert r.bidders[..|r.bidders|] == r.bidders;
    if k.voids == [] && k.keeps == [] {
      assert k.s1.cells[rid].round == r;
    }
  }

  /** The prediction itself does not change meanwhile. */
  lemma FirstMoveSteady(cfg: Config, beacon: Beacon, s: State, t: State, clock: nat, clock': nat, rid: U64)
    requires rid in s.cells && s.now <= t.now && t == s.(now := t.now)
    requires Uncrossed(cfg, beacon, s.cells[rid].round, s.now, t.now, clock, clock', clock')
    requires clock <= clock'
    ensures FirstMove(cfg, beacon, s, clock, rid) == FirstMove(cfg, beacon, t, clock', rid)
  {
  }

  function Head(calls: seq<Call>): Option<Call> { if calls == [] then None else Some(calls[0]) }

  // ---- The reveal pass on its own ----

  /** Openings recorded on the bids and openings in the seals never collide. */
  ghost predicate SealsCollisionFree(cfg: Config, beacon: Beacon, cell: Cell) {
    forall a | a in cell.states && Readable(beacon, cell, a).Some?
               && cell.states[a].revealedValue.Some? && cell.states[a].revealedNonce.Some? ::
      var st := cell.states[a];
      var (value, nonce) := Readable(beacon, cell, a).value;
      var p, q := Commitment.Encode(value, nonce), Commitment.Encode(st.revealedValue.value, st.revealedNonce.value);
      cfg.sha256(p) == cfg.sha256(q) ==> p == q
  }

  /** After one pass every bid whose seal opens its commitment is recorded with exactly the
      value in the seal; every other bid is untouched, so a bad seal blocks nobody. */
  lemma PassRecordsSealedValues(cfg: Config, beacon: Beacon, cell: Cell, a: Address)
    requires CellOk(cfg, cell) && SealsCollisionFree(cfg, beacon, cell) && a in cell.states
    ensures var after := PassCell(cfg, beacon, cell, cell.round.bidders);
            && a in after.states
            && if Readable(beacon, cell, a).Some?
                  && cfg.sha256(Commitment.Encode(Readable(beacon, cell, a).value.0, Readable(beacon, cell, a).value.1))
                     == cell.states[a].commitment
               then after.states[a].revealedValue == Some(Readable(beacon, cell, a).value.0)
                    && after.states[a].revealedNonce == Some(Readable(beacon, cell, a).value.1)
               else after.states[a] == cell.states[a]
  {
    if Readable(beacon, cell, a).Some? && cell.states[a].revealedValue.Some? {
      var st := cell.states[a];
      var (value, nonce) := Readable(beacon, cell, a).value;
      if cfg.sha256(Commitment.Encode(value, nonce)) == st.commitment {
        Commitment.EncodeInjective(value, nonce, st.revealedValue.value, st.revealedNonce.value);
      }
    }
  }

  /** A second pass finds nothing left to reveal. */
  lemma PassTwice(cfg: Config, beacon: Beacon, rid: U64, cell: Cell, n: nat)
    requires n <= |cell.round.bidders|
    requires forall a | a in cell.round.bidders :: a in cell.states
    ensures var after := PassCell(cfg, beacon, cell, cell.round.bidders);
            && PassCell(cfg, beacon, after, after.round.bidders) == after
            && PassCalls(cfg, beacon, rid, after, after.round.bidders[..n]) == []
  {
    var after := PassCell(cfg, beacon, cell, cell.round.bidders);
    assert forall a | a in after.round.bidders :: !Revealable(cfg, beacon, after, a);
    assert PassCell(cfg, beacon, after, after.round.bidders).states == after.states;
    NothingRevealable(cfg, beacon, rid, after, after.round.bidders[..n]);
  }

  lemma {:induction false} NothingRevealable(cfg: Config, beacon: Beacon, rid: U64, cell: Cell, bidders: seq<Address>)
    requires forall a | a in bidders :: !Revealable(cfg, beacon, cell, a)
    ensures PassCalls(cfg, beacon, rid, cell, bidders) == []
  {
    if bidders != [] {
      NothingRevealable(cfg, beacon, rid, cell, bidders[..|bidders| - 1]);
    }
  }

  /** What a pass, from a round that is Open or Revealing, leaves of it. */
  lemma KeptLeaves(cfg: Config, beacon: Beacon, rid: U64, s: State, t: State, extra: seq<Call>, t0: nat, t1: nat)
    requires rid in s.cells && Kept(cfg, beacon, rid, s, t, extra, t0, t1)
    requires rid in t.cells && t.cells[rid].round.status == Revealing && t.now <= t.cells[rid].round.revealDeadline
    ensures t.cells[rid] == PassCell(cfg, beacon, OpenedCell(s.cells[rid]), s.cells[rid].round.bidders)
  {
    hide PassCell, PassCalls;
    var bidders := s.cells[rid].round.bidders;
    assert bidders[..|bidders|] == bidders;
    if s.cells[rid].round.status == Revealing { assert OpenedCell(s.cells[rid]) == s.cells[rid]; }
  }

  /** A pass that finds nothing to reveal in an open window. */
  lemma KeptIdle(cfg: Config, beacon: Beacon, rid: U64, t: State, u: State, more: seq<Call>, t2: nat, t3: nat)
    requires rid in t.cells && t.cells[rid].round.status == Revealing
    requires Kept(cfg, beacon, rid, t, u, more, t2, t3) && u.now <= t.cells[rid].round.revealDeadline
    requires PassCell(cfg, beacon, t.cells[rid], t.cells[rid].round.bidders) == t.cells[rid]
    requires PassCalls(cfg, beacon, rid, t.cells[rid], t.cells[rid].round.bidders) == []
    ensures more == [] && u == t.(now := u.now)
  {
    hide PassCell, PassCalls;
    var bidders := t.cells[rid].round.bidders;
    assert bidders[..|bidders|] == bidders;
    assert t.cells[rid := t.cells[rid]] == t.cells;
  }

  /** Two passes in a row over a round whose window is open and stays open: the second lands no
      call and changes nothing but the time. */
  lemma KeptTwice(cfg: Config, beacon: Beacon, rid: U64, s: State, t: State, u: State,
                  extra: seq<Call>, more: seq<Call>, t0: nat, t1: nat, t2: nat, t3: nat)
    requires rid in s.cells && CellOk(cfg, s.cells[rid])
    requires Kept(cfg, beacon, rid, s, t, extra, t0, t1)
    requires rid in t.cells && t.cells[rid].round.status == Revealing
    requires Kept(cfg, beacon, rid, t, u, more, t2, t3)
    requires t.now <= u.now <= t.cells[rid].round.revealDeadline
    ensures more == [] && u == t.(now := u.now)
  {
    KeptLeaves(cfg, beacon, rid, s, t, extra, t0, t1);
    var cell := OpenedCell(s.cells[rid]);
    var n := |cell.round.bidders|;
    assert forall a | a in cell.round.bidders :: a in cell.states;
    hide Kept, PassCell, PassCalls;
    PassTwice(cfg, beacon, rid, cell, n);
    PassKeepsIndex(cfg, beacon, cell);
    assert cell.round.bidders[..n] == cell.round.bidders;
    KeptIdle(cfg, beacon, rid, t, u, more, t2, t3);
  }

  lemma PassKeepsIndex(cfg: Config, beacon: Beacon, cell: Cell)
    ensures PassCell(cfg, beacon, cell, cell.round.bidders).round == cell.round
  {
  }
}

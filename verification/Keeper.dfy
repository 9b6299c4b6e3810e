/** The permissionless keeper (`services/keeper/src/keeper.ts`): open, reveal, clear, settle,
    or void a stale round, whoever else is acting on it.  `None` stands for a rejected
    promise: the exception leaves the function. */
module Keeper {
  import opened Common
  import opened RoundTypes
  import opened RoundSpec
  import opened Accounts
  import opened RoundInvariant
  import opened RoundRuns
  import opened RoundProgress
  import opened RoundCalls
  import opened Sdk
  import opened KeeperSpec
  import opened SettlementGuard

  datatype Skip =
    | StateReadFailed | AlreadyRevealedSkip | SealAbsent | DecryptFailed | RevealedInRace | CorruptSeal | WindowClosed

  datatype KeepResult = KeepResult(
    finalStatus: Status, openedReveal: bool, revealed: seq<Address>, skipped: seq<(Address, Skip)>)

  datatype CloseResult = CloseResult(
    finalStatus: Status, cleared: bool, settled: bool, voided: bool, winner: Option<Address>)

  datatype VoidResult = VoidResult(finalStatus: Status, voided: bool)

  datatype Tick = Tick(
    void: Option<VoidResult>, keep: Option<KeepResult>, close: Option<CloseResult>, finalStatus: Status)

  // ---- Phase A: opening the reveal window ----

  /** Sleep until R is due; answer `false` when it is still ahead once the patience runs out.
      A wait beyond the last second a ledger can show never comes to an end. */
  method WaitForRound(c: Client, round: U64, maxWaitSeconds: nat, pollMs: nat) returns (r: Read<bool>)
    requires c.Valid()
    modifies c`chain, c`clock, c`landed, c`done, c`lost
    ensures c.Looked()
    ensures r.Got? ==> (r.value <==> c.Now() >= ExactTime(c.cfg, round))
    ensures c.faultFree && ExactTime(c.cfg, round) <= U64_MAX ==> r.Got?
    ensures r.Failed? ==> c.lost || c.clock == END_OF_TIME
  {
    hide StateOk, Grows;
    var answered := c.Read();
    if !answered { return Failed; }
    var publishAt := ExactTime(c.cfg, round) * 1000;
    var giveUpAt := c.clock + maxWaitSeconds * 1000;
    while c.clock < publishAt
      invariant c.Looked()
      decreases publishAt - c.clock
    {
      if c.clock >= giveUpAt { return Got(false); }
      if c.clock == END_OF_TIME { return Failed; }
      var remaining := publishAt - c.clock;
      var nap := if remaining < 250 then 250 else remaining;
      ghost var seen := c.chain;
      c.Sleep(if pollMs < nap then pollMs else nap);
      GrowsTrans(old(c.chain), seen, c.chain);
    }
    r := Got(true);
  }

  /** Ask for the signature up to five times. */
  method FetchWithRetry(c: Client, round: U64, pollMs: nat) returns (signature: Option<Bytes>)
    requires c.Valid()
    modifies c`chain, c`clock, c`landed, c`done, c`lost
    ensures c.Looked()
    ensures c.faultFree ==>
              signature == if c.beacon.serves(round) then Some(c.beacon.signature(round)) else None
  {
    hide StateOk, Grows;
    signature := None;
    RunGrows(c.cfg, c.chain, []);
    var attempt := 0;
    while attempt < 5 && signature.None?
      invariant c.Looked()
      invariant c.faultFree && signature.Some? ==>
                  c.beacon.serves(round) && signature.value == c.beacon.signature(round)
      invariant c.faultFree && signature.None? && attempt > 0 ==> !c.beacon.serves(round)
      decreases 5 - attempt
    {
      ghost var seen := c.chain;
      var got := c.FetchSignature(round);
      GrowsTrans(old(c.chain), seen, c.chain);
      if got.Got? {
        signature := Some(got.value);
      } else {
        seen := c.chain;
        c.Sleep(pollMs);
        GrowsTrans(old(c.chain), seen, c.chain);
      }
      attempt := attempt + 1;
    }
  }

  datatype Opening = Threw | NotYet | Proceed(openedReveal: bool)

  /** What a report of having opened the window, or of having revealed, stands for. */
  predicate OpensOf(calls: seq<Call>, rid: U64, didOpen: bool) {
    if didOpen then |calls| == 1 && calls[0].OpenReveal? && calls[0].rid == rid else calls == []
  }

  predicate RevealsOf(calls: seq<Call>, rid: U64, bidders: seq<Address>) {
    && |calls| == |bidders|
    && forall i | 0 <= i < |calls| :: calls[i].Reveal? && calls[i].rid == rid && calls[i].bidder == bidders[i]
  }

  predicate AlreadyOpened(e: Error) { e in {RevealAlreadyOpen, WrongStatus, AlreadyCleared} }

  method OpenPhase(c: Client, rid: U64, round: Round, maxWaitSeconds: nat, pollMs: nat) returns (o: Opening)
    requires c.Valid() && rid in c.chain.cells && c.chain.cells[rid].round == round && round.status == Open
    modifies c`chain, c`clock, c`landed, c`done, c`lost
    ensures c.Valid() && c.clock >= old(c.clock) && old(c.done) <= c.done
    ensures rid in c.chain.cells
    ensures o.NotYet? ==> c.landed == old(c.landed)
    ensures o.Proceed? ==> old(c.landed) <= c.landed && OpensOf(c.landed[|old(c.landed)|..], rid, o.openedReveal)
    ensures o.Threw? ==> c.lost || c.clock == END_OF_TIME || c.chain.cells[rid].round.status == Open
    ensures c.faultFree ==>
              var R := round.revealRound;
              && old(c.chain).now <= c.chain.now && !o.Threw?
              && (c.beacon.serves(R) && old(c.Now()) >= ExactTime(c.cfg, R) ==> o.Proceed?)
              && (o.NotYet? ==> c.chain == old(c.chain).(now := c.chain.now) && c.landed == old(c.landed))
              && (o.Proceed? ==>
                    && o.openedReveal && c.beacon.serves(R) && c.Now() >= ExactTime(c.cfg, R)
                    && c.chain == old(c.chain).(now := c.chain.now,
                                                cells := old(c.chain).cells[rid := OpenedCell(old(c.chain).cells[rid])])
                    && c.landed == old(c.landed) + [OpenReveal(rid, c.beacon.signature(R))])
  {
    hide StateOk, Apply, Later;
    var R := round.revealRound;
    RoundTiming(c.cfg, c.chain, rid);
    var available := WaitForRound(c, R, maxWaitSeconds, pollMs);
    if available.Failed? { return Threw; }
    if !available.value { return NotYet; }
    var signature := FetchWithRetry(c, R, pollMs);
    if signature.None? { return NotYet; }
    ghost var seen := c.chain;
    var reply, at := c.Send(OpenReveal(rid, signature.value));
    if c.faultFree { OpenLands(c.cfg, c.beacon, seen, at, rid); }
    if reply.Sent? { return Proceed(true); }
    if reply.Rejected? && AlreadyOpened(reply.error) { return Proceed(false); }
    OpenAnswers(c.cfg, at, rid, signature.value);
    return Threw;
  }

  lemma OpenLands(cfg: Config, beacon: Beacon, seen: State, at: State, rid: U64)
    requires rid in seen.cells && at == seen.(now := at.now) && seen.cells[rid].round.status == Open
    requires TimingOk(cfg, seen.cells[rid].round) && at.now >= ExactTime(cfg, seen.cells[rid].round.revealRound)
    requires cfg.verifies(seen.cells[rid].round.revealRound, beacon.signature(seen.cells[rid].round.revealRound))
    ensures Apply(cfg, at, OpenReveal(rid, beacon.signature(seen.cells[rid].round.revealRound)))
            == Ok(at.(cells := seen.cells[rid := OpenedCell(seen.cells[rid])]))
  {
  }

  lemma RoundTiming(cfg: Config, s: State, rid: U64)
    requires StateOk(cfg, s) && rid in s.cells
    ensures TimingOk(cfg, s.cells[rid].round)
  {
    Covered(cfg, s, rid);
  }

  // ---- Phase B: revealing every seal ----

  ghost predicate NothingChanged(s: State, rid: U64, bidder: Address)
    requires rid in s.cells && bidder in s.cells[rid].states
  {
    var cell := s.cells[rid];
    && s.cells[rid := cell] == s.cells
    && cell.states[bidder := cell.states[bidder]] == cell.states
  }

  datatype Attempted = Revealed | Skipped(reason: Skip)

  ghost predicate HasBid(s: State, rid: U64, bidder: Address) { rid in s.cells && bidder in s.cells[rid].states }

  /** Bids are never taken away. */
  lemma BidStays(cfg: Config, s: State, t: State, rid: U64, bidder: Address)
    requires StateOk(cfg, s) && StateOk(cfg, t) && Grows(s, t) && HasBid(s, rid, bidder)
    ensures HasBid(t, rid, bidder)
  {
    LaterRound(s, t, rid);
    IndexInOrder(cfg, s, rid);
    IndexInOrder(cfg, t, rid);
    hide StateOk, Later, Grows, Distinct;
    var p, q := s.cells[rid].round.bidders, t.cells[rid].round.bidders;
    var i :| 0 <= i < |p| && p[i] == bidder;
    assert q[i] == bidder;
  }

  lemma LaterRound(s: State, t: State, rid: U64)
    requires Grows(s, t) && rid in s.cells
    ensures rid in t.cells && s.cells[rid].round.bidders <= t.cells[rid].round.bidders
    ensures Forward(s.cells[rid].round.status, t.cells[rid].round.status)
  {
    assert Later(s.cells[rid], t.cells[rid]);
  }

  /** The round is there and its window is open. */
  predicate InWindow(s: State, rid: U64) { rid in s.cells && s.cells[rid].round.status == Revealing }

  /** Read one bid and, unless it is revealed already, decrypt its seal; a failed seal read
      is an exception, every other difficulty a reason to skip. */
  method ReadBid(c: Client, rid: U64, bidder: Address) returns (r: Option<Result<(I128, Bytes32), Skip>>)
    requires c.Valid()
    modifies c`chain, c`clock, c`landed, c`done, c`lost
    ensures c.Looked()
    ensures r.None? ==> c.lost
    ensures r.Some? && r.value.Ok? ==> HasBid(c.chain, rid, bidder)
    ensures c.faultFree && rid in old(c.chain).cells && bidder in old(c.chain).cells[rid].states ==>
              var cell := old(c.chain).cells[rid];
              r == Some(if cell.states[bidder].revealedValue.Some? then Err(AlreadyRevealedSkip)
                        else if Readable(c.beacon, cell, bidder).None? then
                          Err(if bidder in cell.seals then DecryptFailed else SealAbsent)
                        else Ok(Readable(c.beacon, cell, bidder).value))
  {
    hide StateOk, Grows;
    var state := c.GetBidState(rid, bidder);
    if state.Failed? { return Some(Err(StateReadFailed)); }
    if state.value.revealedValue.Some? { return Some(Err(AlreadyRevealedSkip)); }
    ghost var s1 := c.chain;
    var seal := c.GetSeal(rid, bidder);
    GrowsTrans(old(c.chain), s1, c.chain);
    if seal.Failed? { return None; }
    if seal.value.None? { return Some(Err(SealAbsent)); }
    ghost var s2 := c.chain;
    var bid := c.Decrypt(seal.value.value.ciphertext);
    GrowsTrans(old(c.chain), s2, c.chain);
    GrowsTrans(s1, s2, c.chain);
    BidStays(c.cfg, s1, c.chain, rid, bidder);
    if bid.Failed? { return Some(Err(DecryptFailed)); }
    r := Some(Ok(bid.value));
  }

  /** The body of the reveal loop for one bidder. */
  method RevealOne(c: Client, rid: U64, bidder: Address) returns (r: Option<Attempted>)
    requires c.Valid()
    requires c.faultFree ==> rid in c.chain.cells && c.chain.cells[rid].round.status == Revealing
                             && bidder in c.chain.cells[rid].states
    modifies c`chain, c`clock, c`landed, c`done, c`lost
    ensures c.Valid() && c.clock >= old(c.clock) && old(c.done) <= c.done
    ensures r.Some? ==> old(c.landed) <= c.landed
                        && RevealsOf(c.landed[|old(c.landed)|..], rid, if r.value.Revealed? then [bidder] else [])
    ensures r.None? ==> c.lost || !InWindow(c.chain, rid)
    ensures c.faultFree ==>
              var cell := old(c.chain).cells[rid];
              && r == Some(if cell.states[bidder].revealedValue.Some? then Skipped(AlreadyRevealedSkip)
                           else if Readable(c.beacon, cell, bidder).None? then
                             Skipped(if bidder in cell.seals then DecryptFailed else SealAbsent)
                           else if c.chain.now > cell.round.revealDeadline then Skipped(WindowClosed)
                           else if Revealable(c.cfg, c.beacon, cell, bidder) then Revealed
                           else Skipped(CorruptSeal))
              && old(c.landed) <= c.landed
              && RevealedOne(c.cfg, c.beacon, rid, old(c.chain), c.chain, c.landed[|old(c.landed)|..], bidder)
  {
    hide StateOk, Grows, Readable;
    assert c.faultFree ==> NothingChanged(c.chain, rid, bidder);
    var bid := ReadBid(c, rid, bidder);
    if bid.None? { return None; }
    if bid.value.Err? { return Some(Skipped(bid.value.error)); }
    ghost var seen := c.chain;
    var reply, at := c.Send(Reveal(rid, bidder, bid.value.value.0, bid.value.value.1));
    if reply.Sent? { return Some(Revealed); }
    if reply.Rejected? && reply.error == AlreadyRevealed { return Some(Skipped(RevealedInRace)); }
    if reply.Rejected? && reply.error == HashMismatch { return Some(Skipped(CorruptSeal)); }
    if reply.Rejected? && reply.error == RevealWindowClosed { return Some(Skipped(WindowClosed)); }
    if reply.Rejected? { RejectedReveal(c.cfg, seen, at, rid, bidder, bid.value.value.0, bid.value.value.1); }
    return None;
  }

  /** A reveal of an existing bid is refused for one of three reasons while the window is open. */
  lemma RejectedReveal(cfg: Config, seen: State, at: State, rid: U64, bidder: Address, value: I128, nonce: Bytes32)
    requires StateOk(cfg, seen) && StateOk(cfg, at) && Grows(seen, at) && HasBid(seen, rid, bidder)
    requires Apply(cfg, at, Reveal(rid, bidder, value, nonce)).Err?
    ensures var refused := Apply(cfg, at, Reveal(rid, bidder, value, nonce)).error;
            InWindow(at, rid) ==> refused in {AlreadyRevealed, HashMismatch, RevealWindowClosed}
  {
    BidStays(cfg, seen, at, rid, bidder);
    hide StateOk, Grows;
    RevealAnswers(cfg, at, rid, bidder, value, nonce);
  }

  lemma PassStep(cfg: Config, beacon: Beacon, rid: U64, cell: Cell, bidders: seq<Address>, i: nat)
    requires Distinct(bidders) && i < |bidders| && bidders[i] in cell.states
    ensures var before := PassCell(cfg, beacon, cell, bidders[..i]);
            var after := PassCell(cfg, beacon, cell, bidders[..i + 1]);
            && Revealable(cfg, beacon, before, bidders[i]) == Revealable(cfg, beacon, cell, bidders[i])
            && after.states == before.states[bidders[i] := PassBid(cfg, beacon, before, bidders[i])]
            && PassCalls(cfg, beacon, rid, cell, bidders[..i + 1])
               == PassCalls(cfg, beacon, rid, cell, bidders[..i])
                  + if Revealable(cfg, beacon, before, bidders[i])
                    then [RevealCall(beacon, rid, before, bidders[i])] else []
  {
    assert bidders[..i + 1] == bidders[..i] + [bidders[i]];
    assert bidders[i] !in bidders[..i];
    assert bidders[..i + 1][..i] == bidders[..i];
  }

  /** What one fault-free reveal of `bidder` does. */
  ghost predicate RevealedOne(cfg: Config, beacon: Beacon, rid: U64, s: State, t: State, extra: seq<Call>,
                              bidder: Address)
    requires rid in s.cells && bidder in s.cells[rid].states
  {
    var cell := s.cells[rid];
    && OnlyBidsChanged(s, t, rid)
    && (t.now <= cell.round.revealDeadline ==>
          && t.cells[rid].states == cell.states[bidder := PassBid(cfg, beacon, cell, bidder)]
          && extra == if Revealable(cfg, beacon, cell, bidder) then [RevealCall(beacon, rid, cell, bidder)] else [])
    && (s.now > cell.round.revealDeadline ==> t.cells[rid] == cell && extra == [])
  }

  lemma PassStart(cfg: Config, beacon: Beacon, rid: U64, s0: State, s: State)
    requires rid in s0.cells && s0.now <= s.now && s == s0.(now := s.now)
    ensures PassedUpTo(cfg, beacon, rid, s0, s, [], 0)
  {
    assert s0.cells[rid := s0.cells[rid]] == s0.cells;
    assert PassCell(cfg, beacon, s0.cells[rid], []).states == s0.cells[rid].states;
  }

  lemma PassContinues(cfg: Config, beacon: Beacon, rid: U64, s0: State, s: State, t: State,
                      extra: seq<Call>, more: seq<Call>, n: nat)
    requires rid in s0.cells && n < |s0.cells[rid].round.bidders|
    requires Distinct(s0.cells[rid].round.bidders) && s0.cells[rid].round.bidders[n] in s0.cells[rid].states
    requires PassedUpTo(cfg, beacon, rid, s0, s, extra, n)
    requires RevealedOne(cfg, beacon, rid, s, t, more, s0.cells[rid].round.bidders[n])
    ensures PassedUpTo(cfg, beacon, rid, s0, t, extra + more, n + 1)
  {
    PassStep(cfg, beacon, rid, s0.cells[rid], s0.cells[rid].round.bidders, n);
  }

  /** The bidder is reported, one way or the other. */
  predicate Handled(a: Address, revealed: seq<Address>, skipped: seq<(Address, Skip)>) {
    a in revealed || exists i :: 0 <= i < |skipped| && skipped[i].0 == a
  }

  /** The calls landed and the report agree, after the first `n` bidders. */
  ghost predicate Reported(calls: seq<Call>, rid: U64, bidders: seq<Address>, n: nat,
                           revealed: seq<Address>, skipped: seq<(Address, Skip)>)
    requires n <= |bidders|
  {
    && RevealsOf(calls, rid, revealed)
    && forall k | 0 <= k < n :: Handled(bidders[k], revealed, skipped)
  }

  lemma ReportedRevealed(calls: seq<Call>, more: seq<Call>, rid: U64, bidders: seq<Address>, n: nat,
                         revealed: seq<Address>, skipped: seq<(Address, Skip)>)
    requires n < |bidders| && Reported(calls, rid, bidders, n, revealed, skipped) && RevealsOf(more, rid, [bidders[n]])
    ensures Reported(calls + more, rid, bidders, n + 1, revealed + [bidders[n]], skipped)
  {
    forall k | 0 <= k < n + 1
      ensures Handled(bidders[k], revealed + [bidders[n]], skipped)
    {
      assert k < n ==> Handled(bidders[k], revealed, skipped);
    }
  }

  lemma ReportedSkipped(calls: seq<Call>, rid: U64, bidders: seq<Address>, n: nat,
                        revealed: seq<Address>, skipped: seq<(Address, Skip)>, reason: Skip)
    requires n < |bidders| && Reported(calls, rid, bidders, n, revealed, skipped)
    ensures Reported(calls, rid, bidders, n + 1, revealed, skipped + [(bidders[n], reason)])
  {
    var after := skipped + [(bidders[n], reason)];
    forall k | 0 <= k < n + 1
      ensures Handled(bidders[k], revealed, after)
    {
      if k < n {
        assert Handled(bidders[k], revealed, skipped);
        if i :| 0 <= i < |skipped| && skipped[i].0 == bidders[k] { assert after[i].0 == bidders[k]; }
      } else {
        assert after[|skipped|].0 == bidders[k];
      }
    }
  }

  lemma AllReported(calls: seq<Call>, rid: U64, bidders: seq<Address>, early: seq<Address>,
                    revealed: seq<Address>, skipped: seq<(Address, Skip)>)
    requires Reported(calls, rid, bidders, |bidders|, revealed, skipped) && early <= bidders
    ensures RevealsOf(calls, rid, revealed) && forall a | a in early :: Handled(a, revealed, skipped)
  {
    forall a | a in early
      ensures Handled(a, revealed, skipped)
    {
      var k :| 0 <= k < |early| && early[k] == a;
      assert bidders[k] == a;
    }
  }

  lemma NothingReported(rid: U64, bidders: seq<Address>)
    ensures Reported([], rid, bidders, 0, [], [])
  {
  }

  lemma NoReveals(calls: seq<Call>, rid: U64)
    requires RevealsOf(calls, rid, [])
    ensures calls == []
  {
  }

  /** Reveal every bid of the index.  Whatever happens around it, the bidders reported as
      revealed are those whose reveals landed, and everyone is reported. */
  method RevealPhase(c: Client, rid: U64) returns (revealed: seq<Address>, skipped: seq<(Address, Skip)>, ok: bool)
    requires c.Valid()
    requires c.faultFree ==> rid in c.chain.cells && c.chain.cells[rid].round.status == Revealing
    modifies c`chain, c`clock, c`landed, c`done, c`lost
    ensures c.Valid() && c.clock >= old(c.clock) && old(c.done) <= c.done
    ensures ok ==> old(c.landed) <= c.landed && RevealsOf(c.landed[|old(c.landed)|..], rid, revealed)
    ensures !ok ==> c.lost || !InWindow(c.chain, rid)
    ensures ok && rid in old(c.chain).cells ==>
              forall a | a in old(c.chain).cells[rid].round.bidders :: Handled(a, revealed, skipped)
    ensures c.faultFree ==>
              && ok && old(c.landed) <= c.landed
              && Passed(c.cfg, c.beacon, rid, old(c.chain), c.chain, c.landed[|old(c.landed)|..])
  {
    hide StateOk, Grows, PassedUpTo, RevealedOne, Reported, RevealsOf, Handled;
    revealed, skipped := [], [];
    ghost var s0, landed0, extra: seq<Call> := c.chain, c.landed, [];
    var bidders := c.Bidders(rid);
    if bidders.Failed? { return [], [], false; }
    if c.faultFree {
      IndexComplete(c.cfg, c.chain, rid);
      PassStart(c.cfg, c.beacon, rid, s0, c.chain);
    }
    NothingReported(rid, bidders.value);
    assert c.landed[|landed0|..] == [];
    for i := 0 to |bidders.value|
      invariant c.Valid() && c.clock >= old(c.clock) && old(c.done) <= c.done
      invariant landed0 <= c.landed && Reported(c.landed[|landed0|..], rid, bidders.value, i, revealed, skipped)
      invariant c.faultFree ==> c.landed == landed0 + extra && PassedUpTo(c.cfg, c.beacon, rid, s0, c.chain, extra, i)
    {
      ghost var s, landed := c.chain, c.landed;
      if c.faultFree { StillRevealing(c.cfg, c.beacon, rid, s0, s, extra, i); }
      var step := RevealOne(c, rid, bidders.value[i]);
      if step.None? { return [], [], false; }
      assert c.landed[|landed0|..] == landed[|landed0|..] + c.landed[|landed|..];
      if step.value.Revealed? {
        ReportedRevealed(landed[|landed0|..], c.landed[|landed|..], rid, bidders.value, i, revealed, skipped);
        revealed := revealed + [bidders.value[i]];
      } else {
        NoReveals(c.landed[|landed|..], rid);
        assert c.landed[|landed0|..] == landed[|landed0|..];
        ReportedSkipped(landed[|landed0|..], rid, bidders.value, i, revealed, skipped, step.value.reason);
        skipped := skipped + [(bidders.value[i], step.value.reason)];
      }
      if c.faultFree {
        ghost var more := c.landed[|landed|..];
        PassContinues(c.cfg, c.beacon, rid, s0, s, c.chain, extra, more, i);
        extra := extra + more;
      }
    }
    assert c.faultFree ==> c.landed[|landed0|..] == extra;
    AllReported(c.landed[|landed0|..], rid, bidders.value,
                if rid in s0.cells then s0.cells[rid].round.bidders else [], revealed, skipped);
    ok := true;
  }

  lemma StillRevealing(cfg: Config, beacon: Beacon, rid: U64, s0: State, s: State, extra: seq<Call>, n: nat)
    requires rid in s0.cells && n <= |s0.cells[rid].round.bidders|
    requires PassedUpTo(cfg, beacon, rid, s0, s, extra, n)
    ensures rid in s.cells && s.cells[rid].round == s0.cells[rid].round
    ensures s.cells[rid].states.Keys == s0.cells[rid].states.Keys
  {
  }

  lemma IndexComplete(cfg: Config, s: State, rid: U64)
    requires StateOk(cfg, s) && rid in s.cells
    ensures var cell := s.cells[rid];
            && Distinct(cell.round.bidders)
            && forall i | 0 <= i < |cell.round.bidders| :: cell.round.bidders[i] in cell.states
  {
    Covered(cfg, s, rid);
  }

  /** The calls a pass landed are those it reports. */
  predicate KeptAsReported(calls: seq<Call>, rid: U64, r: KeepResult) {
    var opening := if r.openedReveal then 1 else 0;
    && opening <= |calls|
    && OpensOf(calls[..opening], rid, r.openedReveal) && RevealsOf(calls[opening..], rid, r.revealed)
  }

  lemma KeepReport(opening: seq<Call>, landings: seq<Call>, rid: U64, r: KeepResult)
    requires OpensOf(opening, rid, r.openedReveal) && RevealsOf(landings, rid, r.revealed)
    ensures KeptAsReported(opening + landings, rid, r)
  {
    var n := if r.openedReveal then 1 else 0;
    assert (opening + landings)[..n] == opening && (opening + landings)[n..] == landings;
  }

  lemma NothingKept(rid: U64)
    ensures OpensOf([], rid, false) && RevealsOf([], rid, [])
    ensures KeptAsReported([], rid, KeepResult(Open, false, [], []))
  {
  }

  /** Ledger time passing before and after a pass does not change what the pass did. */
  lemma PassLater(cfg: Config, beacon: Beacon, rid: U64, s: State, t: State, s': State, t': State, extra: seq<Call>)
    requires rid in s.cells && rid in s'.cells && Passed(cfg, beacon, rid, s, t, extra)
    requires s'.now <= s.now && s == s'.(now := s.now) && t.now <= t'.now && t' == t.(now := t'.now)
    ensures Passed(cfg, beacon, rid, s', t', extra)
  {
  }

  datatype FirstStep = OpenBroke | OpenLater | Going(round: Round, openedReveal: bool)

  /** Phase A as part of a pass: read the round and open its window if it is still Open. */
  method OpenIfNeeded(c: Client, rid: U64, maxWaitSeconds: nat, pollMs: nat) returns (o: FirstStep)
    requires c.Valid()
    modifies c`chain, c`clock, c`landed, c`done, c`lost
    ensures c.Valid() && c.clock >= old(c.clock) && old(c.done) <= c.done
    ensures o.OpenLater? ==> c.landed == old(c.landed)
    ensures o.OpenBroke? ==> c.lost || c.clock == END_OF_TIME || !InWindow(c.chain, rid)
    ensures o.Going? ==>
              && old(c.landed) <= c.landed && OpensOf(c.landed[|old(c.landed)|..], rid, o.openedReveal)
              && rid in c.chain.cells && c.chain.cells[rid].round == o.round
              && (Final(o.round.status) ==> rid in c.done)
    ensures c.faultFree && rid in old(c.chain).cells ==>
              var cell := old(c.chain).cells[rid];
              var R := cell.round.revealRound;
              && !o.OpenBroke? && old(c.chain).now <= c.chain.now
              && (o.OpenLater? ==>
                    && cell.round.status == Open && !(c.beacon.serves(R) && old(c.Now()) >= ExactTime(c.cfg, R))
                    && c.chain == old(c.chain).(now := c.chain.now))
              && (o.Going? && cell.round.status == Open ==>
                    && c.beacon.serves(R) && c.Now() >= ExactTime(c.cfg, R)
                    && c.chain == OpenedState(old(c.chain), rid).(now := c.chain.now)
                    && c.landed == old(c.landed) + [OpenReveal(rid, c.beacon.signature(R))])
              && (o.Going? && cell.round.status != Open ==>
                    c.chain == old(c.chain).(now := c.chain.now) && c.landed == old(c.landed))
    ensures c.faultFree && !o.OpenBroke? ==> rid in old(c.chain).cells
  {
    hide StateOk, Grows, OpensOf;
    NothingKept(rid);
    var got := c.GetRound(rid);
    if got.Failed? { return OpenBroke; }
    assert c.landed[|old(c.landed)|..] == [];
    if got.value.status != Open { return Going(got.value, false); }
    var phase := OpenPhase(c, rid, got.value, maxWaitSeconds, pollMs);
    if phase.Threw? { return OpenBroke; }
    if phase.NotYet? { return OpenLater; }
    got := c.GetRound(rid);
    if got.Failed? { return OpenBroke; }
    o := Going(got.value, phase.openedReveal);
  }

  /** Phase B as part of a pass: reveal if the window is open, and read the round again. */
  method RevealIfOpen(c: Client, rid: U64, seen: Round)
    returns (status: Status, revealed: seq<Address>, skipped: seq<(Address, Skip)>, ok: bool)
    requires c.Valid() && rid in c.chain.cells && c.chain.cells[rid].round == seen
    requires Final(seen.status) ==> rid in c.done
    modifies c`chain, c`clock, c`landed, c`done, c`lost
    ensures c.Valid() && c.clock >= old(c.clock) && old(c.done) <= c.done
    ensures ok && Final(status) ==> rid in c.done
    ensures ok ==> old(c.landed) <= c.landed && RevealsOf(c.landed[|old(c.landed)|..], rid, revealed)
    ensures !ok ==> c.lost || !InWindow(c.chain, rid)
    ensures ok && seen.status == Revealing ==> forall a | a in seen.bidders :: Handled(a, revealed, skipped)
    ensures c.faultFree ==>
              && ok && old(c.landed) <= c.landed && rid in c.chain.cells && status == c.chain.cells[rid].round.status
              && if seen.status == Revealing then
                   Passed(c.cfg, c.beacon, rid, old(c.chain), c.chain, c.landed[|old(c.landed)|..])
                 else c.chain == old(c.chain) && c.landed == old(c.landed)
  {
    hide StateOk, Grows, PassedUpTo, RevealsOf, Handled;
    NothingKept(rid);
    status, revealed, skipped, ok := seen.status, [], [], true;
    assert c.landed[|c.landed|..] == [];
    if seen.status == Revealing {
      ghost var s1, l1 := c.chain, c.landed;
      revealed, skipped, ok := RevealPhase(c, rid);
      if !ok { return; }
      ghost var s2 := c.chain;
      if c.faultFree {
        StillRevealing(c.cfg, c.beacon, rid, s1, s2, c.landed[|l1|..], |s1.cells[rid].round.bidders|);
      }
      var got := c.GetRound(rid);
      if got.Failed? { return status, [], [], false; }
      status := got.value.status;
      if c.faultFree { PassLater(c.cfg, c.beacon, rid, s1, s2, s1, c.chain, c.landed[|l1|..]); }
    }
  }

  /** One full pass: open if needed, then reveal every bid. */
  method KeepRound(c: Client, rid: U64, maxWaitSeconds: nat, pollMs: nat) returns (r: Option<KeepResult>)
    requires c.Valid()
    modifies c`chain, c`clock, c`landed, c`done, c`lost
    ensures c.Valid() && c.clock >= old(c.clock) && old(c.done) <= c.done
    ensures r.Some? && Final(r.value.finalStatus) ==> rid in c.done
    ensures r.Some? ==> old(c.landed) <= c.landed && KeptAsReported(c.landed[|old(c.landed)|..], rid, r.value)
    ensures r.None? ==> c.lost || c.clock == END_OF_TIME || !InWindow(c.chain, rid)
    ensures c.faultFree && rid in old(c.chain).cells ==>
              && r.Some? && old(c.landed) <= c.landed
              && Kept(c.cfg, c.beacon, rid, old(c.chain), c.chain, c.landed[|old(c.landed)|..], old(c.Now()), c.Now())
              && rid in c.chain.cells && r.value.finalStatus == c.chain.cells[rid].round.status
    ensures c.faultFree && r.Some? ==> rid in old(c.chain).cells
  {
    hide StateOk, Grows, PassedUpTo, OpensOf, RevealsOf, KeptAsReported, Handled, InWindow, Client.Valid;
    ghost var s0, l0 := c.chain, c.landed;
    NothingKept(rid);
    var opening := OpenIfNeeded(c, rid, maxWaitSeconds, pollMs);
    if opening.OpenBroke? { return None; }
    assert opening.OpenLater? ==> c.landed[|l0|..] == [];
    if opening.OpenLater? { return Some(KeepResult(Open, false, [], [])); }
    ghost var s1, l1 := c.chain, c.landed;
    var status, revealed, skipped, ok := RevealIfOpen(c, rid, opening.round);
    if !ok { return None; }
    r := Some(KeepResult(status, opening.openedReveal, revealed, skipped));
    assert c.landed[|l0|..] == l1[|l0|..] + c.landed[|l1|..];
    KeepReport(l1[|l0|..], c.landed[|l1|..], rid, r.value);
    if c.faultFree { PassFrom(c.cfg, c.beacon, rid, s0, s1, c.chain, l1[|l0|..], c.landed[|l1|..], c.Now()); }
  }

  /** Opening and pass together are what a whole pass should do. */
  lemma PassFrom(cfg: Config, beacon: Beacon, rid: U64, s0: State, s1: State, s2: State,
                 opening: seq<Call>, pass: seq<Call>, clock': nat)
    requires rid in s0.cells && s0.now <= s1.now
    requires if s0.cells[rid].round.status == Open then
               && beacon.serves(s0.cells[rid].round.revealRound)
               && clock' >= ExactTime(cfg, s0.cells[rid].round.revealRound)
               && opening == [OpenReveal(rid, beacon.signature(s0.cells[rid].round.revealRound))]
               && s1 == OpenedState(s0, rid).(now := s1.now)
             else opening == [] && s1 == s0.(now := s1.now)
    requires if s1.cells[rid].round.status == Revealing then Passed(cfg, beacon, rid, s1, s2, pass)
             else s2 == s1 && pass == []
    ensures forall clock :: Kept(cfg, beacon, rid, s0, s2, opening + pass, clock, clock')
  {
    if s0.cells[rid].round.status == Open {
      PassLater(cfg, beacon, rid, s1, s2, OpenedState(s0, rid), s2, pass);
      assert (opening + pass)[1..] == pass;
    } else {
      assert opening + pass == pass;
      if s0.cells[rid].round.status == Revealing { PassLater(cfg, beacon, rid, s1, s2, s0, s2, pass); }
    }
  }

  // ---- Phases C and D: clearing and settling ----

  predicate ClearAlreadyDone(e: Error) { e in {AlreadyCleared, RevealStillOpen, WrongStatus, RoundVoided} }

  predicate SettleAlreadyDone(e: Error) { e in {AlreadySettled, NotCleared, WrongStatus} }

  predicate VoidRefused(e: Error) { e in {NotVoidable, WrongStatus, AlreadyCleared} }

  /** A call on one round leaves the others alone. */
  lemma CallElsewhere(cfg: Config, s: State, c: Call)
    requires OnRound(c) && Apply(cfg, s, c).Ok?
    ensures Elsewhere(s, Apply(cfg, s, c).value, c.rid)
  {
  }

  /** Once a round has been seen Cleared, a refused settlement means it has been settled. */
  lemma RefusedSettlement(cfg: Config, seen: State, at: State, rid: U64, e: Error)
    requires StateOk(cfg, at) && Grows(seen, at)
    requires rid in seen.cells && seen.cells[rid].round.status == Cleared
    requires Apply(cfg, at, Settle(rid)) == Err(e)
    ensures rid in at.cells && at.cells[rid].round.status == Settled && SettleAlreadyDone(e)
  {
    assert Later(seen.cells[rid], at.cells[rid]);
    SettleAlwaysOpen(cfg, at, rid);
    SettleAnswers(cfg, at, rid);
  }

  lemma StillLive(c: Client, rid: U64)
    requires c.Valid() && rid in c.chain.cells && !Final(c.chain.cells[rid].round.status)
    ensures rid !in c.done
  {
  }

  lemma ChainStays(c: Client)
    requires c.Valid()
    ensures Grows(c.chain, c.chain)
  {
    GrowsRefl(c.cfg, c.chain);
  }

  /** Settle a round just seen Cleared, once, through the guard when there is one. */
  method SettleGuarded(c: Client, rid: U64, guard: Guard?) returns (settled: bool, ok: bool)
    requires c.Valid() && rid in c.chain.cells && c.chain.cells[rid].round.status == Cleared
    requires guard != null ==> guard.Coherent(c.done)
    modifies c`chain, c`clock, c`landed, c`done, c`lost, guard
    ensures c.Valid() && c.clock >= old(c.clock) && old(c.done) <= c.done
    ensures guard != null ==> guard.Coherent(c.done)
    ensures guard != null && old(guard.Idle()) && ok ==> guard.Idle()
    ensures guard != null ==> OthersKept(old(guard.entries), guard.entries, rid)
    ensures ok && settled ==> rid in c.done
    ensures Grows(old(c.chain), c.chain)
    ensures !ok ==> c.lost
    ensures ok ==> c.landed == old(c.landed) + if settled then [Settle(rid)] else []
    ensures c.faultFree && (guard == null || old(guard.Idle())) ==>
              && ok && settled && old(c.landed) <= c.landed
              && Closed(rid, old(c.chain), c.chain, c.landed[|old(c.landed)|..], old(c.Now()), c.Now())
  {
    hide StateOk, Grows, Held, Apply, Client.Valid;
    ghost var seen := c.chain;
    ChainStays(c);
    settled, ok := false, true;
    if guard != null {
      StillLive(c, rid);
      assert guard.Status(rid) != Terminal;
      var allowed := guard.CanSettle(rid);
      if !allowed { return; }
      guard.MarkSubmitted(rid);
    }
    var reply, at := c.Send(Settle(rid));
    if c.faultFree { SettleLands(c.cfg, seen, at, rid); }
    if reply.Sent? {
      settled := true;
      SettleEnds(c.cfg, at, rid);
      if guard != null { guard.MarkTerminal(rid, SettledOnChain); }
    } else if reply.Rejected? && SettleAlreadyDone(reply.error) {
      RefusedSettlement(c.cfg, seen, at, rid, reply.error);
      c.Learn(rid);
      if guard != null { guard.MarkTerminal(rid, SettleSkipped); }
    } else {
      if reply.Rejected? { RefusedSettlement(c.cfg, seen, at, rid, reply.error); }
      ok := false;
    }
  }

  lemma SettleEnds(cfg: Config, at: State, rid: U64)
    requires StateOk(cfg, at) && Apply(cfg, at, Settle(rid)).Ok?
    ensures var t := Apply(cfg, at, Settle(rid)).value;
            Finished(t, rid) && Elsewhere(at, t, rid) && t.now == at.now
  {
    SettleAlwaysOpen(cfg, at, rid);
    CallElsewhere(cfg, at, Settle(rid));
  }

  lemma SettleLands(cfg: Config, seen: State, at: State, rid: U64)
    requires StateOk(cfg, at) && at == seen.(now := at.now)
    requires rid in seen.cells && seen.cells[rid].round.status == Cleared
    ensures Apply(cfg, at, Settle(rid)).Ok?
  {
    SettleAlwaysOpen(cfg, at, rid);
  }

  lemma ClearLands(cfg: Config, at: State, rid: U64)
    requires StateOk(cfg, at) && rid in at.cells && at.cells[rid].round.status == Revealing
    requires at.now > at.cells[rid].round.revealDeadline
    ensures Apply(cfg, at, Clear(rid)).Ok?
  {
    ClearDecides(cfg, at, rid);
  }

  lemma ClearEnds(cfg: Config, at: State, rid: U64)
    requires StateOk(cfg, at) && Apply(cfg, at, Clear(rid)).Ok?
    ensures var t := Apply(cfg, at, Clear(rid)).value;
            && Elsewhere(at, t, rid) && t.now == at.now && rid in t.cells
            && (Finished(t, rid) || (t.cells[rid].round.status == Cleared && t.cells[rid].round.winner.Some?))
            && (t.cells[rid].round.winner.Some? <==> t.cells[rid].round.status == Cleared)
  {
    ClearDecides(cfg, at, rid);
    CallElsewhere(cfg, at, Clear(rid));
  }

  /** The round has been decided for `winner`. */
  ghost predicate WonBy(s: State, rid: U64, winner: Address) {
    && rid in s.cells && (s.cells[rid].round.status == Cleared || s.cells[rid].round.status == Settled)
    && s.cells[rid].round.winner == Some(winner)
  }

  lemma StillWon(s: State, t: State, rid: U64, winner: Address)
    requires Grows(s, t) && WonBy(s, rid, winner)
    ensures WonBy(t, rid, winner)
  {
    assert Later(s.cells[rid], t.cells[rid]);
  }

  datatype Clearing = ClearThrew | WindowStillOpen | ClearTried(cleared: bool, winner: Option<Address>)

  /** Clear a round just seen Revealing, once the reveal window is over. */
  method ClearPhase(c: Client, rid: U64) returns (o: Clearing)
    requires c.Valid() && rid in c.chain.cells && c.chain.cells[rid].round.status == Revealing
    modifies c`chain, c`clock, c`landed, c`done, c`lost
    ensures c.Valid() && c.clock >= old(c.clock) && old(c.done) <= c.done
    ensures o.ClearTried? && o.cleared && o.winner.None? ==> rid in c.done
    ensures o.ClearTried? && o.winner.Some? ==> WonBy(c.chain, rid, o.winner.value)
    ensures o.WindowStillOpen? ==> c.chain == old(c.chain)
    ensures o.ClearThrew? ==> c.lost || !InWindow(c.chain, rid)
    ensures !o.ClearThrew? ==> c.landed == old(c.landed) + if o.ClearTried? && o.cleared then [Clear(rid)] else []
    ensures c.faultFree ==>
              var deadline := old(c.chain).cells[rid].round.revealDeadline;
              && !o.ClearThrew?
              && (o.WindowStillOpen? ==>
                    c.chain == old(c.chain) && c.landed == old(c.landed) && old(c.Now()) <= deadline)
              && (o.ClearTried? ==>
                    && o.cleared && old(c.Now()) > deadline && c.landed == old(c.landed) + [Clear(rid)]
                    && old(c.chain).now <= c.chain.now && Elsewhere(old(c.chain), c.chain, rid) && rid in c.chain.cells
                    && (Finished(c.chain, rid) || c.chain.cells[rid].round.status == Cleared))
  {
    hide StateOk, Grows, Held;
    ghost var seen := c.chain;
    if c.Now() <= c.chain.cells[rid].round.revealDeadline { return WindowStillOpen; }
    var reply, at := c.Send(Clear(rid));
    if c.faultFree { ClearLands(c.cfg, at, rid); }
    if reply.Sent? {
      ClearEnds(c.cfg, at, rid);
      ElsewhereTime(seen, at, c.chain, rid);
      return ClearTried(true, c.chain.cells[rid].round.winner);
    }
    if reply.Rejected? && ClearAlreadyDone(reply.error) { return ClearTried(false, None); }
    ClearAnswers(c.cfg, at, rid);
    return ClearThrew;
  }

  lemma ElsewhereTime(s: State, at: State, t: State, rid: U64)
    ensures at == s.(now := at.now) && Elsewhere(at, t, rid) ==> Elsewhere(s, t, rid)
  {
  }

  /** A round after the clearing stage of `closeRound`: as it was unless Revealing, then ended
      or Cleared. */
  ghost predicate ClearStage(rid: U64, s: State, t: State, extra: seq<Call>, clock': nat)
    requires rid in s.cells
  {
    && s.now <= t.now && Elsewhere(s, t, rid) && rid in t.cells
    && if s.cells[rid].round.status == Revealing then
         && extra == [Clear(rid)] && clock' > s.cells[rid].round.revealDeadline
         && (Finished(t, rid) || t.cells[rid].round.status == Cleared)
       else OnlyTime(s, t, extra)
  }

  lemma NotClosed(rid: U64, s: State, t: State, clock: nat, clock': nat)
    requires rid in s.cells && s.now <= t.now && t == s.(now := t.now)
    requires s.cells[rid].round.status == Revealing && clock <= s.cells[rid].round.revealDeadline
    ensures Closed(rid, s, t, [], clock, clock')
  {
  }

  lemma ClearedOrNot(rid: U64, s0: State, s1: State, sc: State, s2: State, extra: seq<Call>, clock': nat)
    requires rid in s0.cells && s0.now <= s1.now <= sc.now <= s2.now
    requires s1 == s0.(now := s1.now) && s2 == sc.(now := s2.now)
    requires if s0.cells[rid].round.status == Revealing then
               && extra == [Clear(rid)] && clock' > s0.cells[rid].round.revealDeadline
               && Elsewhere(s1, sc, rid) && rid in sc.cells
               && (Finished(sc, rid) || sc.cells[rid].round.status == Cleared)
             else sc == s1 && extra == []
    ensures ClearStage(rid, s0, s2, extra, clock')
  {
  }

  datatype FirstHalf = Broke | Early | Went(round: Round, cleared: bool, winner: Option<Address>)

  /** Read the round and, if it is Revealing, try to clear it. */
  method ClearIfDue(c: Client, rid: U64) returns (o: FirstHalf)
    requires c.Valid()
    modifies c`chain, c`clock, c`landed, c`done, c`lost
    ensures c.Valid() && c.clock >= old(c.clock) && old(c.done) <= c.done
    ensures o.Went? ==> rid in c.chain.cells && c.chain.cells[rid].round == o.round
                        && (Final(o.round.status) || (o.cleared && o.winner.None?) ==> rid in c.done)
                        && (o.winner.Some? ==> WonBy(c.chain, rid, o.winner.value))
    ensures o.Early? ==> rid in c.chain.cells && c.chain.cells[rid].round.status == Revealing
    ensures o.Broke? ==> c.lost || !InWindow(c.chain, rid)
    ensures !o.Broke? ==> c.landed == old(c.landed) + if o.Went? && o.cleared then [Clear(rid)] else []
    ensures c.faultFree && rid in old(c.chain).cells ==>
              && !o.Broke? && old(c.landed) <= c.landed && rid in c.chain.cells
              && (o.Early? ==>
                    && c.chain.cells[rid].round.status == Revealing && c.landed == old(c.landed)
                    && Closed(rid, old(c.chain), c.chain, [], old(c.Now()), c.Now()))
              && (o.Went? ==> ClearStage(rid, old(c.chain), c.chain, c.landed[|old(c.landed)|..], c.Now()))
    ensures c.faultFree && !o.Broke? ==> rid in old(c.chain).cells
  {
    hide StateOk, Grows, Finished, Elsewhere, Closed, ClearStage, WonBy;
    ghost var s0, t0, l0 := c.chain, c.Now(), c.landed;
    var got := c.GetRound(rid);
    if got.Failed? { return Broke; }
    ghost var s1, sc := c.chain, c.chain;
    var cleared := false;
    var winner: Option<Address> := None;
    if got.value.status == Revealing {
      var phase := ClearPhase(c, rid);
      if phase.ClearThrew? { return Broke; }
      if phase.WindowStillOpen? {
        if c.faultFree { NotClosed(rid, s0, s1, t0, c.Now()); }
        return Early;
      }
      sc := c.chain;
      cleared, winner := phase.cleared, phase.winner;
      got := c.GetRound(rid);
      if got.Failed? { return Broke; }
      if winner.Some? { StillWon(sc, c.chain, rid, winner.value); }
    }
    if c.faultFree {
      ClearedOrNot(rid, s0, s1, sc, c.chain, c.landed[|l0|..], c.Now());
    }
    o := Went(got.value, cleared, winner);
  }

  lemma ClosedLater(rid: U64, s: State, t: State, u: State, extra: seq<Call>, clock: nat, clock': nat, clock'': nat)
    requires rid in s.cells && Closed(rid, s, t, extra, clock, clock')
    requires t.now <= u.now && u == t.(now := u.now) && clock' <= clock''
    ensures Closed(rid, s, u, extra, clock, clock'')
  {
  }

  lemma ClosedKeepsRound(rid: U64, s: State, t: State, extra: seq<Call>, clock: nat, clock': nat)
    requires rid in s.cells && Closed(rid, s, t, extra, clock, clock')
    ensures rid in t.cells
  {
  }

  lemma CloseAssembled(rid: U64, s0: State, s1: State, s2: State, clears: seq<Call>, settles: seq<Call>,
                       t0: nat, t1: nat, t2: nat)
    requires rid in s0.cells && ClearStage(rid, s0, s1, clears, t1) && t1 <= t2
    requires if s1.cells[rid].round.status == Cleared then Closed(rid, s1, s2, settles, t1, t2)
             else s2 == s1 && settles == []
    ensures Closed(rid, s0, s2, clears + settles, t0, t2)
  {
  }

  /** Settle a round just read as Cleared, and read it again. */
  method SettleIfCleared(c: Client, rid: U64, guard: Guard?, seen: Round)
    returns (round: Round, settled: bool, ok: bool)
    requires c.Valid() && rid in c.chain.cells && c.chain.cells[rid].round == seen
    requires guard != null ==> guard.Coherent(c.done)
    requires Final(seen.status) ==> rid in c.done
    modifies c`chain, c`clock, c`landed, c`done, c`lost, guard
    ensures c.Valid() && c.clock >= old(c.clock) && old(c.done) <= c.done
    ensures guard != null ==> guard.Coherent(c.done)
    ensures guard != null && old(guard.Idle()) && ok ==> guard.Idle()
    ensures guard != null ==> OthersKept(old(guard.entries), guard.entries, rid)
    ensures ok && (settled || Final(round.status)) ==> rid in c.done
    ensures !ok ==> c.lost
    ensures ok ==> Grows(old(c.chain), c.chain) && rid in c.chain.cells && c.chain.cells[rid].round == round
    ensures ok ==> c.landed == old(c.landed) + if settled then [Settle(rid)] else []
    ensures c.faultFree && (guard == null || old(guard.Idle())) ==>
              && ok && old(c.landed) <= c.landed
              && rid in c.chain.cells && round.status == c.chain.cells[rid].round.status
              && if seen.status == Cleared then
                   Closed(rid, old(c.chain), c.chain, c.landed[|old(c.landed)|..], old(c.Now()), c.Now())
                 else c.chain == old(c.chain) && c.landed == old(c.landed)
  {
    hide StateOk, Grows, Finished, Elsewhere, Closed;
    ghost var s0, t0, l0 := c.chain, c.Now(), c.landed;
    ChainStays(c);
    round, settled, ok := seen, false, true;
    if round.status == Cleared {
      settled, ok := SettleGuarded(c, rid, guard);
      if !ok { return; }
      ghost var s1, t1 := c.chain, c.Now();
      if c.faultFree && (guard == null || old(guard.Idle())) {
        ClosedKeepsRound(rid, s0, s1, c.landed[|l0|..], t0, t1);
      }
      var got := c.GetRound(rid);
      GrowsTrans(s0, s1, c.chain);
      LaterRound(s0, c.chain, rid);
      if got.Failed? { return seen, settled, false; }
      round := got.value;
      if c.faultFree && (guard == null || old(guard.Idle())) {
        ClosedLater(rid, s0, s1, c.chain, c.landed[|l0|..], t0, t1, c.Now());
      }
    }
  }

  lemma NotYetWon(c: Client, rid: U64)
    requires c.Valid() && rid in c.chain.cells && c.chain.cells[rid].round.status == Revealing
    ensures c.chain.cells[rid].round.winner.None?
  {
    Covered(c.cfg, c.chain, rid);
  }

  lemma WinnerStays(s: State, t: State, rid: U64, winner: Option<Address>)
    requires Grows(s, t) && (winner.Some? ==> WonBy(s, rid, winner.value))
    ensures winner.Some? ==> rid in t.cells && t.cells[rid].round.winner == winner
  {
    if winner.Some? { StillWon(s, t, rid, winner.value); }
  }

  /** The second half of a round's life: past the reveal deadline it is cleared, and a winner's
      round settled. */
  method CloseRound(c: Client, rid: U64, guard: Guard?) returns (r: Option<CloseResult>)
    requires c.Valid()
    requires guard != null ==> guard.Coherent(c.done)
    modifies c`chain, c`clock, c`landed, c`done, c`lost, guard
    ensures c.Valid() && c.clock >= old(c.clock) && old(c.done) <= c.done
    ensures guard != null ==> guard.Coherent(c.done)
    ensures guard != null && old(guard.Idle()) && r.Some? ==> guard.Idle()
    ensures guard != null ==> OthersKept(old(guard.entries), guard.entries, rid)
    ensures r.Some? && (Final(r.value.finalStatus) || r.value.settled || r.value.voided) ==> rid in c.done
    ensures r.None? ==> c.lost || !InWindow(c.chain, rid)
    ensures r.Some? ==> rid in c.chain.cells && r.value.finalStatus == c.chain.cells[rid].round.status
                        && r.value.winner == c.chain.cells[rid].round.winner
    ensures r.Some? ==> c.landed == old(c.landed) + (if r.value.cleared then [Clear(rid)] else [])
                                                  + (if r.value.settled then [Settle(rid)] else [])
    ensures c.faultFree && rid in old(c.chain).cells && (guard == null || old(guard.Idle())) ==>
              && r.Some? && old(c.landed) <= c.landed
              && Closed(rid, old(c.chain), c.chain, c.landed[|old(c.landed)|..], old(c.Now()), c.Now())
    ensures c.faultFree && r.Some? ==> rid in old(c.chain).cells
  {
    hide StateOk, Grows, Finished, Elsewhere, Closed, ClearStage, WonBy, Client.Valid;
    ghost var s0, t0, l0 := c.chain, c.Now(), c.landed;
    var half := ClearIfDue(c, rid);
    if half.Broke? { return None; }
    if half.Early? {
      NotYetWon(c, rid);
      assert c.faultFree ==> c.landed[|l0|..] == [];
      return Some(CloseResult(Revealing, false, false, false, None));
    }
    ghost var s1, t1, l1 := c.chain, c.Now(), c.landed;
    var round, settled, ok := SettleIfCleared(c, rid, guard, half.round);
    if !ok { return None; }
    WinnerStays(s1, c.chain, rid, half.winner);
    if c.faultFree && (guard == null || old(guard.Idle())) {
      ghost var settles := c.landed[|l1|..];
      CloseAssembled(rid, s0, s1, c.chain, l1[|l0|..], settles, t0, t1, c.Now());
      assert c.landed[|l0|..] == l1[|l0|..] + settles;
    }
    r := Some(CloseResult(round.status, half.cleared, settled, half.cleared && half.winner.None?,
                          if half.winner.None? then round.winner else half.winner));
  }

  // ---- Voiding ----

  lemma VoidEnds(cfg: Config, at: State, rid: U64)
    requires StateOk(cfg, at) && Apply(cfg, at, Void(rid)).Ok?
    ensures var t := Apply(cfg, at, Void(rid)).value;
            Finished(t, rid) && Elsewhere(at, t, rid) && t.now == at.now
  {
    VoidAlwaysOpen(cfg, at, rid);
    CallElsewhere(cfg, at, Void(rid));
  }

  lemma ClockBehind(c: Client)
    requires c.Valid()
    ensures StateOk(c.cfg, c.chain) && (c.faultFree ==> c.Now() <= c.chain.now) && c.Now() <= U64_MAX
  {
  }

  /** A round seen Open, with a grace period that a clock can pass, is not refused voiding for
      other reasons than those the keeper expects. */
  lemma RejectedVoid(cfg: Config, seen: State, at: State, rid: U64)
    requires StateOk(cfg, at) && Grows(seen, at) && rid in seen.cells
    requires seen.cells[rid].round.revealDeadline + VOID_GRACE < U64_MAX
    requires Apply(cfg, at, Void(rid)).Err?
    ensures VoidRefused(Apply(cfg, at, Void(rid)).error)
  {
    assert Later(seen.cells[rid], at.cells[rid]);
    VoidAnswers(cfg, at, rid);
  }

  /** An Open round that nobody could open until an hour past its deadline is given back. */
  method VoidIfStale(c: Client, rid: U64) returns (r: Option<VoidResult>)
    requires c.Valid()
    modifies c`chain, c`clock, c`landed, c`done, c`lost
    ensures c.Valid() && c.clock >= old(c.clock) && old(c.done) <= c.done
    ensures r.Some? && (Final(r.value.finalStatus) || r.value.voided) ==> rid in c.done
    ensures r.None? ==> c.lost || rid !in c.chain.cells
    ensures r.Some? ==> c.landed == old(c.landed) + if r.value.voided then [Void(rid)] else []
    ensures c.faultFree && rid in old(c.chain).cells ==>
              && r.Some? && old(c.landed) <= c.landed
              && VoidTried(rid, old(c.chain), c.chain, c.landed[|old(c.landed)|..], old(c.Now()), c.Now())
    ensures c.faultFree && rid !in old(c.chain).cells ==> c.chain == old(c.chain).(now := c.chain.now)
    ensures c.faultFree && r.Some? ==> rid in old(c.chain).cells
  {
    hide StateOk, Grows, Held, Client.Valid;
    ghost var s0 := c.chain;
    var got := c.GetRound(rid);
    if got.Failed? { return None; }
    if got.value.status != Open { return Some(VoidResult(got.value.status, false)); }
    if c.Now() <= got.value.revealDeadline + VOID_GRACE { return Some(VoidResult(Open, false)); }
    var voided := false;
    ghost var s1 := c.chain;
    ClockBehind(c);
    var reply, at := c.Send(Void(rid));
    if c.faultFree { VoidAlwaysOpen(c.cfg, at, rid); }
    if reply.Sent? {
      voided := true;
      VoidEnds(c.cfg, at, rid);
      ElsewhereTime(s0, at, c.chain, rid);
    } else if !(reply.Rejected? && VoidRefused(reply.error)) {
      if reply.Rejected? { RejectedVoid(c.cfg, s1, at, rid); }
      return None;
    }
    got := c.GetRound(rid);
    if got.Failed? { return None; }
    r := Some(VoidResult(got.value.status, voided));
  }

  // ---- One watch tick ----

  lemma EndedHoldsNothing(cfg: Config, s: State, rid: U64)
    requires StateOk(cfg, s) && rid in s.cells && Final(s.cells[rid].round.status)
    ensures Finished(s, rid)
  {
    Covered(cfg, s, rid);
    AllSettled(s.cells[rid].states, s.cells[rid].round.bidders);
  }

  lemma VoidKeepsRound(rid: U64, s: State, t: State, extra: seq<Call>, clock: nat, clock': nat)
    requires rid in s.cells && VoidTried(rid, s, t, extra, clock, clock')
    ensures rid in t.cells && (extra != [] ==> Final(t.cells[rid].round.status))
    ensures extra == [] ==> t == s.(now := t.now)
  {
  }

  /** A pass with time passing before and afterwards; a round past Revealing needs none. */
  lemma KeptAround(cfg: Config, beacon: Beacon, rid: U64, s1: State, s2: State, s3: State, s4: State,
                   keeps: seq<Call>, t1: nat, t2: nat, t3: nat, t4: nat)
    requires rid in s1.cells && t1 <= t2 <= t3 <= t4
    requires s1.now <= s2.now && s2 == s1.(now := s2.now)
    requires || Kept(cfg, beacon, rid, s2, s3, keeps, t2, t3)
             || (s3 == s2 && keeps == [] && s2.cells[rid].round.status != Open
                 && s2.cells[rid].round.status != Revealing)
    requires s3.now <= s4.now && s4 == s3.(now := s4.now)
    ensures Kept(cfg, beacon, rid, s1, s4, keeps, t1, t4)
  {
    if s1.cells[rid].round.status == Open && keeps != [] {
      PassLater(cfg, beacon, rid, OpenedState(s2, rid), s3, OpenedState(s1, rid), s4, keeps[1..]);
    } else if s1.cells[rid].round.status == Revealing {
      PassLater(cfg, beacon, rid, s2, s3, s1, s4, keeps);
    }
  }

  lemma VoidKeptAssembled(cfg: Config, beacon: Beacon, rid: U64, s0: State, s1: State, s4: State,
                          voids: seq<Call>, keeps: seq<Call>, t0: nat, t1: nat, t4: nat)
    requires rid in s0.cells && t0 <= t1 <= t4
    requires VoidTried(rid, s0, s1, voids, t0, t1)
    requires rid in s1.cells && Kept(cfg, beacon, rid, s1, s4, keeps, t1, t4)
    ensures VoidKept(cfg, beacon, rid, s0, s4, voids, keeps, t0, t4)
  {
    if voids == [] { KeptAround(cfg, beacon, rid, s0, s1, s4, s4, keeps, t0, t1, t4, t4); }
  }

  /** The calls landed in the first half of a tick are those it reports. */
  predicate StartReported(calls: seq<Call>, rid: U64, void: Option<VoidResult>, keep: Option<KeepResult>) {
    var voids := if void.Some? && void.value.voided then [Void(rid)] else [];
    && voids <= calls
    && if keep.Some? then KeptAsReported(calls[|voids|..], rid, keep.value) else calls == voids
  }

  function CloseCalls(rid: U64, close: Option<CloseResult>): seq<Call> {
    if close.None? then []
    else (if close.value.cleared then [Clear(rid)] else []) + (if close.value.settled then [Settle(rid)] else [])
  }

  /** The calls landed in a tick are those it reports, in this order. */
  predicate TickReported(calls: seq<Call>, rid: U64, t: Tick) {
    var closes := CloseCalls(rid, t.close);
    && |closes| <= |calls| && calls[|calls| - |closes|..] == closes
    && StartReported(calls[..|calls| - |closes|], rid, t.void, t.keep)
  }

  lemma StartAssembled(rid: U64, voids: seq<Call>, keeps: seq<Call>, void: VoidResult, keep: Option<KeepResult>)
    requires voids == if void.voided then [Void(rid)] else []
    requires if keep.Some? then KeptAsReported(keeps, rid, keep.value) else keeps == []
    ensures StartReported(voids + keeps, rid, if void.voided then Some(void) else None, keep)
  {
    assert (voids + keeps)[|voids|..] == keeps;
  }

  lemma TickAssembled(rid: U64, start: seq<Call>, closes: seq<Call>, t: Tick)
    requires StartReported(start, rid, t.void, t.keep) && closes == CloseCalls(rid, t.close)
    ensures TickReported(start + closes, rid, t)
  {
    var calls := start + closes;
    assert calls[..|calls| - |closes|] == start && calls[|calls| - |closes|..] == closes;
  }

  /** Read the round, give it a pass if it is Open or Revealing, and read it again. */
  method KeepIfLive(c: Client, rid: U64, pollMs: nat) returns (keep: Option<KeepResult>, status: Status, ok: bool)
    requires c.Valid()
    modifies c`chain, c`clock, c`landed, c`done, c`lost
    ensures c.Valid() && c.clock >= old(c.clock) && old(c.done) <= c.done
    ensures ok && Final(status) ==> rid in c.done
    ensures ok ==> old(c.landed) <= c.landed
    ensures !ok ==> c.lost || c.clock == END_OF_TIME || !InWindow(c.chain, rid)
    ensures ok ==> if keep.Some? then KeptAsReported(c.landed[|old(c.landed)|..], rid, keep.value)
                   else c.landed == old(c.landed)
    ensures c.faultFree && rid in old(c.chain).cells ==>
              && ok && rid in c.chain.cells && status == c.chain.cells[rid].round.status
              && Kept(c.cfg, c.beacon, rid, old(c.chain), c.chain, c.landed[|old(c.landed)|..], old(c.Now()), c.Now())
    ensures c.faultFree && rid !in old(c.chain).cells ==> c.chain == old(c.chain).(now := c.chain.now)
    ensures c.faultFree && ok ==> rid in old(c.chain).cells
  {
    hide StateOk, Grows, Elsewhere, Kept, KeptAsReported;
    keep, status, ok := None, Open, false;
    ghost var s1, t1, l1 := c.chain, c.Now(), c.landed;
    var got := c.GetRound(rid);
    if got.Failed? { return; }
    ghost var s2, t2 := c.chain, c.Now();
    if got.value.status == Open || got.value.status == Revealing {
      keep := KeepRound(c, rid, 0, pollMs);
      if keep.None? { return; }
    }
    ghost var s3, t3, l3 := c.chain, c.Now(), c.landed;
    if keep.Some? {
      got := c.GetRound(rid);
      if got.Failed? { return; }
    } else {
      assert c.landed[|l1|..] == [];
    }
    if c.faultFree { KeptAround(c.cfg, c.beacon, rid, s1, s2, s3, c.chain, l3[|l1|..], t1, t2, t3, c.Now()); }
    status, ok := got.value.status, true;
  }

  method VoidThenKeep(c: Client, rid: U64, pollMs: nat)
    returns (void: Option<VoidResult>, keep: Option<KeepResult>, status: Status, ok: bool, ghost middle: nat)
    requires c.Valid()
    modifies c`chain, c`clock, c`landed, c`done, c`lost
    ensures c.Valid() && c.clock >= old(c.clock) && old(c.done) <= c.done
    ensures ok && Final(status) ==> rid in c.done
    ensures ok ==> old(c.landed) <= c.landed && StartReported(c.landed[|old(c.landed)|..], rid, void, keep)
    ensures !ok ==> c.lost || c.clock == END_OF_TIME || !InWindow(c.chain, rid)
    ensures c.faultFree && rid in old(c.chain).cells ==>
              && ok && old(c.landed) <= c.landed && |old(c.landed)| <= middle <= |c.landed|
              && VoidKept(c.cfg, c.beacon, rid, old(c.chain), c.chain,
                          c.landed[|old(c.landed)|..middle], c.landed[middle..], old(c.Now()), c.Now())
              && rid in c.chain.cells && status == c.chain.cells[rid].round.status
    ensures c.faultFree && rid !in old(c.chain).cells ==> c.chain == old(c.chain).(now := c.chain.now)
    ensures c.faultFree && ok ==> rid in old(c.chain).cells
  {
    hide StateOk, Grows, Finished, Elsewhere, Kept, VoidTried, VoidKept, StartReported, KeptAsReported;
    void, keep, status, ok, middle := None, None, Open, false, |c.landed|;
    ghost var s0, t0, l0 := c.chain, c.Now(), c.landed;
    var voidRes := VoidIfStale(c, rid);
    if voidRes.None? { return; }
    ghost var s1, t1, l1 := c.chain, c.Now(), c.landed;
    if c.faultFree { VoidKeepsRound(rid, s0, s1, l1[|l0|..], t0, t1); }
    keep, status, ok := KeepIfLive(c, rid, pollMs);
    if !ok { return; }
    if c.faultFree {
      VoidKeptAssembled(c.cfg, c.beacon, rid, s0, s1, c.chain, l1[|l0|..], c.landed[|l1|..], t0, t1, c.Now());
      assert c.landed[|l0|..|l1|] == l1[|l0|..];
    }
    void := if voidRes.value.voided then voidRes else None;
    middle := |l1|;
    assert c.landed[|l0|..] == l1[|l0|..] + c.landed[|l1|..];
    StartAssembled(rid, l1[|l0|..], c.landed[|l1|..], voidRes.value, keep);
  }

  /** Nothing to close: neither Revealing nor Cleared. */
  lemma NothingToClose(rid: U64, s: State, clock: nat)
    requires rid in s.cells && s.cells[rid].round.status != Revealing && s.cells[rid].round.status != Cleared
    ensures Closed(rid, s, s, [], clock, clock)
  {
  }

  /** The results of a tick, read off after a last look at the chain. */
  lemma TickConcluded(cfg: Config, beacon: Beacon, rid: U64, k: TickRun, s: State)
    requires StateOk(cfg, k.s0) && StateOk(cfg, s) && rid in k.s0.cells
    requires k.t0 <= k.t1 <= k.t2 && k.t0 <= k.s0.now && k.t1 <= k.s1.now && k.t2 <= k.s2.now
    requires VoidKept(cfg, beacon, rid, k.s0, k.s1, k.voids, k.keeps, k.t0, k.t1)
    requires rid in k.s1.cells && Closed(rid, k.s1, k.s2, k.closes, k.t1, k.t2)
    requires k.s2.now <= s.now && s == k.s2.(now := s.now)
    ensures k.s0.now <= s.now && Elsewhere(k.s0, s, rid)
    ensures Overdue(beacon, k.s0, k.t0, rid) ==> Finished(s, rid)
    ensures Uncrossed(cfg, beacon, k.s0.cells[rid].round, k.s0.now, s.now, k.t0, k.t2, k.t2) ==>
              Head(k.voids + k.keeps + k.closes) == FirstMove(cfg, beacon, k.s0, k.t0, rid)
  {
    hide StateOk, FirstMove, Overdue, CellOk, Kept;
    RoundTiming(cfg, k.s0, rid);
    Covered(cfg, k.s0, rid);
    if Overdue(beacon, k.s0, k.t0, rid) {
      TickFinishesOverdue(cfg, beacon, rid, k);
      EndedHoldsNothing(cfg, s, rid);
    }
    if Uncrossed(cfg, beacon, k.s0.cells[rid].round, k.s0.now, s.now, k.t0, k.t2, k.t2) {
      TickStartsAsPredicted(cfg, beacon, rid, k);
    }
  }

  /** The second half of a tick: close a round that is Revealing or Cleared. */
  method CloseIfReady(c: Client, rid: U64, guard: Guard?, seen: Status)
    returns (close: Option<CloseResult>, status: Status, ok: bool)
    requires c.Valid()
    requires guard != null ==> guard.Coherent(c.done)
    requires Final(seen) ==> rid in c.done
    requires c.faultFree && rid in c.chain.cells ==> seen == c.chain.cells[rid].round.status
    modifies c`chain, c`clock, c`landed, c`done, c`lost, guard
    ensures c.Valid() && c.clock >= old(c.clock) && old(c.done) <= c.done
    ensures guard != null ==> guard.Coherent(c.done)
    ensures guard != null && old(guard.Idle()) && ok ==> guard.Idle()
    ensures guard != null ==> OthersKept(old(guard.entries), guard.entries, rid)
    ensures ok && Final(status) ==> rid in c.done
    ensures ok ==> c.landed == old(c.landed) + CloseCalls(rid, close)
    ensures !ok ==> c.lost || !InWindow(c.chain, rid)
    ensures ok && close.Some? && (close.value.settled || close.value.voided) ==> rid in c.done
    ensures c.faultFree && rid in old(c.chain).cells && (guard == null || old(guard.Idle())) ==>
              && ok && old(c.landed) <= c.landed && rid in c.chain.cells && status == c.chain.cells[rid].round.status
              && Closed(rid, old(c.chain), c.chain, c.landed[|old(c.landed)|..], old(c.Now()), c.Now())
    ensures c.faultFree && rid !in old(c.chain).cells && ok ==> c.chain == old(c.chain)
  {
    hide StateOk, Grows, Finished, Elsewhere, Closed;
    ghost var s0, t0, l0 := c.chain, c.Now(), c.landed;
    close, status, ok := None, seen, false;
    if seen == Revealing || seen == Cleared {
      close := CloseRound(c, rid, guard);
      if close.None? { return; }
      ghost var s1, t1 := c.chain, c.Now();
      var got := c.GetRound(rid);
      if got.Failed? { return; }
      status := got.value.status;
      if c.faultFree && (guard == null || old(guard.Idle())) {
        ClosedLater(rid, s0, s1, c.chain, c.landed[|l0|..], t0, t1, c.Now());
      }
    } else if rid in s0.cells && c.faultFree {
      NothingToClose(rid, s0, t0);
      assert c.landed[|l0|..] == [];
    }
    ok := true;
  }

  /** A tick: give a stale round back, else keep it, then close it.

      Whatever goes wrong, a reported end is a real one.  Without faults, an overdue round is
      finished - Settled or Voided with nothing of it left in the contract - and other rounds
      are untouched. */
  method WatchRound(c: Client, rid: U64, guard: Guard?, pollMs: nat) returns (r: Option<Tick>)
    requires c.Valid()
    requires guard != null ==> guard.Coherent(c.done)
    modifies c`chain, c`clock, c`landed, c`done, c`lost, guard
    ensures c.Valid() && c.clock >= old(c.clock) && old(c.done) <= c.done
    ensures guard != null ==> guard.Coherent(c.done)
    ensures guard != null && old(guard.Idle()) && r.Some? ==> guard.Idle()
    ensures guard != null ==> OthersKept(old(guard.entries), guard.entries, rid)
    ensures r.Some? && Final(r.value.finalStatus) ==> rid in c.done
    ensures r.Some? ==> old(c.landed) <= c.landed && TickReported(c.landed[|old(c.landed)|..], rid, r.value)
    ensures r.None? ==> c.lost || c.clock == END_OF_TIME || !InWindow(c.chain, rid)
    ensures r.Some? && r.value.close.Some? && (r.value.close.value.settled || r.value.close.value.voided) ==>
              rid in c.done
    ensures c.faultFree && rid in old(c.chain).cells && (guard == null || old(guard.Idle())) ==>
              && r.Some? && rid in c.chain.cells && r.value.finalStatus == c.chain.cells[rid].round.status
              && old(c.landed) <= c.landed && old(c.chain).now <= c.chain.now && Elsewhere(old(c.chain), c.chain, rid)
              && (Overdue(c.beacon, old(c.chain), old(c.Now()), rid) ==> Finished(c.chain, rid))
              && (Uncrossed(c.cfg, c.beacon, old(c.chain).cells[rid].round, old(c.chain).now, c.chain.now,
                            old(c.Now()), c.Now(), c.Now()) ==>
                    Head(c.landed[|old(c.landed)|..]) == FirstMove(c.cfg, c.beacon, old(c.chain), old(c.Now()), rid))
    ensures c.faultFree && rid !in old(c.chain).cells ==> c.chain == old(c.chain).(now := c.chain.now)
    ensures c.faultFree && r.Some? ==> rid in old(c.chain).cells
  {
    hide StateOk, Grows, Finished, Elsewhere, VoidKept, Closed, Overdue, FirstMove, StartReported, TickReported,
         Client.Valid, InWindow, Uncrossed;
    ghost var s0, t0, l0 := c.chain, c.Now(), c.landed;
    ClockBehind(c);
    var void, keep, status, ok, middle := VoidThenKeep(c, rid, pollMs);
    ClockBehind(c);
    if !ok { return None; }
    ghost var s1, t1, l1 := c.chain, c.Now(), c.landed;
    var close;
    close, status, ok := CloseIfReady(c, rid, guard, status);
    if !ok { return None; }
    if c.faultFree && (guard == null || old(guard.Idle())) {
      ClockBehind(c);
      TickConcluded(c.cfg, c.beacon, rid,
                    TickRun(s0, s1, c.chain, t0, t1, c.Now(), l1[|l0|..middle], l1[middle..], c.landed[|l1|..]),
                    c.chain);
      assert c.landed[|l0|..] == l1[|l0|..middle] + l1[middle..] + c.landed[|l1|..];
    }
    r := Some(Tick(void, keep, close, status));
    assert c.landed[|l0|..] == l1[|l0|..] + c.landed[|l1|..];
    TickAssembled(rid, l1[|l0|..], c.landed[|l1|..], r.value);
  }
}

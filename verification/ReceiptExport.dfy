/** Exporting a receipt (`packages/sdk/src/client.ts:548-603`): what the offline verifier
    says about it, also when the round changes while it is being read. */
module ReceiptExport {
  import opened Common
  import opened Token
  import opened RoundTypes
  import opened RoundSpec
  import opened RoundInvariant
  import opened Clearing
  import opened RoundRuns
  import opened RoundProgress
  import opened Receipt
  import opened SampleRuns
  import Commitment
  import Sdk

  /** What the client is configured with. */
  datatype Site = Site(network: string, contractId: string)

  predicate SiteOk(site: Site) { site.network != [] && site.contractId != [] && site.contractId[0] == 'C' }

  function EntryOf(st: BidState, seal: Option<Seal>): Entry {
    Entry(Commitment.ToHex(st.commitment), Text(st.escrow),
          if st.revealedValue.Some? then Some(Text(st.revealedValue.value)) else None,
          if st.revealedNonce.Some? then Some(Commitment.ToHex(st.revealedNonce.value)) else None, st.valid, st.settled,
          if seal.Some? then
            Evidence(Some(Commitment.ToHex(seal.value.ciphertext)), Some(Commitment.ToHex(seal.value.auditorBlob)))
          else Evidence(None, None))
  }

  function SealOf(cell: Cell, a: Address): Option<Seal> {
    if a in cell.seals then Some(cell.seals[a]) else None
  }

  function Document(h: Hashes, site: Site, rid: U64, r: Round, bidders: seq<Address>, bids: map<Address, Entry>)
    : Receipt
  {
    Receipt(1, site.network, h.fingerprint(site.network), site.contractId, Text(rid), Some(r.rule), Some(r.status),
            bidders, bids, r.winner, Some(r.winningBid))
  }

  function Entries(cell: Cell, bidders: seq<Address>): map<Address, Entry>
    requires forall a | a in bidders :: a in cell.states
  {
    map a | a in bidders :: EntryOf(cell.states[a], SealOf(cell, a))
  }

  /** The receipt of a round read in one instant. */
  function Snapshot(h: Hashes, site: Site, rid: U64, cell: Cell): Receipt
    requires forall a | a in cell.round.bidders :: a in cell.states
  {
    Document(h, site, rid, cell.round, cell.round.bidders, Entries(cell, cell.round.bidders))
  }

  // ---- One entry ----

  /** Some condition of the bid, in some round status, shows as `e`. */
  ghost predicate Genuine(cfg: Config, e: Entry) {
    exists status, st: BidState, seal :: BidOk(cfg, status, st) && e == EntryOf(st, seal)
  }

  /** Exported bytes: what the verifier makes of their text. */
  lemma HexText(bytes: Bytes)
    ensures var t := Commitment.ToHex(bytes);
            && |t| == 2 * |bytes| && HexDigits(t) && Commitment.LowerAll(t) == t && Unhex(t) == Some(bytes)
  {
    Commitment.HexShape(bytes);
    Commitment.HexRoundTrip(bytes);
  }

  /** An entry shows its bid: read back, its parts are the stored ones. */
  lemma ShownBid(st: BidState, seal: Option<Seal>)
    ensures var e := EntryOf(st, seal);
            && Unhex(e.commitment) == Some(st.commitment) && e.escrow == Text(st.escrow)
            && (e.revealedValue.Some? <==> st.revealedValue.Some?)
            && (e.revealedValue.Some? ==> e.revealedValue.value == Text(st.revealedValue.value))
            && (e.nonce.Some? <==> st.revealedNonce.Some?)
            && (e.nonce.Some? ==> Unhex(e.nonce.value) == Some(st.revealedNonce.value))
            && e.valid == st.valid && e.settled == st.settled
            && (e.evidence.ciphertext.Some? <==> seal.Some?) && (e.evidence.auditorBlob.Some? <==> seal.Some?)
            && (seal.Some? ==>
                  && Unhex(e.evidence.ciphertext.value) == Some(seal.value.ciphertext)
                  && Unhex(e.evidence.auditorBlob.value) == Some(seal.value.auditorBlob))
  {
    HexText(st.commitment);
    if st.revealedNonce.Some? { HexText(st.revealedNonce.value); }
    if seal.Some? {
      HexText(seal.value.ciphertext);
      HexText(seal.value.auditorBlob);
    }
    hide Unhex, HexDigits, Commitment.ToHex, Commitment.LowerAll;
  }

  /** A receipt shows its round, with the entries of its bidders. */
  lemma ShownRound(h: Hashes, site: Site, rid: U64, cell: Cell)
    requires forall a | a in cell.round.bidders :: a in cell.states
    ensures var doc := Snapshot(h, site, rid, cell);
            && doc.version == 1 && doc.network == site.network && doc.fingerprint == h.fingerprint(site.network)
            && doc.contractId == site.contractId && doc.roundId == Text(rid)
            && doc.rule == Some(cell.round.rule) && doc.status == Some(cell.round.status)
            && doc.bidders == cell.round.bidders && doc.winner == cell.round.winner
            && doc.winningValue == Some(cell.round.winningBid)
            && (forall a :: a in doc.bids <==> a in cell.round.bidders)
            && forall a | a in doc.bids ::
                 doc.bids[a] == EntryOf(cell.states[a], if a in cell.seals then Some(cell.seals[a]) else None)
  {
  }

  lemma GenuineIsOk(cfg: Config, h: Hashes, e: Entry)
    requires Genuine(cfg, e) && h.sha256 == cfg.sha256
    ensures !Throws(e) && EntryOk(h, e)
  {
    var status, st: BidState, seal :| BidOk(cfg, status, st) && e == EntryOf(st, seal);
    HexText(st.commitment);
    if st.revealedNonce.Some? { HexText(st.revealedNonce.value); }
    hide Unhex, HexDigits, Commitment.ToHex, Commitment.LowerAll, Commitment.Encode;
  }

  lemma ClaimOf(cfg: Config, status: Status, st: BidState, seal: Option<Seal>)
    requires BidOk(cfg, status, st)
    ensures Claim(EntryOf(st, seal)) == if st.valid then st.revealedValue else None
  {
    if st.revealedNonce.Some? { HexText(st.revealedNonce.value); }
    hide Unhex, Commitment.ToHex, Commitment.Encode;
  }

  // ---- The winner ----

  /** The entries of `r` claim what the bids of `cell` are worth. */
  ghost predicate Agrees(cell: Cell, r: Receipt) {
    && r.bidders == cell.round.bidders && r.rule == Some(cell.round.rule)
    && forall a | a in r.bidders ::
         && a in cell.states && a in r.bids
         && Claim(r.bids[a]) == if cell.states[a].valid then cell.states[a].revealedValue else None
  }

  /** The verifier's fold refines the contract's loop. */
  lemma {:induction false} FoldRefinesClear(cell: Cell, r: Receipt, n: nat)
    requires Agrees(cell, r) && n <= |r.bidders|
    ensures Recomputed(r, n) == Leader(cell, n)
  {
    if n > 0 {
      FoldRefinesClear(cell, r, n - 1);
      assert r.bidders[n - 1] in r.bidders;
    }
  }

  lemma DecidedWinner(cfg: Config, cell: Cell, r: Receipt)
    requires CellOk(cfg, cell) && Agrees(cell, r)
    ensures cell.round.status == Cleared || cell.round.status == Settled ==>
              && cell.round.winner.Some?
              && Recomputed(r, |r.bidders|) == Some((cell.round.winner.value, cell.round.winningBid))
    ensures cell.round.status == Voided ==> Recomputed(r, |r.bidders|) == None
  {
    FoldRefinesClear(cell, r, |r.bidders|);
    var winner := if cell.round.winner.Some? then cell.round.winner.value else cfg.self;
    LeaderIsTheWinner(cell, winner, cell.round.winningBid);
  }

  // ---- The whole receipt ----

  predicate AllAccounts(bidders: seq<Address>) { forall i | 0 <= i < |bidders| :: bidders[i].Account? }

  /** When a receipt made of genuine entries is free of errors. */
  lemma GenuineReceipt(cfg: Config, h: Hashes, site: Site, rid: U64, r: Round, bidders: seq<Address>,
                       bids: map<Address, Entry>)
    requires h.sha256 == cfg.sha256 && Distinct(bidders)
    requires forall a :: a in bids <==> a in bidders
    requires forall a | a in bids :: Genuine(cfg, bids[a])
    requires WinnerOk(Document(h, site, rid, r, bidders, bids))
    ensures var doc := Document(h, site, rid, r, bidders, bids);
            && NeverThrows(doc, |bidders|)
            && (ErrorFree(h, doc) <==> SiteOk(site) && AllAccounts(bidders) && EvidencesOk(doc, |bidders|))
  {
    var doc := Document(h, site, rid, r, bidders, bids);
    forall i | 0 <= i < |bidders|
      ensures bidders[i] in bids && !Throws(bids[bidders[i]]) && EntryOk(h, bids[bidders[i]])
    {
      GenuineIsOk(cfg, h, bids[bidders[i]]);
    }
  }

  /** No stored seal has an empty part: its hex text would be empty, which the verifier refuses. */
  predicate SealsFilled(cell: Cell) {
    forall a | a in cell.seals :: cell.seals[a].ciphertext != [] && cell.seals[a].auditorBlob != []
  }

  lemma EvidenceShown(st: BidState, seal: Option<Seal>)
    ensures EvidenceOk(EntryOf(st, seal)) <==>
              (seal.Some? ==> seal.value.ciphertext != [] && seal.value.auditorBlob != [])
  {
    if seal.Some? {
      HexText(seal.value.ciphertext);
      HexText(seal.value.auditorBlob);
    }
    hide Unhex, HexDigits, Commitment.ToHex;
  }

  lemma SnapshotEvidence(cfg: Config, h: Hashes, site: Site, rid: U64, cell: Cell)
    requires IndexOk(cfg, cell)
    ensures EvidencesOk(Snapshot(h, site, rid, cell), |cell.round.bidders|) <==> SealsFilled(cell)
  {
    var bidders := cell.round.bidders;
    var doc := Snapshot(h, site, rid, cell);
    forall a | a in bidders
      ensures EvidenceOk(doc.bids[a]) <==>
                (a in cell.seals ==> cell.seals[a].ciphertext != [] && cell.seals[a].auditorBlob != [])
    {
      EvidenceShown(cell.states[a], SealOf(cell, a));
    }
    hide EvidenceOk, EntryOf, Distinct;
    if EvidencesOk(doc, |bidders|) {
      forall a | a in cell.seals
        ensures cell.seals[a].ciphertext != [] && cell.seals[a].auditorBlob != []
      {
        assert a in bidders;
        var i :| 0 <= i < |bidders| && bidders[i] == a;
        assert EvidenceOk(doc.bids[doc.bidders[i]]);
      }
    }
  }

  lemma SnapshotAgrees(cfg: Config, h: Hashes, site: Site, rid: U64, cell: Cell)
    requires CellOk(cfg, cell)
    ensures Agrees(cell, Snapshot(h, site, rid, cell))
    ensures forall a | a in cell.round.bidders :: Genuine(cfg, Snapshot(h, site, rid, cell).bids[a])
  {
    forall a | a in cell.round.bidders
      ensures var e := EntryOf(cell.states[a], SealOf(cell, a));
              Genuine(cfg, e) && Claim(e) == if cell.states[a].valid then cell.states[a].revealedValue else None
    {
      assert BidOk(cfg, cell.round.status, cell.states[a]);
      ClaimOf(cfg, cell.round.status, cell.states[a], SealOf(cell, a));
    }
  }

  /** A receipt of any reachable round never throws; it is free of errors exactly when every
      bidder is an account and no stored seal has an empty part; and it recomputes the
      contract's own winner and price. */
  lemma ExportVerifies(cfg: Config, balances: Balances, calls: seq<Call>, rid: U64, h: Hashes, site: Site)
    requires rid in Exec(cfg, Deployed(cfg, balances), calls).cells
    requires h.sha256 == cfg.sha256 && SiteOk(site)
    ensures var cell := Exec(cfg, Deployed(cfg, balances), calls).cells[rid];
            && CellOk(cfg, cell)
            && var doc := Snapshot(h, site, rid, cell);
               && NeverThrows(doc, |doc.bidders|)
               && (ErrorFree(h, doc) <==> AllAccounts(doc.bidders) && SealsFilled(cell))
               && (cell.round.status == Cleared || cell.round.status == Settled ==>
                     && cell.round.winner.Some?
                     && Recomputed(doc, |doc.bidders|) == Some((cell.round.winner.value, cell.round.winningBid)))
               && (cell.round.status == Voided ==> Recomputed(doc, |doc.bidders|) == None)
  {
    RunKeeps(cfg, Deployed(cfg, balances), calls);
    var cell := Exec(cfg, Deployed(cfg, balances), calls).cells[rid];
    assert CellOk(cfg, cell);
    var doc := Snapshot(h, site, rid, cell);
    SnapshotAgrees(cfg, h, site, rid, cell);
    SnapshotEvidence(cfg, h, site, rid, cell);
    DecidedWinner(cfg, cell, doc);
    GenuineReceipt(cfg, h, site, rid, cell.round, doc.bidders, doc.bids);
  }

  function BlobLessRun(): seq<Call> { [Creation(2000), Bid([])] }

  /** The condition does fail: the contract takes a bid with an empty auditor blob, and the
      receipt of that open round is refused. */
  lemma EmptyBlobIsRefused(cfg: Config, h: Hashes, site: Site)
    requires Sample(cfg) && h.sha256 == cfg.sha256 && SiteOk(site)
    ensures var s := Exec(cfg, Deployed(cfg, FUNDS), BlobLessRun());
            && 1 in s.cells && CellOk(cfg, s.cells[1])
            && var doc := Snapshot(h, site, 1, s.cells[1]);
               AllAccounts(doc.bidders) && NeverThrows(doc, |doc.bidders|) && !ErrorFree(h, doc)
  {
    hide Exec, ErrorFree, NeverThrows;
    Committed(cfg, 2000, []);
    ghost var cell := Exec(cfg, Deployed(cfg, FUNDS), BlobLessRun()).cells[1];
    assert BIDDER in cell.seals && cell.seals[BIDDER].auditorBlob == [];
    assert AllAccounts(cell.round.bidders);
    ExportVerifies(cfg, FUNDS, BlobLessRun(), 1, h, site);
  }

  // ---- Exporting while others act ----

  /** The entry of `a` read some time after `cell` was seen. */
  ghost predicate ReadFrom(cfg: Config, cell: Cell, a: Address, e: Entry) {
    && Genuine(cfg, e)
    && (Decided(cell.round.status) ==>
          && a in cell.states
          && Claim(e) == if cell.states[a].valid then cell.states[a].revealedValue else None)
  }

  lemma EntryRead(cfg: Config, cell: Cell, later: Cell, a: Address, seal: Option<Seal>)
    requires CellOk(cfg, cell) && CellOk(cfg, later) && Later(cell, later) && a in later.states
    ensures ReadFrom(cfg, cell, a, EntryOf(later.states[a], seal))
  {
    assert BidOk(cfg, later.round.status, later.states[a]);
    ClaimOf(cfg, later.round.status, later.states[a], seal);
  }

  lemma SomeoneWon(cfg: Config, cell: Cell, doc: Receipt)
    requires CellOk(cfg, cell)
    requires doc.winner == cell.round.winner
    requires Decided(cell.round.status) ==> Agrees(cell, doc)
    ensures WinnerOk(doc)
  {
    if Decided(cell.round.status) { DecidedWinner(cfg, cell, doc); }
  }

  lemma CellAt(cfg: Config, s: State, rid: U64)
    requires StateOk(cfg, s) && rid in s.cells
    ensures CellOk(cfg, s.cells[rid])
  {
  }

  lemma LaterAt(s: State, t: State, rid: U64)
    requires Grows(s, t) && rid in s.cells
    ensures rid in t.cells && Later(s.cells[rid], t.cells[rid])
  {
  }

  lemma DecidedIndex(cell: Cell, later: Cell)
    requires Later(cell, later) && Decided(cell.round.status)
    ensures later.round.bidders == cell.round.bidders
  {
  }

  lemma AgreesOnceDecided(cfg: Config, h: Hashes, site: Site, rid: U64, cell: Cell, bidders: seq<Address>,
                          bids: map<Address, Entry>)
    requires Decided(cell.round.status) && bidders == cell.round.bidders
    requires forall a | a in bidders :: a in bids && ReadFrom(cfg, cell, a, bids[a])
    ensures Agrees(cell, Document(h, site, rid, cell.round, bidders, bids))
  {
  }

  lemma ReceiptComplete(cfg: Config, h: Hashes, site: Site, rid: U64, cell: Cell, bidders: seq<Address>,
                 bids: map<Address, Entry>)
    requires CellOk(cfg, cell) && h.sha256 == cfg.sha256 && Distinct(bidders)
    requires Decided(cell.round.status) ==> bidders == cell.round.bidders
    requires forall a :: a in bids <==> a in bidders
    requires forall a | a in bids :: ReadFrom(cfg, cell, a, bids[a])
    ensures var doc := Document(h, site, rid, cell.round, bidders, bids);
            && NeverThrows(doc, |bidders|)
            && (ErrorFree(h, doc) <==> SiteOk(site) && AllAccounts(bidders) && EvidencesOk(doc, |bidders|))
            && (cell.round.status == Cleared || cell.round.status == Settled ==>
                  && cell.round.winner.Some?
                  && Recomputed(doc, |bidders|) == Some((cell.round.winner.value, cell.round.winningBid)))
  {
    hide ErrorFree, NeverThrows, EvidencesOk, Recomputed, WinnerOk;
    var doc := Document(h, site, rid, cell.round, bidders, bids);
    if Decided(cell.round.status) {
      AgreesOnceDecided(cfg, h, site, rid, cell, bidders, bids);
      DecidedWinner(cfg, cell, doc);
    }
    SomeoneWon(cfg, cell, doc);
    GenuineReceipt(cfg, h, site, rid, cell.round, bidders, bids);
  }

  /** One bidder's state and seal, read one after the other. */
  method ReadEntry(client: Sdk.Client, rid: U64, bidder: Address, ghost first: State) returns (e: Sdk.Read<Entry>)
    requires client.Valid() && Grows(first, client.chain) && StateOk(client.cfg, first) && rid in first.cells
    modifies client`chain, client`clock, client`landed, client`done, client`lost
    ensures client.Looked() && Grows(first, client.chain)
    ensures e.Got? ==> ReadFrom(client.cfg, first.cells[rid], bidder, e.value)
    ensures client.faultFree && rid in old(client.chain).cells && bidder in old(client.chain).cells[rid].states ==>
              e == Sdk.Got(EntryOf(old(client.chain).cells[rid].states[bidder],
                                   SealOf(old(client.chain).cells[rid], bidder)))
  {
    hide StateOk, CellOk, Grows, Later, ReadFrom, EntryOf;
    var state := client.GetBidState(rid, bidder);
    GrowsTrans(first, old(client.chain), client.chain);
    if state.Failed? { return Sdk.Failed; }
    ghost var between := client.chain;
    LaterAt(first, between, rid);
    CellAt(client.cfg, first, rid);
    CellAt(client.cfg, between, rid);
    var seal := client.GetSeal(rid, bidder);
    GrowsTrans(first, between, client.chain);
    GrowsTrans(old(client.chain), between, client.chain);
    if seal.Failed? { return Sdk.Failed; }
    EntryRead(client.cfg, first.cells[rid], between.cells[rid], bidder, seal.value);
    e := Sdk.Got(EntryOf(state.value, seal.value));
  }

  method ReadEntries(client: Sdk.Client, rid: U64, bidders: seq<Address>, ghost first: State)
    returns (bids: Sdk.Read<map<Address, Entry>>)
    requires client.Valid() && Grows(first, client.chain) && StateOk(client.cfg, first) && rid in first.cells
    modifies client`chain, client`clock, client`landed, client`done, client`lost
    ensures client.Looked()
    ensures bids.Got? ==>
              && (forall a :: a in bids.value <==> a in bidders)
              && (forall a | a in bids.value :: ReadFrom(client.cfg, first.cells[rid], a, bids.value[a]))
    ensures client.faultFree && rid in old(client.chain).cells
            && (forall a | a in bidders :: a in old(client.chain).cells[rid].states) ==>
              bids == Sdk.Got(Entries(old(client.chain).cells[rid], bidders))
  {
    hide StateOk, CellOk, Grows, Later, ReadFrom, EntryOf;
    GrowsRefl(client.cfg, client.chain);
    var found: map<Address, Entry> := map[];
    for i := 0 to |bidders|
      invariant client.Looked() && Grows(first, client.chain)
      invariant forall a :: a in found <==> a in bidders[..i]
      invariant forall a | a in found :: ReadFrom(client.cfg, first.cells[rid], a, found[a])
      invariant client.faultFree && rid in old(client.chain).cells
                && (forall a | a in bidders :: a in old(client.chain).cells[rid].states) ==>
                  found == Entries(old(client.chain).cells[rid], bidders[..i])
    {
      ghost var before := client.chain;
      var entry := ReadEntry(client, rid, bidders[i], first);
      GrowsTrans(old(client.chain), before, client.chain);
      if entry.Failed? { return Sdk.Failed; }
      found := found[bidders[i] := entry.value];
      assert bidders[..i + 1] == bidders[..i] + [bidders[i]];
    }
    assert bidders[..|bidders|] == bidders;
    bids := Sdk.Got(found);
  }

  lemma IndexedBids(cfg: Config, cell: Cell)
    requires CellOk(cfg, cell)
    ensures forall a | a in cell.round.bidders :: a in cell.states
  {
  }

  /** The round record is read first, then the index, then bid by bid, while anybody may act.
      The receipt is still free of errors whenever every bidder is an account and no evidence
      is empty, and once the round was decided it recomputes the contract's winner.  With
      nobody interfering it is the receipt of one instant. */
  method ExportReceipt(client: Sdk.Client, h: Hashes, site: Site, rid: U64) returns (doc: Sdk.Read<Receipt>)
    requires client.Valid() && h.sha256 == client.cfg.sha256
    modifies client`chain, client`clock, client`landed, client`done, client`lost
    ensures client.Looked()
    ensures doc.Got? ==>
              && NeverThrows(doc.value, |doc.value.bidders|)
              && (ErrorFree(h, doc.value) <==>
                    SiteOk(site) && AllAccounts(doc.value.bidders) && EvidencesOk(doc.value, |doc.value.bidders|))
    ensures doc.Got? && (doc.value.status == Some(Cleared) || doc.value.status == Some(Settled)) ==>
              && doc.value.winner.Some? && doc.value.winningValue.Some?
              && Recomputed(doc.value, |doc.value.bidders|)
                 == Some((doc.value.winner.value, doc.value.winningValue.value))
    ensures client.faultFree && rid in old(client.chain).cells ==>
              && (forall a | a in old(client.chain).cells[rid].round.bidders ::
                    a in old(client.chain).cells[rid].states)
              && doc == Sdk.Got(Snapshot(h, site, rid, old(client.chain).cells[rid]))
  {
    hide StateOk, CellOk, Grows, Later, ErrorFree, NeverThrows, EvidencesOk, ReadFrom, EntryOf, Recomputed, Distinct;
    if rid in client.chain.cells {
      CellAt(client.cfg, client.chain, rid);
      IndexedBids(client.cfg, client.chain.cells[rid]);
    }
    var round := client.GetRound(rid);
    if round.Failed? { return Sdk.Failed; }
    ghost var first := client.chain;
    CellAt(client.cfg, first, rid);
    var bidders := client.Bidders(rid);
    GrowsTrans(old(client.chain), first, client.chain);
    if bidders.Failed? { return Sdk.Failed; }
    ghost var second := client.chain;
    LaterAt(first, second, rid);
    if Decided(first.cells[rid].round.status) { DecidedIndex(first.cells[rid], second.cells[rid]); }
    var bids := ReadEntries(client, rid, bidders.value, first);
    GrowsTrans(old(client.chain), second, client.chain);
    if bids.Failed? { return Sdk.Failed; }
    ReceiptComplete(client.cfg, h, site, rid, first.cells[rid], bidders.value, bids.value);
    doc := Sdk.Got(Document(h, site, rid, round.value, bidders.value, bids.value));
  }
}

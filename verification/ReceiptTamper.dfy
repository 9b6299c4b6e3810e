/** What the offline verifier detects (`packages/sdk/src/verify.ts:51-259`): which changes to a
    receipt without errors bring an error, and which do not. */
module ReceiptTamper {
  import opened Common
  import opened RoundTypes
  import opened Receipt
  import Commitment
  import Json

  /** The verifier finds nothing wrong, and does not throw. */
  predicate Passes(h: Hashes, r: Receipt) { NeverThrows(r, |r.bidders|) && ErrorFree(h, r) }

  lemma {:induction false} SameFold(r: Receipt, r': Receipt, n: nat)
    requires r'.bidders == r.bidders && n <= |r.bidders| && r'.rule == r.rule
    requires forall a | a in r.bidders :: a in r'.bids <==> a in r.bids
    requires forall a | a in r.bidders && a in r.bids :: Claim(r'.bids[a]) == Claim(r.bids[a])
    ensures Recomputed(r', n) == Recomputed(r, n)
  {
    if n > 0 {
      SameFold(r, r', n - 1);
      assert r.bidders[n - 1] in r.bidders;
    }
  }

  /** The version, the network's fingerprint, the kind of contract id, a round id that is a number
      and a known rule are bound; the name of the network only through its fingerprint. */
  lemma HeaderBound(h: Hashes, r: Receipt, version: int, network: string, fingerprint: Bytes, contractId: string)
    requires Passes(h, r)
    ensures Passes(h, r.(version := version)) <==> version == 1
    ensures Passes(h, r.(network := network)) <==> network != [] && h.fingerprint(network) == r.fingerprint
    ensures Passes(h, r.(fingerprint := fingerprint)) <==> fingerprint == r.fingerprint
    ensures Passes(h, r.(contractId := contractId)) <==> contractId != [] && contractId[0] == 'C'
    ensures !Passes(h, r.(roundId := Garbage)) && !Passes(h, r.(rule := None))
  {
    hide EntryOk, EvidenceOk, Throws, Claim;
    SameFold(r, r.(version := version), |r.bidders|);
    SameFold(r, r.(network := network), |r.bidders|);
    SameFold(r, r.(fingerprint := fingerprint), |r.bidders|);
    SameFold(r, r.(contractId := contractId), |r.bidders|);
  }

  /** A declared winner is bound as soon as some bid claims to win: it must be the first of the
      best claims, or left out. */
  lemma WinnerBound(h: Hashes, r: Receipt, winner: Option<Address>)
    requires Passes(h, r)
    ensures Passes(h, r.(winner := winner)) <==>
              || winner.None? || (forall i | 0 <= i < |r.bidders| :: !Claims(r, i))
              || exists k: nat :: BestClaim(r, |r.bidders|, k) && r.bidders[k] == winner.value
  {
    var computed := Recomputed(r, |r.bidders|);
    RecomputedIsBest(r, computed);
    hide EntryOk, EvidenceOk, Throws, Claim;
    SameFold(r, r.(winner := winner), |r.bidders|);
    if computed.Some? {
      var j: nat :| BestClaim(r, |r.bidders|, j) && computed.value == (r.bidders[j], ClaimAt(r, j));
      assert forall k: nat | BestClaim(r, |r.bidders|, k) :: k == j;
    }
  }

  /** No bidder and no entry can be dropped, repeated or added on its own. */
  lemma ListsBound(h: Hashes, r: Receipt, a: Address, i: nat, e: Entry)
    requires Passes(h, r)
    ensures a in r.bids ==> !Passes(h, r.(bids := r.bids - {a}))
    ensures a !in r.bids ==> !Passes(h, r.(bids := r.bids[a := e]))
    ensures !Passes(h, r.(bidders := r.bidders + [a]))
    ensures i < |r.bidders| ==> !Passes(h, r.(bidders := r.bidders[..i] + r.bidders[i + 1..]))
  {
    hide EntryOk, EvidenceOk, Throws, Claim, Recomputed, HeaderOk;
    if a in r.bids {
      var k :| 0 <= k < |r.bidders| && r.bidders[k] == a;
      var longer := r.bidders + [a];
      assert longer[k] == longer[|r.bidders|];
      assert a !in (r.bids - {a});
    }
    if a !in r.bids {
      assert a in r.bids[a := e] && forall k | 0 <= k < |r.bidders| :: r.bidders[k] in r.bids;
      assert (r.bidders + [a])[|r.bidders|] == a;
    }
    if i < |r.bidders| {
      var shorter := r.bidders[..i] + r.bidders[i + 1..];
      assert r.bidders[i] in r.bids && r.bidders[i] !in shorter;
    }
  }

  // ---- One entry ----

  /** A revealed bid with its nonce: the two open the commitment. */
  ghost predicate Opens(h: Hashes, e: Entry, value: int, nonce: Bytes) {
    && I128_MIN <= value <= I128_MAX && |nonce| == 32
    && e.revealedValue == Some(Text(value)) && e.nonce.Some? && Unhex(e.nonce.value) == Some(nonce)
  }

  lemma EntryPasses(h: Hashes, r: Receipt, a: Address)
    requires Passes(h, r) && a in r.bids
    ensures !Throws(r.bids[a]) && EntryOk(h, r.bids[a]) && EvidenceOk(r.bids[a])
  {
    hide EntryOk, EvidenceOk, Throws, Recomputed, HeaderOk;
    var i :| 0 <= i < |r.bidders| && r.bidders[i] == a;
    assert r.bidders[i] in r.bids;
  }

  predicate AllDigits(t: Json.Units) { forall i | 0 <= i < |t| :: Commitment.DigitValue(t[i]) >= 0 }

  /** The shape every entry must have. */
  lemma ShapeBound(h: Hashes, r: Receipt, a: Address)
    requires Passes(h, r) && a in r.bids
    ensures var e := r.bids[a];
            && |e.commitment| == 64 && AllDigits(e.commitment)
            && e.escrow.Text? && e.escrow.value >= 0
            && (e.revealedValue.Some? ==> e.revealedValue.value.Text?)
            && (e.nonce.Some? ==>
                  e.revealedValue.Some? && Unhex(e.nonce.value).Some? && |Unhex(e.nonce.value).value| == 32)
            && (e.evidence.ciphertext.Some? ==>
                  e.evidence.ciphertext.value != [] && AllDigits(e.evidence.ciphertext.value))
            && (e.evidence.auditorBlob.Some? ==>
                  e.evidence.auditorBlob.value != [] && AllDigits(e.evidence.auditorBlob.value))
  {
    EntryPasses(h, r, a);
    hide Unhex, ErrorFree, Recomputed;
  }

  /** What stands as commitment is the hash of what is shown as opening, in hexadecimal. */
  lemma CommitmentShown(h: Hashes, r: Receipt, a: Address, value: int, nonce: Bytes)
    requires Passes(h, r) && a in r.bids && Opens(h, r.bids[a], value, nonce)
    ensures Commitment.LowerAll(r.bids[a].commitment) == Commitment.ToHex(h.sha256(Commitment.Encode(value, nonce)))
  {
    EntryPasses(h, r, a);
    hide Commitment.Encode, Commitment.ToHex, Commitment.LowerAll, Unhex;
  }

  lemma HexTells(x: Bytes, y: Bytes)
    requires Commitment.ToHex(x) == Commitment.ToHex(y)
    ensures x == y
  {
    Commitment.HexRoundTrip(x);
    Commitment.HexRoundTrip(y);
  }

  /** Value, nonce and commitment are bound to each other: another opening for the same bid that
      passes as well is a collision of the hash. */
  lemma OpeningBound(h: Hashes, r: Receipt, a: Address, value: int, nonce: Bytes, e: Entry, value': int, nonce': Bytes)
    requires Passes(h, r) && a in r.bids && Opens(h, r.bids[a], value, nonce)
    requires Opens(h, e, value', nonce') && e.commitment == r.bids[a].commitment
    requires (value', nonce') != (value, nonce)
    ensures Passes(h, r.(bids := r.bids[a := e])) ==>
              var p, q := Commitment.Encode(value, nonce), Commitment.Encode(value', nonce');
              p != q && h.sha256(p) == h.sha256(q)
  {
    hide Passes, Opens, Commitment.Encode, Commitment.ToHex, Commitment.LowerAll;
    var r' := r.(bids := r.bids[a := e]);
    if Passes(h, r') {
      CommitmentShown(h, r, a, value, nonce);
      CommitmentShown(h, r', a, value', nonce');
      InRange(h, r.bids[a], value, nonce);
      InRange(h, e, value', nonce');
      HexTells(h.sha256(Commitment.Encode(value, nonce)), h.sha256(Commitment.Encode(value', nonce')));
      if Commitment.Encode(value, nonce) == Commitment.Encode(value', nonce') {
        Commitment.EncodeInjective(value, nonce, value', nonce');
      }
    }
  }

  lemma InRange(h: Hashes, e: Entry, value: int, nonce: Bytes)
    requires Opens(h, e, value, nonce)
    ensures I128_MIN <= value <= I128_MAX && |nonce| == 32
  {
  }

  /** The commitment of an opened bid cannot be changed, but for the case of its digits. */
  lemma CommitmentBound(h: Hashes, r: Receipt, a: Address, value: int, nonce: Bytes, commitment: Json.Units)
    requires Passes(h, r) && a in r.bids && Opens(h, r.bids[a], value, nonce)
    requires Passes(h, r.(bids := r.bids[a := r.bids[a].(commitment := commitment)]))
    ensures Commitment.LowerAll(commitment) == Commitment.LowerAll(r.bids[a].commitment)
  {
    hide Passes, Commitment.Encode, Commitment.ToHex, Commitment.LowerAll, Unhex;
    CommitmentShown(h, r, a, value, nonce);
    CommitmentShown(h, r.(bids := r.bids[a := r.bids[a].(commitment := commitment)]), a, value, nonce);
  }

  /** The escrow is not bound: any other amount that is not negative passes as well. */
  lemma EscrowNotBound(h: Hashes, r: Receipt, a: Address, escrow: int)
    requires Passes(h, r) && a in r.bids
    ensures Passes(h, r.(bids := r.bids[a := r.bids[a].(escrow := Text(escrow))])) <==> escrow >= 0
  {
    var e := r.bids[a].(escrow := Text(escrow));
    var r' := r.(bids := r.bids[a := e]);
    EntryPasses(h, r, a);
    if Passes(h, r') { EntryPasses(h, r', a); }
    OtherEscrow(h, r.bids[a], escrow);
    hide EntryOk, EvidenceOk, Throws, Claim, HeaderOk;
    SameFold(r, r', |r.bidders|);
    if escrow >= 0 {
      forall b | b in r.bids
        ensures !Throws(r'.bids[b]) && EntryOk(h, r'.bids[b]) && EvidenceOk(r'.bids[b])
      {
        EntryPasses(h, r, b);
      }
      assert ListsOk(r');
    }
  }

  lemma OtherEscrow(h: Hashes, e: Entry, escrow: int)
    requires !Throws(e) && EntryOk(h, e)
    ensures var e' := e.(escrow := Text(escrow));
            && Throws(e') == Throws(e) && Claim(e') == Claim(e) && EvidenceOk(e') == EvidenceOk(e)
            && (EntryOk(h, e') <==> escrow >= 0)
  {
    hide NonceRead, Unhex, HexDigits;
  }
}

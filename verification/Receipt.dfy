/** Round receipts: the exported document (`packages/sdk/src/receipt.ts`,
    `client.ts:548-603`) and its offline verifier (`verify.ts`).

    Hexadecimal fields are the texts they are; decimal fields appear already scanned:
    `Text(v)` when `BigInt` reads the text as `v`, `Garbage` when it throws. */
module Receipt {
  import opened Common
  import opened RoundTypes
  import opened RoundSpec
  import Commitment
  import Json

  datatype Scanned<+T> = Text(value: T) | Garbage

  datatype Evidence = Evidence(ciphertext: Option<Json.Units>, auditorBlob: Option<Json.Units>)

  datatype Entry = Entry(
    commitment: Json.Units, escrow: Scanned<int>, revealedValue: Option<Scanned<int>>,
    nonce: Option<Json.Units>, valid: bool, settled: bool, evidence: Evidence)

  datatype Receipt = Receipt(
    version: int, network: string, fingerprint: Bytes, contractId: string, roundId: Scanned<int>,
    rule: Option<ClearingRule>, status: Option<Status>, bidders: seq<Address>, bids: map<Address, Entry>,
    winner: Option<Address>, winningValue: Option<int>)

  /** The two hash functions the verifier recomputes. */
  datatype Hashes = Hashes(sha256: Bytes -> Bytes, fingerprint: string -> Bytes)

  datatype Severity = Error | Warning

  datatype Code =
    | UnsupportedVersion | MissingNetwork | NetworkMismatch | InvalidContractId | InvalidRoundId
    | InvalidClearingRule | UnknownStatus | InvalidBidder | DuplicateBidder | OrphanBidEntry | MissingBidEntry
    | InvalidCommitment | InvalidEscrow | InvalidRevealedValue | InvalidNonce | InvalidNonceLength
    | CommitmentMismatch | PartialReveal | WinnerMismatch | WinnerNotDeclared | WinnerNotComputed | InvalidEvidenceHex

  datatype Issue = Issue(severity: Severity, code: Code)

  datatype Verdict = Verdict(valid: bool, issues: seq<Issue>, computedWinner: Option<(Address, int)>)

  predicate HasError(issues: seq<Issue>) {
    exists i | 0 <= i < |issues| :: issues[i].severity == Error
  }

  // ---- What it means for a receipt to be free of errors ----

  predicate HeaderOk(h: Hashes, r: Receipt) {
    && r.network != [] && r.fingerprint == h.fingerprint(r.network)
    && r.contractId != [] && r.contractId[0] == 'C'
    && r.roundId.Text? && r.rule.Some?
  }

  /** Only hexadecimal digits, in either case. */
  predicate HexDigits(t: Json.Units) {
    forall i | 0 <= i < |t| :: Commitment.HexValue(t[i]).Some? || 0x41 <= t[i] <= 0x46
  }

  /** The bytes `fromHex` reads, unless it throws. */
  function Unhex(t: Json.Units): Option<Bytes> {
    if |Commitment.Clean(t)| % 2 == 0 then Some(Commitment.Pairs(Commitment.Clean(t))) else None
  }

  predicate NonceRead(t: Json.Units) { Unhex(t).Some? && |Unhex(t).value| == 32 }

  /** Recomputing the hash throws on a value outside i128. */
  predicate Throws(e: Entry) {
    && e.revealedValue.Some? && e.nonce.Some?
    && e.revealedValue.value.Text? && NonceRead(e.nonce.value)
    && !(I128_MIN <= e.revealedValue.value.value <= I128_MAX)
  }

  predicate RevealOk(h: Hashes, e: Entry)
    requires !Throws(e)
  {
    match (e.revealedValue, e.nonce)
    case (Some(Text(v)), Some(n)) =>
      && NonceRead(n)
      && Commitment.LowerAll(e.commitment) == Commitment.ToHex(h.sha256(Commitment.Encode(v, Unhex(n).value)))
    case (Some(Text(v)), None) => true
    case (None, None) => true
    case _ => false
  }

  predicate EntryOk(h: Hashes, e: Entry)
    requires !Throws(e)
  {
    && |e.commitment| == 64 && HexDigits(e.commitment)
    && e.escrow.Text? && e.escrow.value >= 0
    && RevealOk(h, e)
  }

  /** Present evidence must be non-empty hexadecimal text. */
  predicate HexOk(t: Option<Json.Units>) { t.Some? ==> t.value != [] && HexDigits(t.value) }

  predicate EvidenceOk(e: Entry) { HexOk(e.evidence.ciphertext) && HexOk(e.evidence.auditorBlob) }

  /** The value an entry contributes to the recomputed winner. */
  function Claim(e: Entry): Option<int> {
    if !e.valid || e.revealedValue.None? || e.revealedValue.value.Garbage? then None
    else if e.nonce.None? || NonceRead(e.nonce.value) then Some(e.revealedValue.value.value)
    else None
  }

  /** The recomputed winner over the first `n` bidders; any rule but HighestBid means lowest. */
  function Recomputed(r: Receipt, n: nat): Option<(Address, int)>
    requires n <= |r.bidders|
  {
    if n == 0 then None
    else
      var before := Recomputed(r, n - 1);
      var a := r.bidders[n - 1];
      if a !in r.bids || Claim(r.bids[a]).None? then before
      else
        var value := Claim(r.bids[a]).value;
        if before.None? || Better(if r.rule == Some(HighestBid) then HighestBid else LowestBid, value, before.value.1)
        then Some((a, value)) else before
  }

  predicate Claims(r: Receipt, i: nat)
    requires i < |r.bidders|
  {
    r.bidders[i] in r.bids && Claim(r.bids[r.bidders[i]]).Some?
  }

  function ClaimAt(r: Receipt, i: nat): int
    requires i < |r.bidders| && Claims(r, i)
  {
    Claim(r.bids[r.bidders[i]]).value
  }

  /** `k` is the first of the best claims among the first `n` bidders: the highest, or with any
      rule but HighestBid the lowest. */
  ghost predicate BestClaim(r: Receipt, n: nat, k: nat) {
    && n <= |r.bidders|
    && k < n && Claims(r, k)
    && forall j | 0 <= j < n && Claims(r, j) ::
         if r.rule == Some(HighestBid) then ClaimAt(r, j) <= ClaimAt(r, k) && (j < k ==> ClaimAt(r, j) < ClaimAt(r, k))
         else ClaimAt(r, j) >= ClaimAt(r, k) && (j < k ==> ClaimAt(r, j) > ClaimAt(r, k))
  }

  /** The order-free meaning of a recomputed winner. */
  ghost predicate WinnerOfClaims(r: Receipt, winner: Option<(Address, int)>) {
    if winner.None? then forall j | 0 <= j < |r.bidders| :: !Claims(r, j)
    else exists k: nat :: BestClaim(r, |r.bidders|, k) && winner.value == (r.bidders[k], ClaimAt(r, k))
  }

  lemma {:induction false} RecomputedBest(r: Receipt, n: nat) returns (k: nat)
    requires n <= |r.bidders|
    ensures Recomputed(r, n).Some? ==> BestClaim(r, n, k) && Recomputed(r, n) == Some((r.bidders[k], ClaimAt(r, k)))
    ensures Recomputed(r, n).None? ==> forall j | 0 <= j < n :: !Claims(r, j)
  {
    k := 0;
    if n > 0 {
      k := RecomputedBest(r, n - 1);
      if Recomputed(r, n) != Recomputed(r, n - 1) { k := n - 1; }
    }
  }

  /** The fold over the entries finds the first of the best claims, and nobody only if there is
      no claim. */
  lemma RecomputedIsBest(r: Receipt, winner: Option<(Address, int)>)
    ensures Recomputed(r, |r.bidders|) == winner <==> WinnerOfClaims(r, winner)
  {
    var k := RecomputedBest(r, |r.bidders|);
    if WinnerOfClaims(r, winner) && winner.Some? {
      var j: nat :| BestClaim(r, |r.bidders|, j) && winner.value == (r.bidders[j], ClaimAt(r, j));
      assert j == k;
    }
  }

  predicate WinnerOk(r: Receipt) {
    var computed := Recomputed(r, |r.bidders|);
    computed.Some? && r.winner.Some? ==> computed.value.0 == r.winner.value
  }

  predicate AccountsDistinct(bidders: seq<Address>) {
    && (forall i | 0 <= i < |bidders| :: bidders[i].Account?)
    && (forall i, j | 0 <= i < j < |bidders| :: bidders[i] != bidders[j])
  }

  predicate ListsOk(r: Receipt) {
    && AccountsDistinct(r.bidders)
    && (forall a | a in r.bids :: a in r.bidders)
    && (forall i | 0 <= i < |r.bidders| :: r.bidders[i] in r.bids)
  }

  predicate NeverThrows(r: Receipt, n: nat)
    requires n <= |r.bidders|
  {
    forall i | 0 <= i < n && r.bidders[i] in r.bids :: !Throws(r.bids[r.bidders[i]])
  }

  predicate EntriesOk(h: Hashes, r: Receipt, n: nat)
    requires n <= |r.bidders| && NeverThrows(r, n)
  {
    forall i | 0 <= i < n && r.bidders[i] in r.bids :: EntryOk(h, r.bids[r.bidders[i]])
  }

  predicate EvidencesOk(r: Receipt, n: nat)
    requires n <= |r.bidders|
  {
    forall i | 0 <= i < n && r.bidders[i] in r.bids :: EvidenceOk(r.bids[r.bidders[i]])
  }

  predicate ErrorFree(h: Hashes, r: Receipt)
    requires NeverThrows(r, |r.bidders|)
  {
    && r.version == 1 && HeaderOk(h, r) && ListsOk(r)
    && EntriesOk(h, r, |r.bidders|) && WinnerOk(r) && EvidencesOk(r, |r.bidders|)
  }

  // ---- The verifier ----

  method Add(issues: seq<Issue>, severity: Severity, code: Code) returns (more: seq<Issue>)
    ensures more == issues + [Issue(severity, code)]
    ensures HasError(more) <==> HasError(issues) || severity == Error
  {
    more := issues + [Issue(severity, code)];
    assert more[|issues|].severity == severity;
    if HasError(issues) {
      var i :| 0 <= i < |issues| && issues[i].severity == Error;
      assert more[i].severity == Error;
    }
  }

  method CheckHeader(h: Hashes, r: Receipt) returns (issues: seq<Issue>)
    ensures HasError(issues) <==> !HeaderOk(h, r)
  {
    issues := [];
    if r.network == [] {
      issues := Add(issues, Error, MissingNetwork);
    } else if r.fingerprint != h.fingerprint(r.network) {
      issues := Add(issues, Error, NetworkMismatch);
    }
    if r.contractId == [] || r.contractId[0] != 'C' { issues := Add(issues, Error, InvalidContractId); }
    if r.roundId.Garbage? { issues := Add(issues, Error, InvalidRoundId); }
    if r.rule.None? { issues := Add(issues, Error, InvalidClearingRule); }
    if r.status.None? { issues := Add(issues, Warning, UnknownStatus); }
  }

  method CheckBidders(r: Receipt, already: seq<Issue>) returns (issues: seq<Issue>)
    ensures HasError(issues) <==> HasError(already) || !AccountsDistinct(r.bidders)
  {
    issues := already;
    var seen: set<Address> := {};
    for i := 0 to |r.bidders|
      invariant forall a :: a in seen <==> a in r.bidders[..i]
      invariant HasError(issues) <==> (HasError(already) || !AccountsDistinct(r.bidders[..i]))
    {
      hide HasError;
      var bidder := r.bidders[i];
      if !bidder.Account? { issues := Add(issues, Error, InvalidBidder); }
      if bidder in seen { issues := Add(issues, Error, DuplicateBidder); }
      seen := seen + {bidder};
      assert r.bidders[..i + 1] == r.bidders[..i] + [bidder];
    }
    assert r.bidders[..|r.bidders|] == r.bidders;
  }

  method CheckKeys(r: Receipt, already: seq<Issue>) returns (issues: seq<Issue>)
    ensures HasError(issues) <==>
              || HasError(already) || (exists a | a in r.bids :: a !in r.bidders)
              || (exists i | 0 <= i < |r.bidders| :: r.bidders[i] !in r.bids)
  {
    hide HasError;
    issues := already;
    var keys := r.bids.Keys;
    while keys != {}
      invariant keys <= r.bids.Keys
      invariant HasError(issues) <==> HasError(already) || exists a | a in r.bids && a !in keys :: a !in r.bidders
      decreases |keys|
    {
      var key :| key in keys;
      if key !in r.bidders { issues := Add(issues, Error, OrphanBidEntry); }
      keys := keys - {key};
    }
    ghost var sofar := HasError(issues);
    for i := 0 to |r.bidders|
      invariant HasError(issues) <==> sofar || exists k | 0 <= k < i :: r.bidders[k] !in r.bids
    {
      if r.bidders[i] !in r.bids { issues := Add(issues, Error, MissingBidEntry); }
    }
  }

  method CheckLists(r: Receipt, already: seq<Issue>) returns (issues: seq<Issue>)
    ensures HasError(issues) <==> HasError(already) || !ListsOk(r)
  {
    hide HasError, AccountsDistinct;
    issues := CheckBidders(r, already);
    issues := CheckKeys(r, issues);
  }

  /** The checks on one entry; `stop` skips its claim to the win. */
  method CheckEntry(h: Hashes, e: Entry, already: seq<Issue>) returns (issues: seq<Issue>, stop: bool)
    requires !Throws(e)
    ensures HasError(issues) <==> HasError(already) || !EntryOk(h, e)
    ensures Claim(e) == if stop || !e.valid || e.revealedValue.None? || e.revealedValue.value.Garbage? then None
                        else Some(e.revealedValue.value.value)
  {
    issues, stop := already, false;
    if |e.commitment| != 64 || !HexDigits(e.commitment) { issues := Add(issues, Error, InvalidCommitment); }
    if e.escrow.Garbage? || e.escrow.value < 0 { issues := Add(issues, Error, InvalidEscrow); }
    if e.revealedValue.Some? && e.nonce.Some? {
      if e.revealedValue.value.Garbage? {
        issues := Add(issues, Error, InvalidRevealedValue);
      } else {
        var nonce := Commitment.FromHex(e.nonce.value);
        if nonce.Err? {
          issues := Add(issues, Error, InvalidNonce);
          stop := true;
        } else if |nonce.value| != 32 {
          issues := Add(issues, Error, InvalidNonceLength);
          stop := true;
        } else {
          var recomputed := Commitment.ToHex(h.sha256(Commitment.Encode(e.revealedValue.value.value, nonce.value)));
          if recomputed != Commitment.LowerAll(e.commitment) { issues := Add(issues, Error, CommitmentMismatch); }
        }
      }
    } else if e.revealedValue.Some? {
      if e.revealedValue.value.Garbage? { issues := Add(issues, Error, InvalidRevealedValue); }
    } else if e.nonce.Some? {
      issues := Add(issues, Error, PartialReveal);
    }
  }

  method CheckEntries(h: Hashes, r: Receipt, already: seq<Issue>)
    returns (threw: bool, issues: seq<Issue>, computed: Option<(Address, int)>)
    ensures threw <==> !NeverThrows(r, |r.bidders|)
    ensures !threw ==> (HasError(issues) <==> HasError(already) || !EntriesOk(h, r, |r.bidders|))
    ensures !threw ==> computed == Recomputed(r, |r.bidders|)
  {
    hide EntryOk, HasError, NonceRead, HexDigits, RevealOk;
    threw, issues, computed := false, already, None;
    for i := 0 to |r.bidders|
      invariant NeverThrows(r, i)
      invariant HasError(issues) <==> (HasError(already) || !EntriesOk(h, r, i))
      invariant computed == Recomputed(r, i)
    {
      var bidder := r.bidders[i];
      if bidder !in r.bids { continue; }
      var entry := r.bids[bidder];
      if Throws(entry) { threw := true; return; }
      var stop;
      issues, stop := CheckEntry(h, entry, issues);
      if !stop && entry.valid && entry.revealedValue.Some? && entry.revealedValue.value.Text? {
        var rv := entry.revealedValue.value.value;
        var isHigher := computed.None? || rv > computed.value.1;
        var isLower := computed.None? || rv < computed.value.1;
        if if r.rule == Some(HighestBid) then isHigher else isLower {
          computed := Some((bidder, rv));
        }
      }
    }
  }

  method CheckWinner(r: Receipt, computed: Option<(Address, int)>, already: seq<Issue>) returns (issues: seq<Issue>)
    requires computed == Recomputed(r, |r.bidders|)
    ensures HasError(issues) <==> HasError(already) || !WinnerOk(r)
  {
    issues := already;
    if computed.Some? && r.winner.Some? {
      if computed.value.0 != r.winner.value { issues := Add(issues, Error, WinnerMismatch); }
    } else if computed.Some? {
      issues := Add(issues, Warning, WinnerNotDeclared);
    } else if r.winner.Some? {
      issues := Add(issues, Warning, WinnerNotComputed);
    }
  }

  method CheckEvidence(r: Receipt, already: seq<Issue>) returns (issues: seq<Issue>)
    ensures HasError(issues) <==> HasError(already) || !EvidencesOk(r, |r.bidders|)
  {
    issues := already;
    for i := 0 to |r.bidders|
      invariant HasError(issues) <==> (HasError(already) || !EvidencesOk(r, i))
    {
      if r.bidders[i] in r.bids {
        var evidence := r.bids[r.bidders[i]].evidence;
        if evidence.ciphertext.Some? && (evidence.ciphertext.value == [] || !HexDigits(evidence.ciphertext.value)) {
          issues := Add(issues, Error, InvalidEvidenceHex);
        }
        if evidence.auditorBlob.Some? && (evidence.auditorBlob.value == [] || !HexDigits(evidence.auditorBlob.value)) {
          issues := Add(issues, Error, InvalidEvidenceHex);
        }
      }
    }
  }

  /** The offline verifier; `None` when recomputing a hash throws. */
  method VerifyReceipt(h: Hashes, r: Receipt) returns (v: Option<Verdict>)
    ensures v.None? <==> r.version == 1 && !NeverThrows(r, |r.bidders|)
    ensures v.Some? ==>
              && v.value.valid == (r.version == 1 && ErrorFree(h, r))
              && (v.value.valid <==> !HasError(v.value.issues))
              && v.value.computedWinner == (if r.version == 1 then Recomputed(r, |r.bidders|) else None)
              && (r.version == 1 ==> WinnerOfClaims(r, v.value.computedWinner))
  {
    if r.version != 1 {
      var issues := Add([], Error, UnsupportedVersion);
      return Some(Verdict(false, issues, None));
    }
    var issues := CheckHeader(h, r);
    issues := CheckLists(r, issues);
    var threw, checked, computed := CheckEntries(h, r, issues);
    if threw { return None; }
    issues := CheckWinner(r, computed, checked);
    issues := CheckEvidence(r, issues);
    RecomputedIsBest(r, computed);
    v := Some(Verdict(!HasError(issues), issues, computed));
  }
}

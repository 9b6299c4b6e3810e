/** The data of the sealed-bid round contract (`contracts/round/src/types.rs`). */
module RoundTypes {
  import opened Common
  import opened Token

  datatype Error =
    | AlreadyCleared | AlreadySettled | RoundVoided
    | RoundNotFound | BidNotFound | CommitClosed | CommitNotClosed | CommitDeadlineAfterReveal
    | RevealNotOpen | RevealAlreadyOpen | RevealWindowClosed | RevealStillOpen | NotCleared
    | NotVoidable | WrongStatus | InvalidDrandSignature | HashMismatch | AlreadyRevealed
    | PayloadTooLarge | InvalidAmount | DeadlineInPast | NoValidBids | RoundFull | InvalidLimit
    | Trap  // the host aborts the call: a refused transfer, a missing signature, an overflow

  datatype Status = Open | Revealing | Cleared | Settled | Voided

  datatype ClearingRule = HighestBid | LowestBid

  datatype Round = Round(
    operator: Address, itemRef: Bytes32, revealRound: U64, rule: ClearingRule,
    commitDeadline: U64, revealDeadline: U64, auditorPubkey: Bytes, status: Status,
    bidders: seq<Address>, winner: Option<Address>, winningBid: int)

  datatype BidState = BidState(
    commitment: Bytes, escrow: int, revealedValue: Option<I128>, revealedNonce: Option<Bytes32>,
    valid: bool, settled: bool)

  datatype Seal = Seal(ciphertext: Bytes, auditorBlob: Bytes)

  /** A token transfer made on behalf of one round. */
  datatype Move = Move(from: Address, to: Address, amount: nat)

  /** Everything stored under one round id: the round record, its bids, the seals that
      have not expired, and the transfers the token recorded for it. */
  datatype Cell = Cell(
    round: Round, states: map<Address, BidState>, seals: map<Address, Seal>, moves: seq<Move>)

  /** Deploy-time configuration.  The hash and the beacon check are parameters: nothing
      about them is assumed beyond being functions. */
  datatype Config = Config(
    self: Address, genesis: U64, period: U64,
    sha256: Bytes -> Bytes, verifies: (U64, Bytes) -> bool)

  /** The contract's storage, the ledger clock and the token balances.  `donated` is what
      outsiders sent to the contract address without bidding. */
  datatype State = State(
    now: U64, counter: U64, cells: map<U64, Cell>, balances: Balances, donated: nat)

  datatype Call =
    | CreateRound(operator: Address, itemRef: Bytes32, revealRound: U64, rule: ClearingRule,
                  commitDeadline: U64, revealDeadline: U64, auditorPubkey: Bytes)
    | Commit(rid: U64, bidder: Address, commitment: Bytes32, ciphertext: Bytes, escrow: I128,
             auditorBlob: Bytes)
    | OpenReveal(rid: U64, signature: Bytes)
    | Reveal(rid: U64, bidder: Address, value: I128, nonce: Bytes32)
    | Clear(rid: U64)
    | Settle(rid: U64)
    | Void(rid: U64)
    // What happens around the contract: time passes, a seal outlives its storage, and
    // outsiders move tokens (possibly to the contract).
    | Advance(seconds: nat)
    | ExpireSeal(rid: U64, bidder: Address)
    | Outside(from: Address, to: Address, amount: nat)
}

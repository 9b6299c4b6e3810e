/** What each entry point of the round contract does to storage and balances, as a
    function of the state before the call (`contracts/round/src/lib.rs`, `drand.rs`,
    `storage.rs`).  A call that returns an error or traps changes nothing. */
module RoundSpec {
  import opened Common
  import opened Token
  import opened RoundTypes
  import Commitment

  const MAX_CIPHERTEXT := 4096
  const MAX_AUDITOR_BLOB := 2048
  const MAX_AUDITOR_PUBKEY := 1024
  const MAX_BIDDERS := 500
  const VOID_GRACE := 3600
  const MAX_PAGE_SIZE := 100

  // ---- Beacon time ----

  function ExactTime(cfg: Config, round: U64): nat { cfg.genesis + cfg.period * round }

  function Saturate(n: nat): U64 { if n > U64_MAX then U64_MAX else n }

  function TimeOfRound(cfg: Config, round: U64): U64 {
    Saturate(cfg.genesis + Saturate(cfg.period * round))
  }

  // ---- One round and the balances ----

  datatype Books = Books(cell: Cell, balances: Balances)

  /** One token transfer on behalf of the round; `None` when the payer is short. */
  function Pay(b: Books, from: Address, to: Address, amount: nat): Option<Books> {
    if amount > Bal(b.balances, from) then None
    else Some(Books(b.cell.(moves := b.cell.moves + [Move(from, to, amount)]),
                    Transferred(b.balances, from, to, amount)))
  }

  function SetState(b: Books, bidder: Address, st: BidState): Books {
    b.(cell := b.cell.(states := b.cell.states[bidder := st]))
  }

  function SetStatus(b: Books, status: Status): Books {
    b.(cell := b.cell.(round := b.cell.round.(status := status)))
  }

  function NewRound(c: Call): Cell
    requires c.CreateRound?
  {
    Cell(Round(c.operator, c.itemRef, c.revealRound, c.rule, c.commitDeadline, c.revealDeadline,
               c.auditorPubkey, Open, [], None, 0), map[], map[], [])
  }

  function CreateCheck(cfg: Config, now: U64, c: Call): Option<Error>
    requires c.CreateRound?
  {
    if c.operator == cfg.self then Some(Trap)
    else if c.revealRound == 0 then Some(InvalidAmount)
    else if |c.auditorPubkey| > MAX_AUDITOR_PUBKEY then Some(PayloadTooLarge)
    else if c.commitDeadline >= TimeOfRound(cfg, c.revealRound) then Some(CommitDeadlineAfterReveal)
    else if c.revealDeadline <= TimeOfRound(cfg, c.revealRound) then Some(CommitDeadlineAfterReveal)
    else if c.commitDeadline <= now then Some(DeadlineInPast)
    else None
  }

  function CommitCheck(cfg: Config, now: U64, cell: Cell, c: Call): Option<Error>
    requires c.Commit?
  {
    if cell.round.status != Open then Some(WrongStatus)
    else if now > cell.round.commitDeadline then Some(CommitClosed)
    else if c.escrow <= 0 then Some(InvalidAmount)
    else if |c.ciphertext| > MAX_CIPHERTEXT || |c.auditorBlob| > MAX_AUDITOR_BLOB then Some(PayloadTooLarge)
    else None
  }

  /** The previous escrow goes back before the new one is locked. */
  function Refunded(cfg: Config, b: Books, bidder: Address): Option<Books> {
    if bidder in b.cell.states && b.cell.states[bidder].escrow > 0 then
      Pay(b, cfg.self, bidder, b.cell.states[bidder].escrow)
    else Some(b)
  }

  function Indexed(cell: Cell, bidder: Address): Cell {
    if bidder in cell.states then cell
    else cell.(round := cell.round.(bidders := cell.round.bidders + [bidder]))
  }

  function FreshBid(c: Call): BidState
    requires c.Commit?
  {
    BidState(c.commitment, c.escrow, None, None, false, false)
  }

  function CommitBooks(cfg: Config, now: U64, b: Books, c: Call): Result<Books, Error>
    requires c.Commit?
  {
    if CommitCheck(cfg, now, b.cell, c).Some? then Err(CommitCheck(cfg, now, b.cell, c).value)
    else if c.bidder !in b.cell.states && |b.cell.round.bidders| >= MAX_BIDDERS then Err(RoundFull)
    else
      var refunded := Refunded(cfg, b, c.bidder);
      if refunded.None? then Err(Trap)
      else
        var locked := Pay(refunded.value, c.bidder, cfg.self, c.escrow);
        if locked.None? then Err(Trap)
        else
          var cell := Indexed(locked.value.cell, c.bidder);
          Ok(Books(cell.(states := cell.states[c.bidder := FreshBid(c)],
                         seals := cell.seals[c.bidder := Seal(c.ciphertext, c.auditorBlob)]),
                   locked.value.balances))
  }

  function OpenBooks(cfg: Config, now: U64, b: Books, signature: Bytes): Result<Books, Error> {
    var r := b.cell.round;
    if r.status != Open then Err(RevealAlreadyOpen)
    else if now <= r.commitDeadline then Err(CommitNotClosed)
    else if !cfg.verifies(r.revealRound, signature) then Err(InvalidDrandSignature)
    else Ok(SetStatus(b, Revealing))
  }

  function Recorded(st: BidState, value: I128, nonce: Bytes32): BidState {
    st.(revealedValue := Some(value), revealedNonce := Some(nonce),
        valid := value > 0 && value <= st.escrow)
  }

  function RevealBooks(cfg: Config, now: U64, b: Books, bidder: Address, value: I128, nonce: Bytes32)
    : Result<Books, Error>
  {
    if b.cell.round.status != Revealing then Err(RevealNotOpen)
    else if now > b.cell.round.revealDeadline then Err(RevealWindowClosed)
    else if bidder !in b.cell.states then Err(BidNotFound)
    else
      var st := b.cell.states[bidder];
      if st.revealedValue.Some? then Err(AlreadyRevealed)
      else if cfg.sha256(Commitment.Encode(value, nonce)) != st.commitment then Err(HashMismatch)
      else Ok(SetState(b, bidder, Recorded(st, value, nonce)))
  }

  // ---- Clearing ----

  function Better(rule: ClearingRule, value: int, best: int): bool {
    match rule
    case HighestBid => value > best
    case LowestBid => value < best
  }

  predicate Candidate(states: map<Address, BidState>, a: Address) {
    a in states && states[a].valid && states[a].revealedValue.Some?
  }

  /** The leader after looking at the first `n` bidders of the index. */
  function Leader(cell: Cell, n: nat): Option<(Address, int)>
    requires n <= |cell.round.bidders|
  {
    if n == 0 then None
    else
      var before := Leader(cell, n - 1);
      var a := cell.round.bidders[n - 1];
      if !Candidate(cell.states, a) then before
      else
        var value := cell.states[a].revealedValue.value;
        if before.None? || Better(cell.round.rule, value, before.value.1) then Some((a, value)) else before
  }

  function RefundOne(cfg: Config, b: Books, bidder: Address): Option<Books> {
    if bidder in b.cell.states && !b.cell.states[bidder].settled && b.cell.states[bidder].escrow > 0 then
      var st := b.cell.states[bidder];
      var paid := Pay(b, cfg.self, bidder, st.escrow);
      if paid.None? then None else Some(SetState(paid.value, bidder, st.(settled := true)))
    else Some(b)
  }

  function RefundFirst(cfg: Config, b: Books, bidders: seq<Address>): Option<Books> {
    if bidders == [] then Some(b)
    else
      var before := RefundFirst(cfg, b, bidders[..|bidders| - 1]);
      if before.None? then None else RefundOne(cfg, before.value, bidders[|bidders| - 1])
  }

  function OrTrap(b: Option<Books>): Result<Books, Error> { if b.None? then Err(Trap) else Ok(b.value) }

  function ClearBooks(cfg: Config, now: U64, b: Books): Result<Books, Error> {
    var r := b.cell.round;
    if r.status != Revealing then Err(RevealNotOpen)
    else if now <= r.revealDeadline then Err(RevealStillOpen)
    else
      var leader := Leader(b.cell, |r.bidders|);
      if leader.None? then OrTrap(RefundFirst(cfg, SetStatus(b, Voided), r.bidders))
      else Ok(b.(cell := b.cell.(round := r.(winner := Some(leader.value.0), winningBid := leader.value.1,
                                             status := Cleared))))
  }

  function PayIf(b: Books, from: Address, to: Address, amount: int): Option<Books> {
    if amount > 0 then Pay(b, from, to, amount) else Some(b)
  }

  /** A negative transfer amount is refused by the token. */
  function PayExactly(b: Books, from: Address, to: Address, amount: int): Option<Books> {
    if amount < 0 then None else Pay(b, from, to, amount)
  }

  function SettleOne(cfg: Config, b: Books, bidder: Address, winner: Address): Option<Books> {
    if bidder !in b.cell.states || b.cell.states[bidder].settled then Some(b)
    else
      var st := b.cell.states[bidder];
      var r := b.cell.round;
      var paid :=
        if bidder == winner then
          var price := PayExactly(b, cfg.self, r.operator, r.winningBid);
          if price.None? then None else PayIf(price.value, cfg.self, bidder, st.escrow - r.winningBid)
        else PayIf(b, cfg.self, bidder, st.escrow);
      if paid.None? then None else Some(SetState(paid.value, bidder, st.(settled := true)))
  }

  function SettleFirst(cfg: Config, b: Books, bidders: seq<Address>, winner: Address): Option<Books> {
    if bidders == [] then Some(b)
    else
      var before := SettleFirst(cfg, b, bidders[..|bidders| - 1], winner);
      if before.None? then None else SettleOne(cfg, before.value, bidders[|bidders| - 1], winner)
  }

  function SettleBooks(cfg: Config, b: Books): Result<Books, Error> {
    var r := b.cell.round;
    if r.status != Cleared then Err(NotCleared)
    else if r.winner.None? then Err(NoValidBids)
    else
      var paid := SettleFirst(cfg, b, r.bidders, r.winner.value);
      if paid.None? then Err(Trap) else Ok(SetStatus(paid.value, Settled))
  }

  function VoidBooks(cfg: Config, now: U64, b: Books): Result<Books, Error> {
    var r := b.cell.round;
    if r.status != Open then Err(NotVoidable)
    else if r.revealDeadline + VOID_GRACE > U64_MAX then Err(Trap)
    else if now <= r.revealDeadline + VOID_GRACE then Err(NotVoidable)
    else OrTrap(RefundFirst(cfg, SetStatus(b, Voided), r.bidders))
  }

  // ---- Calls and runs ----

  predicate OnRound(c: Call) {
    c.Commit? || c.OpenReveal? || c.Reveal? || c.Clear? || c.Settle? || c.Void? || c.ExpireSeal?
  }

  /** The effect of a call that addresses one existing round. */
  function RoundCall(cfg: Config, now: U64, b: Books, c: Call): Result<Books, Error>
    requires OnRound(c)
  {
    match c
    case Commit(_, _, _, _, _, _) => CommitBooks(cfg, now, b, c)
    case OpenReveal(_, signature) => OpenBooks(cfg, now, b, signature)
    case Reveal(_, bidder, value, nonce) => RevealBooks(cfg, now, b, bidder, value, nonce)
    case Clear(_) => ClearBooks(cfg, now, b)
    case Settle(_) => SettleBooks(cfg, b)
    case Void(_) => VoidBooks(cfg, now, b)
    case ExpireSeal(_, bidder) => Ok(b.(cell := b.cell.(seals := b.cell.seals - {bidder})))
  }

  function BooksOf(s: State, rid: U64): Books
    requires rid in s.cells
  {
    Books(s.cells[rid], s.balances)
  }

  function PutBooks(s: State, rid: U64, b: Books): State {
    s.(cells := s.cells[rid := b.cell], balances := b.balances)
  }

  function Apply(cfg: Config, s: State, c: Call): Result<State, Error> {
    if OnRound(c) then
      if c.Commit? && c.bidder == cfg.self then Err(Trap)
      else if c.rid !in s.cells then Err(RoundNotFound)
      else
        var r := RoundCall(cfg, s.now, BooksOf(s, c.rid), c);
        if r.Err? then Err(r.error) else Ok(PutBooks(s, c.rid, r.value))
    else if c.CreateRound? then
      if CreateCheck(cfg, s.now, c).Some? then Err(CreateCheck(cfg, s.now, c).value)
      else if s.counter == U64_MAX then Err(Trap)
      else Ok(s.(counter := s.counter + 1, cells := s.cells[s.counter + 1 := NewRound(c)]))
    else if c.Advance? then
      if s.now + c.seconds > U64_MAX then Err(Trap) else Ok(s.(now := s.now + c.seconds))
    else if c.from == cfg.self || c.amount > Bal(s.balances, c.from) then Err(Trap)
    else Ok(s.(balances := Transferred(s.balances, c.from, c.to, c.amount),
               donated := s.donated + if c.to == cfg.self then c.amount else 0))
  }

  /** All or nothing: a refused call leaves the state as it was. */
  function Next(cfg: Config, s: State, c: Call): State {
    if Apply(cfg, s, c).Ok? then Apply(cfg, s, c).value else s
  }

  function Exec(cfg: Config, s: State, calls: seq<Call>): State
    decreases |calls|
  {
    if calls == [] then s else Exec(cfg, Next(cfg, s, calls[0]), calls[1..])
  }

  function Deployed(cfg: Config, balances: Balances): State {
    State(0, 0, map[], balances, Bal(balances, cfg.self))
  }

  // ---- The paged index ----

  datatype Page = Page(data: seq<Address>, nextCursor: nat, total: nat)

  function BiddersPage(s: State, rid: U64, cursor: nat, limit: nat): Result<Page, Error> {
    if limit == 0 || limit > MAX_PAGE_SIZE then Err(InvalidLimit)
    else if rid !in s.cells then Err(RoundNotFound)
    else
      var bidders := s.cells[rid].round.bidders;
      var start := if cursor < |bidders| then cursor else |bidders|;
      var end := if start + limit < |bidders| then start + limit else |bidders|;
      Ok(Page(bidders[start..end], if end < |bidders| then end else 0, |bidders|))
  }
}

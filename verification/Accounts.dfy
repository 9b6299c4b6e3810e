/** The money of one round: what each party has paid in so far, what the contract holds
    for it, and what the payout loops of `settle` and `refund_all` do to both
    (`contracts/round/src/lib.rs:356-396, 484-500`). */
module Accounts {
  import opened Common
  import opened Token
  import opened RoundTypes
  import opened RoundSpec

  function Delta(m: Move, a: Address): int {
    (if m.from == a then m.amount else 0) - (if m.to == a then m.amount else 0)
  }

  /** What `a` paid on balance, over a list of transfers. */
  function Net(moves: seq<Move>, a: Address): int {
    if moves == [] then 0 else Net(moves[..|moves| - 1], a) + Delta(moves[|moves| - 1], a)
  }

  function Locked(states: map<Address, BidState>, a: Address): int {
    if a in states && !states[a].settled then states[a].escrow else 0
  }

  /** Escrow the contract still owes to the listed bidders. */
  function HeldBy(states: map<Address, BidState>, bidders: seq<Address>): int {
    if bidders == [] then 0
    else HeldBy(states, bidders[..|bidders| - 1]) + Locked(states, bidders[|bidders| - 1])
  }

  function Held(cell: Cell): int { HeldBy(cell.states, cell.round.bidders) }

  /** The transfers explain every balance change, and nothing is created or destroyed. */
  ghost predicate MoneyKept(b: Books, b': Books) {
    && Supply(b'.balances) == Supply(b.balances)
    && forall a :: Bal(b'.balances, a) + Net(b'.cell.moves, a) == Bal(b.balances, a) + Net(b.cell.moves, a)
  }

  lemma NetAppend(moves: seq<Move>, m: Move, a: Address)
    ensures Net(moves + [m], a) == Net(moves, a) + Delta(m, a)
  {
    assert (moves + [m])[..|moves|] == moves;
  }

  lemma PayMoves(b: Books, from: Address, to: Address, amount: nat)
    requires amount <= Bal(b.balances, from)
    ensures var p := Pay(b, from, to, amount).value;
            && MoneyKept(b, p)
            && (forall a :: Net(p.cell.moves, a) == Net(b.cell.moves, a) + Delta(Move(from, to, amount), a))
  {
    TransferKeepsSupply(b.balances, from, to, amount);
    forall a {
      NetAppend(b.cell.moves, Move(from, to, amount), a);
    }
  }

  lemma MoneyKeptChain(a: Books, b: Books, c: Books)
    requires MoneyKept(a, b) && MoneyKept(b, c)
    ensures MoneyKept(a, c)
  {
    forall x
      ensures Bal(c.balances, x) + Net(c.cell.moves, x) == Bal(a.balances, x) + Net(a.cell.moves, x)
    {
      assert Bal(b.balances, x) + Net(b.cell.moves, x) == Bal(a.balances, x) + Net(a.cell.moves, x);
    }
  }

  // ---- Held escrow under changes of the index and of one bid ----

  lemma {:induction false} HeldFrame(s: map<Address, BidState>, t: map<Address, BidState>, bidders: seq<Address>)
    requires forall a | a in bidders :: Locked(s, a) == Locked(t, a)
    ensures HeldBy(s, bidders) == HeldBy(t, bidders)
  {
    if bidders != [] {
      HeldFrame(s, t, bidders[..|bidders| - 1]);
      assert bidders[|bidders| - 1] in bidders;
    }
  }

  lemma {:induction false} HeldUpdate(s: map<Address, BidState>, bidders: seq<Address>, a: Address, st: BidState)
    requires Distinct(bidders) && a in bidders
    ensures HeldBy(s[a := st], bidders) == HeldBy(s, bidders) - Locked(s, a) + if st.settled then 0 else st.escrow
  {
    var n := |bidders| - 1;
    if bidders[n] == a {
      HeldFrame(s, s[a := st], bidders[..n]);
    } else {
      assert a in bidders[..n];
      HeldUpdate(s, bidders[..n], a, st);
    }
  }

  lemma {:induction false} HeldPrefix(s: map<Address, BidState>, bidders: seq<Address>, n: nat)
    requires n <= |bidders|
    requires forall a | a in s :: s[a].escrow >= 0
    ensures 0 <= HeldBy(s, bidders[..n]) <= HeldBy(s, bidders)
  {
    if n == |bidders| {
      assert bidders[..n] == bidders;
      if n > 0 { HeldPrefix(s, bidders[..n - 1], n - 1); assert bidders[..n - 1][..n - 1] == bidders[..n - 1]; }
    } else {
      HeldPrefix(s, bidders[..|bidders| - 1], n);
      assert bidders[..|bidders| - 1][..n] == bidders[..n];
    }
  }

  // ---- The payout loop ----

  /** A round whose escrow is all there and about to be paid out.  `w` is the winner, or the
      contract itself when everybody is refunded. */
  ghost predicate Payable(cfg: Config, b: Books, w: Address) {
    var r := b.cell.round;
    && Distinct(r.bidders) && cfg.self !in r.bidders && cfg.self != r.operator
    && (forall a | a in r.bidders :: a in b.cell.states && !b.cell.states[a].settled)
    && (forall a | a in b.cell.states :: a in r.bidders && b.cell.states[a].escrow > 0)
    && (w in r.bidders ==> 0 < r.winningBid <= b.cell.states[w].escrow)
    && Held(b.cell) <= Bal(b.balances, cfg.self)
  }

  function Marked(s: map<Address, BidState>, paid: seq<Address>): map<Address, BidState> {
    map a | a in s :: if a in paid then s[a].(settled := true) else s[a]
  }

  /** What the bidders in `paid` and the operator have received, seen from address `a`. */
  function Received(cell: Cell, paid: seq<Address>, w: Address, a: Address): int {
    (if a in paid && a in cell.states then cell.states[a].escrow else 0)
    + if w in paid then (if a == cell.round.operator then cell.round.winningBid else 0)
                        - (if a == w then cell.round.winningBid else 0)
      else 0
  }

  ghost predicate PaidUpTo(cfg: Config, b0: Books, b: Books, n: nat, w: Address)
    requires n <= |b0.cell.round.bidders|
  {
    var paid := b0.cell.round.bidders[..n];
    && b.cell == b0.cell.(states := Marked(b0.cell.states, paid), moves := b.cell.moves)
    && MoneyKept(b0, b)
    && Net(b.cell.moves, cfg.self) == Net(b0.cell.moves, cfg.self) + HeldBy(b0.cell.states, paid)
    && forall a | a != cfg.self :: Net(b.cell.moves, a) == Net(b0.cell.moves, a) - Received(b0.cell, paid, w, a)
  }

  /** One bidder's payout, seen from address `a`. */
  function Share(cfg: Config, cell: Cell, bidder: Address, w: Address, a: Address): int
    requires bidder in cell.states
  {
    if a == cfg.self then -cell.states[bidder].escrow
    else (if a == bidder then cell.states[bidder].escrow else 0)
         + if bidder == w then (if a == cell.round.operator then cell.round.winningBid else 0)
                               - (if a == w then cell.round.winningBid else 0)
           else 0
  }

  /** The winner's payout: the price to the operator, the rest of the escrow back. */
  lemma WinnerIsPaid(cfg: Config, b: Books, w: Address) returns (paid: Books)
    requires w in b.cell.states && 0 < b.cell.round.winningBid <= b.cell.states[w].escrow <= Bal(b.balances, cfg.self)
    requires cfg.self != w && cfg.self != b.cell.round.operator
    ensures var price := PayExactly(b, cfg.self, b.cell.round.operator, b.cell.round.winningBid);
            && price.Some?
            && PayIf(price.value, cfg.self, w, b.cell.states[w].escrow - b.cell.round.winningBid) == Some(paid)
    ensures MoneyKept(b, paid) && paid.cell == b.cell.(moves := paid.cell.moves)
    ensures forall a :: Net(paid.cell.moves, a) == Net(b.cell.moves, a) - Share(cfg, b.cell, w, w, a)
  {
    hide MoneyKept, Supply, Transferred;
    var r, escrow := b.cell.round, b.cell.states[w].escrow;
    var price := Pay(b, cfg.self, r.operator, r.winningBid).value;
    PayMoves(b, cfg.self, r.operator, r.winningBid);
    paid := PayIf(price, cfg.self, w, escrow - r.winningBid).value;
    if escrow > r.winningBid {
      PayMoves(price, cfg.self, w, escrow - r.winningBid);
      MoneyKeptChain(b, price, paid);
    }
  }

  lemma ShareIsPaid(cfg: Config, b: Books, bidder: Address, w: Address)
    requires bidder != cfg.self && b.cell.round.operator != cfg.self
    requires bidder in b.cell.states && !b.cell.states[bidder].settled
    requires 0 < b.cell.states[bidder].escrow <= Bal(b.balances, cfg.self)
    requires bidder == w ==> 0 < b.cell.round.winningBid <= b.cell.states[bidder].escrow
    ensures var next := SettleOne(cfg, b, bidder, w);
            && next.Some? && MoneyKept(b, next.value)
            && next.value.cell == b.cell.(states := b.cell.states[bidder := b.cell.states[bidder].(settled := true)],
                                          moves := next.value.cell.moves)
            && forall a :: Net(next.value.cell.moves, a) == Net(b.cell.moves, a) - Share(cfg, b.cell, bidder, w, a)
  {
    var paid: Books;
    if bidder == w {
      paid := WinnerIsPaid(cfg, b, w);
    } else {
      paid := Pay(b, cfg.self, bidder, b.cell.states[bidder].escrow).value;
      PayMoves(b, cfg.self, bidder, b.cell.states[bidder].escrow);
    }
    var next := SetState(paid, bidder, b.cell.states[bidder].(settled := true));
    assert SettleOne(cfg, b, bidder, w) == Some(next);
    assert next.balances == paid.balances && next.cell.moves == paid.cell.moves;
  }

  lemma ReceivedStep(cfg: Config, cell: Cell, n: nat, w: Address, a: Address)
    requires Distinct(cell.round.bidders) && n < |cell.round.bidders| && a != cfg.self
    requires cell.round.bidders[n] in cell.states
    ensures Received(cell, cell.round.bidders[..n + 1], w, a)
            == Received(cell, cell.round.bidders[..n], w, a) + Share(cfg, cell, cell.round.bidders[n], w, a)
  {
    var bidders := cell.round.bidders;
    assert bidders[..n + 1] == bidders[..n] + [bidders[n]];
    assert bidders[n] !in bidders[..n];
  }

  /** Before bidder `n` is paid, the contract still has that bidder's whole escrow. */
  lemma StillFunded(cfg: Config, b0: Books, b: Books, n: nat, w: Address)
    requires Payable(cfg, b0, w) && n < |b0.cell.round.bidders|
    requires PaidUpTo(cfg, b0, b, n, w)
    ensures b0.cell.round.bidders[n] in b0.cell.states
    ensures b0.cell.states[b0.cell.round.bidders[n]].escrow <= Bal(b.balances, cfg.self)
    ensures HeldBy(b0.cell.states, b0.cell.round.bidders[..n + 1])
            == HeldBy(b0.cell.states, b0.cell.round.bidders[..n]) + b0.cell.states[b0.cell.round.bidders[n]].escrow
  {
    var bidders := b0.cell.round.bidders;
    assert bidders[n] in bidders;
    assert bidders[..n + 1][..n] == bidders[..n];
    HeldPrefix(b0.cell.states, bidders, n + 1);
    assert Bal(b.balances, cfg.self) + Net(b.cell.moves, cfg.self)
        == Bal(b0.balances, cfg.self) + Net(b0.cell.moves, cfg.self);
  }

  lemma MarkedStep(s: map<Address, BidState>, bidders: seq<Address>, n: nat)
    requires Distinct(bidders) && n < |bidders| && bidders[n] in s
    ensures var before := Marked(s, bidders[..n]);
            && before[bidders[n]] == s[bidders[n]]
            && Marked(s, bidders[..n + 1]) == before[bidders[n] := s[bidders[n]].(settled := true)]
  {
    assert bidders[..n + 1] == bidders[..n] + [bidders[n]];
    assert bidders[n] !in bidders[..n];
  }

  lemma PayoutStep(cfg: Config, b0: Books, b: Books, n: nat, w: Address)
    requires Payable(cfg, b0, w) && n < |b0.cell.round.bidders|
    requires PaidUpTo(cfg, b0, b, n, w)
    ensures var next := SettleOne(cfg, b, b0.cell.round.bidders[n], w);
            next.Some? && PaidUpTo(cfg, b0, next.value, n + 1, w)
  {
    var bidder := b0.cell.round.bidders[n];
    StillFunded(cfg, b0, b, n, w);
    MarkedStep(b0.cell.states, b0.cell.round.bidders, n);
    assert bidder in b0.cell.round.bidders;
    ShareIsPaid(cfg, b, bidder, w);
    var next := SettleOne(cfg, b, bidder, w).value;
    MoneyKeptChain(b0, b, next);
    forall a | a != cfg.self
      ensures Net(next.cell.moves, a)
              == Net(b0.cell.moves, a) - Received(b0.cell, b0.cell.round.bidders[..n + 1], w, a)
    {
      ReceivedStep(cfg, b0.cell, n, w, a);
      assert Share(cfg, b.cell, bidder, w, a) == Share(cfg, b0.cell, bidder, w, a);
    }
  }

  /** The whole payout goes through, whoever the operator is, and pays everyone exactly
      their share. */
  lemma {:induction false} PayoutLoop(cfg: Config, b0: Books, n: nat, w: Address)
    requires Payable(cfg, b0, w) && n <= |b0.cell.round.bidders|
    ensures var r := SettleFirst(cfg, b0, b0.cell.round.bidders[..n], w);
            r.Some? && PaidUpTo(cfg, b0, r.value, n, w)
  {
    var bidders := b0.cell.round.bidders;
    if n == 0 {
      assert Marked(b0.cell.states, bidders[..0]) == b0.cell.states;
    } else {
      PayoutLoop(cfg, b0, n - 1, w);
      assert bidders[..n][..n - 1] == bidders[..n - 1];
      PayoutStep(cfg, b0, SettleFirst(cfg, b0, bidders[..n - 1], w).value, n - 1, w);
    }
  }

  /** Refunding everyone is settling a round that nobody won. */
  lemma {:induction false} RefundLoop(cfg: Config, b0: Books, n: nat)
    requires Payable(cfg, b0, cfg.self) && n <= |b0.cell.round.bidders|
    ensures var first := b0.cell.round.bidders[..n];
            RefundFirst(cfg, b0, first) == SettleFirst(cfg, b0, first, cfg.self)
  {
    var bidders := b0.cell.round.bidders;
    if n > 0 {
      RefundLoop(cfg, b0, n - 1);
      PayoutLoop(cfg, b0, n - 1, cfg.self);
      assert bidders[..n][..n - 1] == bidders[..n - 1];
      var b := SettleFirst(cfg, b0, bidders[..n - 1], cfg.self).value;
      RefundIsSettle(cfg, b0, b, n - 1);
    }
  }

  lemma RefundIsSettle(cfg: Config, b0: Books, b: Books, n: nat)
    requires Payable(cfg, b0, cfg.self) && n < |b0.cell.round.bidders|
    requires b.cell.states == Marked(b0.cell.states, b0.cell.round.bidders[..n])
    ensures RefundOne(cfg, b, b0.cell.round.bidders[n]) == SettleOne(cfg, b, b0.cell.round.bidders[n], cfg.self)
  {
    assert b0.cell.round.bidders[n] in b0.cell.round.bidders;
  }
}

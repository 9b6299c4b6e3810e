/** What `clear` decides: the loop over the index, against an order-free description of
    the winner (`contracts/round/src/lib.rs:304-341`). */
module Clearing {
  import opened Common
  import opened RoundTypes
  import opened RoundSpec

  function ValueAt(cell: Cell, a: Address): int
    requires Candidate(cell.states, a)
  {
    cell.states[a].revealedValue.value
  }

  /** `k` is the winning position among the first `n`: no candidate's value is above the winning
      one - below it, if the lowest bid wins - and those before it are strictly worse. */
  ghost predicate WinsAt(cell: Cell, n: nat, k: nat) {
    var bidders := cell.round.bidders;
    && n <= |bidders|
    && k < n && Candidate(cell.states, bidders[k])
    && var best := ValueAt(cell, bidders[k]);
       forall j | 0 <= j < n && Candidate(cell.states, bidders[j]) ::
         var value := ValueAt(cell, bidders[j]);
         match cell.round.rule
         case HighestBid => value <= best && (j < k ==> value < best)
         case LowestBid => value >= best && (j < k ==> value > best)
  }

  ghost predicate IsWinner(cell: Cell, a: Address, value: int) {
    exists k: nat :: WinsAt(cell, |cell.round.bidders|, k) && cell.round.bidders[k] == a && ValueAt(cell, a) == value
  }

  ghost predicate NoCandidate(cell: Cell) {
    forall j | 0 <= j < |cell.round.bidders| :: !Candidate(cell.states, cell.round.bidders[j])
  }

  lemma {:induction false} LeaderWins(cell: Cell, n: nat) returns (k: nat)
    requires n <= |cell.round.bidders|
    ensures Leader(cell, n).Some? ==>
              && WinsAt(cell, n, k)
              && Leader(cell, n) == Some((cell.round.bidders[k], ValueAt(cell, cell.round.bidders[k])))
    ensures Leader(cell, n).None? ==>
              forall j | 0 <= j < n :: !Candidate(cell.states, cell.round.bidders[j])
  {
    k := 0;
    if n > 0 {
      k := LeaderWins(cell, n - 1);
      if Leader(cell, n) != Leader(cell, n - 1) {
        k := n - 1;
      }
    }
  }

  lemma WinnerUnique(cell: Cell, j: nat, k: nat)
    requires WinsAt(cell, |cell.round.bidders|, j) && WinsAt(cell, |cell.round.bidders|, k)
    ensures j == k
  {
  }

  /** The loop finds exactly the earliest of the best candidates, and finds nobody exactly
      when there is none. */
  lemma LeaderIsTheWinner(cell: Cell, a: Address, value: int)
    ensures Leader(cell, |cell.round.bidders|).None? <==> NoCandidate(cell)
    ensures Leader(cell, |cell.round.bidders|) == Some((a, value)) <==> IsWinner(cell, a, value)
  {
    var n := |cell.round.bidders|;
    var k := LeaderWins(cell, n);
    if IsWinner(cell, a, value) {
      var j: nat :| WinsAt(cell, n, j) && cell.round.bidders[j] == a && ValueAt(cell, a) == value;
      assert Candidate(cell.states, cell.round.bidders[j]);
      WinnerUnique(cell, j, k);
    }
  }

  /** The outcome depends on the index, the rule and the bids only. */
  lemma {:induction false} LeaderCongruence(c: Cell, d: Cell, n: nat)
    requires c.round.bidders == d.round.bidders && c.round.rule == d.round.rule
    requires n <= |c.round.bidders|
    requires forall a | a in c.round.bidders ::
               Candidate(c.states, a) == Candidate(d.states, a)
               && (Candidate(c.states, a) ==> ValueAt(c, a) == ValueAt(d, a))
    ensures Leader(c, n) == Leader(d, n)
  {
    if n > 0 {
      LeaderCongruence(c, d, n - 1);
      assert c.round.bidders[n - 1] in c.round.bidders;
    }
  }
}

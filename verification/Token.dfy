/** The token the rounds are paid in: one balance per address, and a transfer that is
    refused when the payer is short. */
module Token {
  import opened Common

  type Balances = map<Address, nat>

  function Bal(b: Balances, a: Address): nat { if a in b then b[a] else 0 }

  function Transferred(b: Balances, from: Address, to: Address, amount: nat): Balances
    requires amount <= Bal(b, from)
  {
    var debited := b[from := Bal(b, from) - amount];
    debited[to := Bal(debited, to) + amount]
  }

  /** Everything in circulation. */
  ghost function Supply(b: Balances): nat {
    if b == map[] then 0
    else
      var a :| a in b;
      b[a] + Supply(b - {a})
  }

  lemma {:induction false} SupplyPick(b: Balances, a: Address)
    requires a in b
    ensures Supply(b) == b[a] + Supply(b - {a})
    decreases |b|
  {
    var c :| c in b && Supply(b) == b[c] + Supply(b - {c});
    if c != a {
      SupplyPick(b - {c}, a);
      SupplyPick(b - {a}, c);
      assert b - {c} - {a} == b - {a} - {c};
    }
  }

  lemma SupplySet(b: Balances, a: Address, n: nat)
    ensures Supply(b[a := n]) == Supply(b) - Bal(b, a) + n
  {
    SupplyPick(b[a := n], a);
    assert b[a := n] - {a} == b - {a};
    if a in b {
      SupplyPick(b, a);
    } else {
      assert b - {a} == b;
    }
  }

  lemma TransferKeepsSupply(b: Balances, from: Address, to: Address, amount: nat)
    requires amount <= Bal(b, from)
    ensures Supply(Transferred(b, from, to, amount)) == Supply(b)
  {
    var debited := b[from := Bal(b, from) - amount];
    SupplySet(b, from, Bal(b, from) - amount);
    SupplySet(debited, to, Bal(debited, to) + amount);
  }

  class Ledger {
    var balances: Balances

    constructor (initial: Balances)
      ensures balances == initial
    {
      balances := initial;
    }

    method Transfer(from: Address, to: Address, amount: nat) returns (ok: bool)
      modifies this
      ensures ok <==> amount <= Bal(old(balances), from)
      ensures ok ==> balances == Transferred(old(balances), from, to, amount)
      ensures !ok ==> balances == old(balances)
    {
      ok := amount <= Bal(balances, from);
      if ok {
        balances := balances[from := Bal(balances, from) - amount];
        balances := balances[to := Bal(balances, to) + amount];
      }
    }
  }
}

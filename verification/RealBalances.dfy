/** The transfers recorded for the rounds against the token's own balances, for every account
    and over every run. */
module RealBalances {
  import opened Common
  import opened Token
  import opened RoundTypes
  import opened RoundSpec
  import opened Accounts
  import opened RoundRuns

  /** What `a` has paid on balance into the rounds numbered up to `n`. */
  function TotalNet(cells: map<U64, Cell>, n: nat, a: Address): int {
    if n == 0 then 0 else TotalNet(cells, n - 1, a) + if n in cells then Net(cells[n].moves, a) else 0
  }

  /** What `a` received on balance in the outside transfers of a run that were accepted. */
  function FromOutside(cfg: Config, s: State, calls: seq<Call>, a: Address): int
    decreases |calls|
  {
    if calls == [] then 0
    else
      var c := calls[0];
      (if c.Outside? && Apply(cfg, s, c).Ok? then -Delta(Move(c.from, c.to, c.amount), a) else 0)
      + FromOutside(cfg, Next(cfg, s, c), calls[1..], a)
  }

  lemma {:induction false} NetFrame(cells: map<U64, Cell>, cells': map<U64, Cell>, n: nat, a: Address)
    requires forall rid | 1 <= rid <= n ::
               (rid in cells <==> rid in cells') && (rid in cells ==> cells[rid].moves == cells'[rid].moves)
    ensures TotalNet(cells, n, a) == TotalNet(cells', n, a)
  {
    if n > 0 { NetFrame(cells, cells', n - 1, a); }
  }

  lemma {:induction false} NetUpdate(cells: map<U64, Cell>, n: nat, rid: U64, cell: Cell, a: Address)
    requires 1 <= rid <= n && rid in cells
    ensures TotalNet(cells[rid := cell], n, a) == TotalNet(cells, n, a) - Net(cells[rid].moves, a) + Net(cell.moves, a)
  {
    if n == rid {
      NetFrame(cells, cells[rid := cell], n - 1, a);
    } else {
      NetUpdate(cells, n - 1, rid, cell, a);
    }
  }

  lemma RoundStep(cfg: Config, s: State, c: Call, a: Address)
    requires StateOk(cfg, s) && OnRound(c) && Apply(cfg, s, c).Ok?
    ensures var t := Next(cfg, s, c);
            Bal(t.balances, a) + TotalNet(t.cells, t.counter, a) == Bal(s.balances, a) + TotalNet(s.cells, s.counter, a)
  {
    hide RoundCall, TotalNet, Net;
    var b := BooksOf(s, c.rid);
    var b' := RoundCall(cfg, s.now, b, c).value;
    Covered(cfg, s, c.rid);
    RoundCallKeeps(cfg, s.now, b, c, b');
    NetUpdate(s.cells, s.counter, c.rid, b'.cell, a);
  }

  lemma NewRoundStep(cfg: Config, s: State, c: Call, a: Address)
    requires StateOk(cfg, s) && c.CreateRound? && s.counter < U64_MAX
    ensures TotalNet(s.cells[s.counter + 1 := NewRound(c)], s.counter + 1, a) == TotalNet(s.cells, s.counter, a)
  {
    NetFrame(s.cells, s.cells[s.counter + 1 := NewRound(c)], s.counter, a);
    assert Net(NewRound(c).moves, a) == 0;
  }

  lemma BalanceStep(cfg: Config, s: State, c: Call, a: Address)
    requires StateOk(cfg, s)
    ensures var t := Next(cfg, s, c);
            Bal(t.balances, a) + TotalNet(t.cells, t.counter, a)
            == Bal(s.balances, a) + TotalNet(s.cells, s.counter, a)
               + if c.Outside? && Apply(cfg, s, c).Ok? then -Delta(Move(c.from, c.to, c.amount), a) else 0
  {
    hide StateOk, RoundCall, CreateCheck, TotalNet;
    if Apply(cfg, s, c).Ok? {
      if OnRound(c) {
        RoundStep(cfg, s, c, a);
      } else if c.CreateRound? {
        NewRoundStep(cfg, s, c, a);
      }
    }
  }

  lemma {:induction false} RunBalances(cfg: Config, s: State, calls: seq<Call>, a: Address)
    requires StateOk(cfg, s)
    ensures var t := Exec(cfg, s, calls);
            Bal(t.balances, a) + TotalNet(t.cells, t.counter, a)
            == Bal(s.balances, a) + TotalNet(s.cells, s.counter, a) + FromOutside(cfg, s, calls, a)
    decreases |calls|
  {
    hide StateOk, Next, TotalNet;
    if calls != [] {
      StepKeeps(cfg, s, calls[0]);
      BalanceStep(cfg, s, calls[0], a);
      RunBalances(cfg, Next(cfg, s, calls[0]), calls[1..], a);
    }
  }

  /** Over any run from deployment every account's token balance is what it started with, plus
      what it received from outsiders, minus its net payments into the rounds. */
  lemma BalancesExplained(cfg: Config, balances: Balances, calls: seq<Call>, a: Address)
    ensures var s := Exec(cfg, Deployed(cfg, balances), calls);
            Bal(s.balances, a) + TotalNet(s.cells, s.counter, a)
            == Bal(balances, a) + FromOutside(cfg, Deployed(cfg, balances), calls, a)
  {
    hide Exec;
    RunBalances(cfg, Deployed(cfg, balances), calls, a);
  }
}

/** The keeper's view of the world: the SDK client over RPC, the drand beacon and the wall
    clock (`packages/sdk/src/client.ts`, `services/keeper/src/keeper.ts:83-101`).

    Every request may find that others have acted first, may fail before reaching the
    ledger, or may take effect and still report a failure - unless `faultFree`, when only
    time passes in between. */
module Sdk {
  import opened Common
  import opened RoundTypes
  import opened RoundSpec
  import opened RoundInvariant
  import opened RoundRuns
  import opened RoundProgress
  import Commitment

  datatype Read<+T> = Got(value: T) | Failed

  datatype Reply = Sent | Rejected(error: Error) | Lost

  /** What the beacon serves: whether round R is out, its signature, and what a sealed
      payload decrypts to. */
  datatype Beacon = Beacon(serves: U64 -> bool, signature: U64 -> Bytes, decrypt: Bytes -> Option<Bytes>)

  const PAGE_SIZE := 100
  const END_OF_TIME: nat := U64_MAX * 1000

  /** `openBid`: the value and nonce inside a sealed payload. */
  function OpenBid(beacon: Beacon, ciphertext: Bytes): Option<(I128, Bytes32)> {
    var plain := beacon.decrypt(ciphertext);
    if plain.None? then None
    else
      var bid := Commitment.Decode(plain.value);
      if bid.Err? then None
      else
        Commitment.EncodeDecode(plain.value);
        Some((bid.value.0, bid.value.1))
  }

  class Client {
    const cfg: Config
    const beacon: Beacon
    var faultFree: bool         // for the time being
    var chain: State
    var clock: nat              // the keeper's clock, in milliseconds
    var landed: seq<Call>       // calls of this keeper that took effect
    ghost var lost: bool        // some request of this keeper got no answer
    ghost var done: set<U64>    // rounds this keeper has seen ended
    ghost var origin: State     // some earlier state of the chain

    ghost predicate Valid()
      reads this
    {
      && StateOk(cfg, chain) && Grows(origin, chain)
      && clock <= END_OF_TIME && (faultFree ==> clock / 1000 <= chain.now)
      && (forall r: U64 | beacon.serves(r) :: cfg.verifies(r, beacon.signature(r)))
      && Ended(chain, done)
    }

    /** A client of a chain in order, with a beacon whose signatures the contract accepts, for
        a keeper that has seen the rounds `done` end. */
    constructor (cfg: Config, beacon: Beacon, faultFree: bool, chain: State, clock: nat, ghost done: set<U64>)
      requires StateOk(cfg, chain) && clock <= END_OF_TIME && (faultFree ==> clock / 1000 <= chain.now)
      requires forall r: U64 | beacon.serves(r) :: cfg.verifies(r, beacon.signature(r))
      requires Ended(chain, done)
      ensures this.cfg == cfg && this.beacon == beacon && this.faultFree == faultFree
      ensures this.chain == chain && this.clock == clock && landed == [] && this.done == done && !lost
      ensures Valid()
    {
      this.cfg, this.beacon, this.faultFree, this.chain, this.clock := cfg, beacon, faultFree, chain, clock;
      this.landed, this.lost, this.done, this.origin := [], false, done, chain;
      RunGrows(cfg, chain, []);
    }

    /** A round has been found to have ended. */
    ghost method Learn(rid: U64)
      requires Valid() && rid in chain.cells && Final(chain.cells[rid].round.status)
      modifies this`done
      ensures Valid() && done == old(done) + {rid}
    {
      hide StateOk, Grows;
      done := done + {rid};
    }

    /** Remember the present state of the chain. */
    ghost method Remember()
      requires Valid()
      modifies this`origin
      ensures Valid() && origin == chain
    {
      hide StateOk, Grows;
      RunGrows(cfg, chain, []);
      origin := chain;
    }

    /** The faults stop, once ledger time has caught up with the keeper's clock, or they begin. */
    method Switch(calm: bool)
      requires Valid()
      modifies this`chain, this`faultFree
      ensures Valid() && faultFree == calm && chain == old(chain).(now := chain.now) && chain.now >= old(chain).now
    {
      hide StateOk, Grows;
      if calm && clock / 1000 > chain.now {
        ghost var before := chain;
        TimePasses(cfg, chain, clock / 1000 - chain.now);
        StillEnded(chain, chain.(now := clock / 1000), done);
        chain := chain.(now := clock / 1000);
        GrowsTrans(origin, before, chain);
      }
      faultFree := calm;
    }

    static ghost predicate Ended(s: State, done: set<U64>) {
      forall rid | rid in done :: rid in s.cells && Final(s.cells[rid].round.status)
    }

    function Now(): nat reads this { clock / 1000 }

    static lemma StillEnded(s: State, t: State, done: set<U64>)
      requires Ended(s, done) && Grows(s, t)
      ensures Ended(t, done)
    {
      forall rid | rid in done
        ensures rid in t.cells && Final(t.cells[rid].round.status)
      {
        assert Later(s.cells[rid], t.cells[rid]);
      }
    }

    /** Time passes and, unless fault-free, anybody makes any calls. */
    method Pass()
      requires Valid()
      modifies this`chain, this`clock
      ensures Valid() && clock >= old(clock) && chain.now >= old(chain).now
      ensures Grows(old(chain), chain)
      ensures faultFree ==> chain == old(chain).(now := chain.now)
    {
      hide StateOk, Grows, Exec;
      var drift: nat, lag: nat := *, *;
      if faultFree {
        if chain.now + drift > U64_MAX { drift := 0; }
        TimePasses(cfg, chain, drift);
        StillEnded(chain, chain.(now := chain.now + drift), done);
        GrowsTrans(origin, chain, chain.(now := chain.now + drift));
        chain := chain.(now := chain.now + drift);
        if clock + lag <= chain.now * 1000 { clock := clock + lag; }
      } else {
        var others: seq<Call> := *;
        RunGrows(cfg, chain, others);
        RunKeeps(cfg, chain, others);
        ClockForward(chain, Exec(cfg, chain, others));
        StillEnded(chain, Exec(cfg, chain, others), done);
        GrowsTrans(origin, chain, Exec(cfg, chain, others));
        chain := Exec(cfg, chain, others);
        if clock + lag <= END_OF_TIME { clock := clock + lag; }
      }
    }

    /** Nothing of this keeper's doing happened since the old state. */
    twostate predicate Looked()
      reads this
    {
      && Valid() && clock >= old(clock) && chain.now >= old(chain).now
      && old(done) <= done && landed == old(landed)
      && Grows(old(chain), chain)
      && (faultFree ==> chain == old(chain).(now := chain.now))
      && (old(lost) ==> lost) && (faultFree ==> lost == old(lost))
    }

    /** One simulated read; the flag says whether the answer arrived. */
    method Read() returns (answered: bool)
      requires Valid()
      modifies this`chain, this`clock, this`lost
      ensures Looked() && done == old(done)
      ensures faultFree ==> answered
      ensures !answered ==> lost
    {
      Pass();
      answered := *;
      answered := answered || faultFree;
      lost := lost || !answered;
    }

    method GetRound(rid: U64) returns (r: Read<Round>)
      requires Valid()
      modifies this`chain, this`clock, this`landed, this`done, this`lost
      ensures Looked()
      ensures r.Got? ==> rid in chain.cells && r.value == chain.cells[rid].round
                         && (Final(r.value.status) ==> rid in done)
      ensures faultFree && rid in old(chain).cells ==> r.Got?
      ensures r.Failed? && rid in chain.cells ==> lost
    {
      hide StateOk;
      var answered := Read();
      if !answered || rid !in chain.cells { return Failed; }
      if Final(chain.cells[rid].round.status) { done := done + {rid}; }
      r := Got(chain.cells[rid].round);
    }

    method GetBidState(rid: U64, bidder: Address) returns (r: Read<BidState>)
      requires Valid()
      modifies this`chain, this`clock, this`landed, this`done, this`lost
      ensures Looked()
      ensures r.Got? ==> rid in chain.cells && bidder in chain.cells[rid].states
                         && r.value == chain.cells[rid].states[bidder]
      ensures faultFree && rid in old(chain).cells && bidder in old(chain).cells[rid].states ==> r.Got?
    {
      var answered := Read();
      if !answered || rid !in chain.cells || bidder !in chain.cells[rid].states { return Failed; }
      r := Got(chain.cells[rid].states[bidder]);
    }

    method GetSeal(rid: U64, bidder: Address) returns (r: Read<Option<Seal>>)
      requires Valid()
      modifies this`chain, this`clock, this`landed, this`done, this`lost
      ensures Looked()
      ensures r.Got? ==> r.value == if rid in chain.cells && bidder in chain.cells[rid].seals
                                    then Some(chain.cells[rid].seals[bidder]) else None
      ensures faultFree ==> r.Got?
      ensures r.Failed? ==> lost
    {
      var answered := Read();
      if !answered { return Failed; }
      r := Got(if rid in chain.cells && bidder in chain.cells[rid].seals
               then Some(chain.cells[rid].seals[bidder]) else None);
    }

    method GetBiddersPage(rid: U64, cursor: nat, limit: nat) returns (r: Read<Page>)
      requires Valid()
      modifies this`chain, this`clock, this`landed, this`done, this`lost
      ensures Looked()
      ensures r.Got? ==> BiddersPage(chain, rid, cursor, limit) == Ok(r.value)
      ensures faultFree && BiddersPage(old(chain), rid, cursor, limit).Ok? ==> r.Got?
      ensures r.Failed? && BiddersPage(chain, rid, cursor, limit).Ok? ==> lost
    {
      var answered := Read();
      var page := BiddersPage(chain, rid, cursor, limit);
      if !answered || page.Err? { return Failed; }
      r := Got(page.value);
    }

    /** The paging generator, collected: page after page until the cursor comes back 0, while
        others may be committing.  What was yielded is exactly the index as the last page saw
        it, without repetition, and it contains every bidder there was at the start. */
    method Bidders(rid: U64) returns (r: Read<seq<Address>>)
      requires Valid()
      modifies this`chain, this`clock, this`landed, this`done, this`lost
      ensures Looked()
      ensures r.Got? ==> rid in chain.cells && r.value == chain.cells[rid].round.bidders && Distinct(r.value)
      ensures r.Got? && rid in old(chain).cells ==> old(chain).cells[rid].round.bidders <= r.value
      ensures faultFree && rid in old(chain).cells ==> r.Got?
      ensures r.Failed? && rid in chain.cells ==> lost
    {
      hide StateOk, Grows, Distinct;
      var all: seq<Address> := [];
      var cursor := 0;
      RunGrows(cfg, chain, []);
      while true
        invariant Looked() && 0 <= cursor <= MAX_BIDDERS && |all| == cursor
        invariant cursor > 0 ==> rid in chain.cells && cursor < |chain.cells[rid].round.bidders|
                                 && all == chain.cells[rid].round.bidders[..cursor]
        decreases MAX_BIDDERS - cursor
      {
        ghost var seen := chain;
        var page := GetBiddersPage(rid, cursor, PAGE_SIZE);
        GrowsTrans(old(chain), seen, chain);
        if page.Failed? { return Failed; }
        ghost var index := chain.cells[rid].round.bidders;
        IndexBounds(cfg, chain, rid);
        if cursor > 0 {
          IndexGrows(cfg, seen, chain, rid);
          assert all == index[..cursor];
        }
        all := all + page.value.data;
        cursor := page.value.nextCursor;
        assert all == index[..if cursor == 0 then |index| else cursor];
        if cursor == 0 {
          assert index[..|index|] == index;
          if rid in old(chain).cells { IndexGrows(cfg, old(chain), chain, rid); }
          return Got(all);
        }
      }
    }

    /** Ask the beacon for R's signature. */
    method FetchSignature(round: U64) returns (r: Read<Bytes>)
      requires Valid()
      modifies this`chain, this`clock, this`landed, this`done, this`lost
      ensures Looked()
      ensures faultFree ==> r == if beacon.serves(round) then Got(beacon.signature(round)) else Failed
    {
      var answered := Read();
      var bytes: Bytes := *;
      if faultFree {
        r := if beacon.serves(round) then Got(beacon.signature(round)) else Failed;
      } else {
        r := if answered then Got(bytes) else Failed;
      }
    }

    /** Decrypt a sealed payload with the beacon. */
    method Decrypt(ciphertext: Bytes) returns (r: Read<(I128, Bytes32)>)
      requires Valid()
      modifies this`chain, this`clock, this`landed, this`done, this`lost
      ensures Looked()
      ensures r.Got? ==> OpenBid(beacon, ciphertext) == Some(r.value)
      ensures faultFree && OpenBid(beacon, ciphertext).Some? ==> r.Got?
    {
      var answered := Read();
      var bid := OpenBid(beacon, ciphertext);
      r := if answered && bid.Some? then Got(bid.value) else Failed;
    }

    static lemma Accepted(cfg: Config, s: State, c: Call)
      requires StateOk(cfg, s) && OnRound(c) && Apply(cfg, s, c).Ok?
      ensures StateOk(cfg, Apply(cfg, s, c).value) && Grows(s, Apply(cfg, s, c).value)
      ensures c.rid in Apply(cfg, s, c).value.cells && Apply(cfg, s, c).value.now == s.now
    {
      StepKeeps(cfg, s, c);
      StepGrows(cfg, s, c);
      hide RoundCall;
    }

    /** Submit a call.  `at` is the state the ledger executed it in, had it reached it. */
    method Send(c: Call) returns (reply: Reply, ghost at: State)
      requires Valid() && OnRound(c)
      modifies this`chain, this`clock, this`landed, this`done, this`lost
      ensures Valid() && clock >= old(clock) && old(done) <= done
      ensures Grows(old(chain), at) && StateOk(cfg, at) && Grows(old(chain), chain)
      ensures reply.Sent? ==> Apply(cfg, at, c) == Ok(chain) && landed == old(landed) + [c]
                              && (Final(chain.cells[c.rid].round.status) ==> c.rid in done)
      ensures reply.Rejected? ==> Apply(cfg, at, c) == Err(reply.error) && chain == at && landed == old(landed)
      ensures (reply.Lost? || old(lost) ==> lost) && (faultFree ==> lost == old(lost))
      ensures faultFree ==> !reply.Lost? && at == old(chain).(now := at.now) && old(chain).now <= at.now == chain.now
    {
      hide StateOk, Apply, Grows;
      Pass();
      at := chain;
      GrowsRefl(cfg, at);
      var reaches, reports := *, *;
      if !faultFree && !reaches {
        lost := true;
        return Lost, at;
      }
      var r := Apply(cfg, chain, c);
      if r.Ok? {
        Accepted(cfg, chain, c);
        GrowsTrans(old(chain), chain, r.value);
        StillEnded(chain, r.value, done);
        GrowsTrans(origin, chain, r.value);
        chain := r.value;
        landed := landed + [c];
        if Final(chain.cells[c.rid].round.status) { done := done + {c.rid}; }
      }
      if !faultFree && !reports {
        lost := true;
        return Lost, at;
      }
      reply := if r.Ok? then Sent else Rejected(r.error);
    }

    /** Wait on the wall clock. */
    method Sleep(ms: nat)
      requires Valid()
      modifies this`chain, this`clock
      ensures Looked() && done == old(done)
      ensures clock > old(clock) || clock == END_OF_TIME
    {
      hide StateOk, Grows;
      Pass();
      var wake := clock + (if ms == 0 then 1 else ms);
      if wake > END_OF_TIME { wake := END_OF_TIME; }
      if faultFree && wake / 1000 > chain.now {
        ghost var before := chain;
        TimePasses(cfg, chain, wake / 1000 - chain.now);
        StillEnded(chain, chain.(now := wake / 1000), done);
        chain := chain.(now := wake / 1000);
        GrowsTrans(old(chain), before, chain);
        GrowsTrans(origin, before, chain);
      }
      clock := wake;
    }
  }
}

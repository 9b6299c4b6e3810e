# A model of the sealed-bid round, its keeper and its registries

This project models, in Dafny, the part of the repository where a mistake would cost
somebody money or trust, and proves what that part is for.

* **The round contract** (`RoundTypes`, `RoundSpec`, `Token`, `Accounts`, `Clearing`,
  `RoundInvariant`, `RoundRuns`, `RealBalances`, `RoundProgress`, `RoundCalls`, `RoundEnd`,
  `RevealOrder`, `SampleRuns`, `RoundContract`): many sealed-bid auctions over one token
  balance. Each entry point exists twice - as a function of the state before the call, about
  which the theorems are stated, and as a method of a class with loops and updates as in the
  Rust code, proved to do exactly what the function says. A run is any list of calls, refused
  ones included, mixed with time passing, seals expiring and outsiders moving tokens.
* **The keeper** (`Sdk`, `SettlementGuard`, `KeeperStore`, `KeeperSpec`, `Keeper`, `WatchLoop`,
  `DryRun`, `SafePrediction`, `SealedAuction`, `Races`): the permissionless client that opens,
  reveals, clears, settles and voids. Its world is adversarial: before every request anybody may
  have made any calls, and every request may fail before or after taking effect. Only while
  `faultFree` does nothing happen in between but time; the keeper's clock is then never ahead of
  ledger time. Faults may begin and stop between cycles.
* **Receipts** (`Receipt`, `ReceiptExport`, `ReceiptTamper`): the exported document, its offline
  verifier, and what that detects.
* **The bid encoding** (`Commitment`): 48 bytes, the byte loops included.
* **The credential registry** (`PassportSpec`, `PassportHistory`, `PassportTheorems`,
  `PassportAnswers`, `PassportContract`): verification against the history of accepted operations.
* **Canonical JSON** (`Json`, `CanonicalJson`, `CanonicalText`, `Mandate`): the printer behind
  mandate signatures and appraisal hashes, and its unique readability.

Modelling choices a reader should know:

* A call that returns an error or traps changes nothing; the model is all or nothing, and the
  class methods restore what they had written.
* Storage is grouped by round id (`Cell`): the round record, its bid states, its unexpired seals,
  and the transfers made for it. That last list is a record the host keeps as token events.
* Hash and beacon check are functions given to the model. Nothing is assumed of the hash; where
  collisions matter, the premise speaks only of the finitely many openings at hand.
* Decryption and the beacon are partial functions given to the keeper; a served signature is one
  that the contract accepts, and what the beacon serves does not change while the keeper is looking.
* The keeper's reads never go back to an older ledger than one it has already seen. A replica that
  lags behind would break `Keeper.RefusedSettlement`, and with it the terminal mark the guard gets
  after a refused settlement.
* The keeper's clock ends with the last second a ledger can show; a wait beyond it does not return.
* Signatures: an operator or bidder cannot be the contract itself, a consequence of
  `require_auth`; a missing signature in the registry is an error that changes nothing.
* The release profile checks overflow, so `reveal_deadline + VOID_GRACE` traps instead of wrapping.

Where the promise and the code part ways, the model follows the code, and both the exact condition
and a concrete counterexample are proved:

* A receipt is free of errors only if every bidder is an account address and no stored seal has an
  empty part; the contract accepts an empty auditor blob (`ReceiptExport.ExportVerifies`,
  `ReceiptExport.EmptyBlobIsRefused`).
* The offline verifier binds header, lists, openings and winner of a receipt, but not the escrow
  amounts (`ReceiptTamper.OpeningBound`, `ReceiptTamper.EscrowNotBound`).
* A batch equals its single issues except when it is empty and the issuer may not issue
  (`PassportTheorems.BatchIsSingles`, `PassportTheorems.EmptyBatchRefused`).
* The dry run can announce "revealing" when no reveal can follow (`DryRun.PredictionExact`,
  `DryRun.RevealingWithoutReveal`).
* Its prediction can fail when a deadline passes during the tick: it is safe for ticks of every
  length exactly when the round is foreseeable (`SafePrediction.PredictionSafe`,
  `DryRun.CrossingMatters`).
* The canonical printer confuses `null`, non-finite numbers and undefined array items
  (`CanonicalJson.CanonicalIffEquivalent`, `CanonicalJson.NothingsCollide`).
* The void exit is closed for good when `reveal_deadline` is within an hour of the largest 64-bit
  number (`RoundRuns.VoidAlwaysOpen`, `RoundProgress.VoidEverPossible`,
  `RoundProgress.UnvoidableRound`), and a round whose deadline is that number, once Revealing,
  keeps its escrow for ever (`RoundEnd.EndPossible`, `RoundEnd.EscrowLockedForGood`).
* A mandate with a non-finite number is signed as the same text as its copy with another one
  (`Mandate.SignatureBindsEveryField`, `Mandate.OddPricesCollide`).
* Closing a round is documented as idempotent, but a keeper that loses the race to `clear`, or to
  reveal in a round cleared meanwhile, gets an error it does not expect and throws; lost races
  to open, settle and void are skipped as intended (`Races.LostRace`).
* "Terminal" is not absorbing in the settlement guard: `markRetryable` resets any entry
  (`SettlementGuard.Guard.MarkRetryable`), which the loop does exactly after a tick that threw
  (`WatchLoop.RecordTick`). What does hold is that a terminal entry always stands for an ended
  round (`WatchLoop.PollCycle`).

## Model

| member | source | states |
|---|---|---|
| RoundRuns.Conservation | contracts/round/src/lib.rs:135-206 | After any list of calls on any number of rounds, refused ones and outside transfers included, the contract's token balance is the sum over all rounds of the escrow still owed plus what outsiders sent it, and total supply is what it was at deployment |
| RoundRuns.NetPayments | contracts/round/src/lib.rs:356-396 | Over the whole life of a round every address has paid exactly what the auction says: Settled - the winner the winning bid, everybody else nothing, the operator minus the winning bid, also when the operator bids or wins; Voided - nothing; not ended - the escrow that stands; an ended round has nothing left in the contract |
| RealBalances.BalancesExplained | contracts/round/src/lib.rs:161-180 | Over any run from deployment every account's token balance is its initial one plus what it received from outsiders minus its net payments into all rounds together, so the recorded transfers of the rounds are the real ones |
| RealBalances.BalanceStep | contracts/round/src/lib.rs:161-180 | The same for one call |
| RoundRuns.SettleAlwaysOpen | contracts/round/src/lib.rs:356-396 | In every reachable state `settle` is accepted if and only if the round is Cleared, so no transfer in it can fail for lack of funds, and it leaves the round Settled with nothing held |
| RoundRuns.VoidAlwaysOpen | contracts/round/src/lib.rs:401-416 | `void` is accepted if and only if the round is Open and the ledger is past `reveal_deadline` + 3600 in exact arithmetic; it traps if and only if the round is Open and that sum does not fit 64 bits; accepted, it pays everything back |
| RoundProgress.VoidEverPossible | contracts/round/src/lib.rs:401-416 | An open round can ever be voided, by some continuation of calls, if and only if `reveal_deadline` + 3600 is below the largest ledger time |
| RoundProgress.NeverVoided | contracts/round/src/lib.rs:401-416 | With a later deadline no list of calls leads to a state where `void` is accepted |
| RoundProgress.UnvoidableRound | contracts/round/src/lib.rs:401-408 | Such rounds exist: a run from deployment creates one, voiding it traps, and no continuation ever voids it |
| RoundEnd.EndPossible | contracts/round/src/lib.rs:212-416 | For every status: some continuation of calls leaves the round Settled or Voided with nothing held if and only if it is decided, or Revealing with a deadline below the largest ledger time, or Open and either deadline plus grace is below that, or a signature opens it and the deadline is |
| RoundEnd.LockedForGood | contracts/round/src/lib.rs:295-302 | A Revealing round whose deadline is the largest ledger time stays Revealing with all its escrow, whatever is called |
| RoundEnd.EscrowLockedForGood | contracts/round/src/lib.rs:69-126 | Such rounds exist: after a run from deployment a bid of 50 is never paid back or out |
| RoundEnd.StaysStuck | contracts/round/src/lib.rs:212-416 | A round that cannot end now cannot after any list of calls |
| RoundRuns.ClearDecides | contracts/round/src/lib.rs:295-351 | `clear` is accepted if and only if the round is Revealing past its deadline; it voids with all escrow back exactly when there is no valid revealed bid, and otherwise names the first bidder whose value is the greatest - the least, under LowestBid - and moves no money |
| RoundCalls.CreateAnswers | contracts/round/src/lib.rs:69-126 | When a creation is accepted - R not 0, auditor key at most 1024 bytes, commit deadline ahead and strictly before genesis + period * R, which is strictly before the reveal deadline, in exact arithmetic - and which error it gives otherwise; accepted, it puts an Open round with exactly the given terms, no bidder, bid, seal, transfer or winner under the next number and changes nothing else |
| RoundCalls.RoundsAsCreated | contracts/round/src/lib.rs:106-118 | In any run from deployment every round carries the terms given to the accepted call that created it, and that call gave it its number |
| RoundCalls.CommitLeaves | contracts/round/src/lib.rs:166-201 | An accepted commit, first or overwriting, stores the new bid and the new seal, puts the bidder at the end of the index only if not there, exchanges the old escrow for the new one, and leaves every other bid, seal, place and balance as it was |
| RoundCalls.CommitAnswers | contracts/round/src/lib.rs:135-206 | Which answer a commit gets in which case: accepted, or each error under its exact condition |
| RoundCalls.OpenAnswers | contracts/round/src/lib.rs:212-237 | The window opens if and only if the round is Open, past its commit deadline, and the signature is that of beacon R; only the status changes; each error under its exact condition |
| RoundCalls.RevealAnswers | contracts/round/src/lib.rs:242-290 | A reveal is accepted if and only if the round is Revealing within its window and the bid exists, is unrevealed and its commitment is the hash of the opening; it records value, nonce and whether 0 < value <= escrow, nothing else; each error under its exact condition |
| RoundCalls.ClearAnswers | contracts/round/src/lib.rs:295-351 | The answer of `clear` in every case: no candidate bid more than the winning bid and those before the winner strictly less (reversed under LowestBid), nothing else changes; or, without a candidate, every bidder's balance grows by the escrow |
| RoundCalls.SettleAnswers | contracts/round/src/lib.rs:356-396 | Settling changes each account's balance by exactly the escrow it had locked, minus the price if it won, plus the price if it is the operator; marks every bid settled, and changes no other round |
| RoundCalls.VoidAnswers | contracts/round/src/lib.rs:401-416 | Voiding changes each account's balance by exactly the escrow it had locked; each error under its exact condition |
| RoundCalls.PageAnswers | contracts/round/src/lib.rs:447-477 | A page holds the index from the cursor on, at most `limit` and at most to the end; the next cursor is where it stops, or 0 at the end; limits from 1 to 100 are accepted |
| RoundRuns.RunKeeps | contracts/round/src/lib.rs:69-416 | Every call from a state in order leads to a state in order: rounds numbered from 1, each satisfying its invariant, balance equal to debts plus donations, supply unchanged |
| RoundRuns.StepKeeps | contracts/round/src/lib.rs:69-416 | The same for one call, whichever it is |
| RoundRuns.RoundCallKeeps | contracts/round/src/lib.rs:135-416 | Each entry point on a round keeps the round's invariant (timing, index, bids, outcome, accounts), and its recorded transfers explain every balance change |
| RoundRuns.Covered | contracts/round/src/lib.rs:484-500 | The shared balance covers what each single round owes |
| RoundProgress.RoundsOnlyAdvance | contracts/round/src/lib.rs:212-237 | At any two moments of a run the later one shows each round further on: terms fixed, status never backward, index only growing, commitments, escrows and index frozen once Revealing, reveals frozen once decided, everything but seals frozen once ended; and commit deadline < genesis + period * R < reveal deadline in exact arithmetic although the contract saturates |
| RoundProgress.CommitAccepted | contracts/round/src/lib.rs:135-206 | The exact condition for a commit to be accepted - status, deadline, sizes, room in the index, funds counting the escrow an overwritten bid frees - and that acceptance implies ledger time before the beacon of round R |
| RoundProgress.SealedBidStands | contracts/round/src/lib.rs:135-290 | Unless its own bidder overwrites it, an accepted bid keeps its commitment and escrow through any calls, and its opening is accepted from anybody exactly while the round is Revealing, the deadline not passed and the bid unrevealed; recorded, it counts for clearing if and only if the value is positive and covered by the escrow |
| RoundCalls.CommittedSealStands | contracts/round/src/lib.rs:191-200 | Until its bidder overwrites it, the stored seal is the one of the accepted commit, and it is gone if and only if it expired |
| SealedAuction.CommittedBidIsRecorded | services/keeper/src/keeper.ts:163-217 | From commit to record: a bid whose ciphertext opens its commitment, not overwritten and not expired, is recorded with that value and nonce by any fault-free keeper pass inside the window, whatever was called in between, and counts exactly if the value is positive and covered |
| SealedAuction.AuctionDecides | contracts/round/src/lib.rs:295-351 | The whole auction: after one fault-free pass over good seals, whatever anybody calls, an accepted `clear` names the first of the best sealed values that are positive and covered at exactly that price, or gives everything back exactly when there is none |
| SealedAuction.PassRecords | services/keeper/src/keeper.ts:163-217 | A fault-free pass inside the window records every seal that opens its commitment, with the value and nonce in it |
| SealedAuction.RevealedBidsFrozen | contracts/round/src/lib.rs:242-261 | Once every bid is revealed, no list of calls changes who bid, what was revealed and what counts |
| SealedAuction.OpensToPreimage | packages/tlock/src/commitment.ts:44-67 | A ciphertext opens to a value and nonce if and only if it decrypts to the bytes whose hash is their commitment |
| RoundProgress.RunKeepsBid | contracts/round/src/lib.rs:135-416 | No call but a commit by the same bidder on the same round changes a bid's commitment or escrow |
| RoundProgress.StepGrows | contracts/round/src/lib.rs:135-416 | One call moves every round only forward |
| RoundProgress.RoundCallLater | contracts/round/src/lib.rs:135-416 | Each entry point moves its own round only forward |
| RoundInvariant.CreateKeeps | contracts/round/src/drand.rs:60-64 | A round that `create_round` accepts has its commit deadline before, and its reveal deadline after, the exact time of beacon R, in spite of saturating arithmetic |
| RoundInvariant.CommitKeeps | contracts/round/src/lib.rs:135-206 | A first or overwriting commit keeps the round's invariant and explains every balance change by its transfers |
| RoundInvariant.RevealKeeps | contracts/round/src/lib.rs:242-290 | A recorded reveal opens the stored commitment, and `valid` says exactly that the value is positive and covered by escrow |
| RoundInvariant.ClearKeeps | contracts/round/src/lib.rs:295-351 | Clearing keeps the invariant, whether it names a winner or refunds |
| RoundInvariant.SettleKeeps | contracts/round/src/lib.rs:356-396 | Settling a Cleared round succeeds, keeps the invariant and leaves nothing held, also when the operator is a bidder |
| RoundInvariant.RefundKeeps | contracts/round/src/lib.rs:484-500 | Refunding a round without valid bids succeeds, keeps the invariant and leaves nothing held |
| Accounts.PayoutLoop | contracts/round/src/lib.rs:367-386 | After the first n bidders of the settlement loop exactly they are marked settled, each account has received exactly its share, and the rest is still funded |
| Accounts.RefundLoop | contracts/round/src/lib.rs:491-499 | The refund loop pays what the settlement loop would pay if nobody had won |
| Clearing.LeaderIsTheWinner | contracts/round/src/lib.rs:304-333 | The selection loop finds (a, value) if and only if a is the first in the index of those valid revealed bidders whose value no other exceeds - goes below, when the lowest bid wins - compared as integers; and finds nobody if and only if there is none |
| Clearing.LeaderWins | contracts/round/src/lib.rs:308-333 | Over any prefix of the index no candidate's value is above the leader's, and those before the leader are strictly below; the other way round when the lowest bid wins |
| RevealOrder.RevealsConfluent | contracts/round/src/lib.rs:242-290 | Two lists of reveal attempts with the same openings - any order, repetitions, submitters, wrong ones included - inside the window and without hash collisions among them leave the same round, hence the same outcome of `clear` |
| RevealOrder.PermutedReveals | contracts/round/src/lib.rs:242-290 | In particular for any permutation |
| RevealOrder.TryAllOutcome | contracts/round/src/lib.rs:258-283 | What a list of attempts leaves, described without order: each bid kept if revealed, opened by any attempt that fits, otherwise untouched |
| RevealOrder.RevealIsTry | contracts/round/src/lib.rs:242-290 | A reveal call is one such attempt and touches nothing but its own round |
| RevealOrder.RunIsTryAll | contracts/round/src/lib.rs:242-290 | A run that submits attempts one by one at their times does to the round what the list of attempts says and touches nothing else |
| RevealOrder.RunsConfluent | contracts/round/src/lib.rs:242-290 | Two such runs with the same openings end in the same state, up to the time of the last attempt |
| Token.TransferKeepsSupply | contracts/round/src/lib.rs:161-180 | A transfer moves value between two accounts, possibly the same, and keeps total supply |
| RoundContract.Contract.CreateRound | contracts/round/src/lib.rs:69-126 | The entry point does exactly what the function does that `RoundCalls.CreateAnswers` pins down: same errors, numbered rounds, the given terms stored, nothing changed on refusal |
| RoundContract.Contract.Commit | contracts/round/src/lib.rs:135-206 | The entry point does exactly what the function does that `RoundCalls.CommitLeaves` pins down, with refund of the overwritten escrow before the new lock and rollback when either transfer is refused |
| RoundContract.Contract.Relock | contracts/round/src/lib.rs:161-180 | The two transfers of a commit happen both or not at all |
| RoundContract.Contract.OpenReveal | contracts/round/src/lib.rs:212-237 | Does exactly what its specification says, or refuses and changes nothing |
| RoundContract.Contract.Reveal | contracts/round/src/lib.rs:242-290 | Does exactly what its specification says, or refuses and changes nothing |
| RoundContract.Contract.PickWinner | contracts/round/src/lib.rs:304-333 | The loop over `winner`, `best` and `found` computes the leader, which `Clearing.LeaderIsTheWinner` describes by integer comparison |
| RoundContract.Contract.Clear | contracts/round/src/lib.rs:295-351 | Does what `RoundCalls.ClearAnswers` says of the specification, an aborted refund included; the returned winner is the stored one, none means Voided |
| RoundContract.Contract.Settle | contracts/round/src/lib.rs:356-396 | Does exactly what its specification says; a refused transfer would abort the call and undo everything |
| RoundContract.Contract.PayEveryone | contracts/round/src/lib.rs:367-386 | The settlement loop pays everyone once, in index order, and fails exactly when some transfer of it is refused |
| RoundContract.Contract.RefundAll | contracts/round/src/lib.rs:484-500 | The refund loop pays every escrow back once, in index order, and fails exactly when some transfer of it is refused |
| RoundContract.Contract.VoidAndRefund | contracts/round/src/lib.rs:335-341 | The round is Voided and everybody refunded, or nothing changes |
| RoundContract.Contract.Void | contracts/round/src/lib.rs:401-416 | Does exactly what its specification says, including the trap on overflow |
| RoundContract.Contract.GetBiddersPage | contracts/round/src/lib.rs:441-468 | The page from `cursor`, next cursor 0 exactly at the end; in a valid contract `start + limit` is at most 600, so it cannot overflow 32 bits |
| RoundContract.Contract.StaysValid | contracts/round/src/lib.rs:69-416 | Whatever entry point was called, the object invariant holds again |
| Token.Ledger.Transfer | contracts/round/src/lib.rs:164-180 | The token moves the amount, or refuses a short payer and changes nothing |
| Sdk.Client.Bidders | packages/sdk/src/client.ts:515-523 | The paging generator ends, and yields without repetition exactly the index as the last page saw it, which contains everybody present at the start, while others commit between pages |
| Sdk.Client.constructor | packages/sdk/src/client.ts:141-189 | A client on a chain in order, with a beacon whose signatures the contract accepts, satisfies what every client method relies on |
| Sdk.Client.GetBiddersPage | packages/sdk/src/client.ts:500-511 | One page as of the moment it is read |
| Sdk.Client.GetRound | packages/sdk/src/client.ts:475-478 | The round as of the moment it is read; a round seen ended is remembered as ended for good |
| Sdk.Client.GetBidState | packages/sdk/src/client.ts:480-489 | The bid as of the moment it is read |
| Sdk.Client.Send | packages/sdk/src/client.ts:334-360 | A call is executed in some later state, atomically; success means it took effect there, a typed error means it changed nothing, a lost reply means either |
| Keeper.WaitForRound | services/keeper/src/keeper.ts:85-101 | For any round number: ends, and answers true exactly when the keeper's clock has reached the publication time of R; it fails only after a lost request or when its clock runs out |
| Keeper.FetchWithRetry | services/keeper/src/keeper.ts:129-144 | Up to five attempts; without faults the signature exactly when the beacon serves it |
| Keeper.OpenPhase | services/keeper/src/keeper.ts:117-161 | Without faults the window opens exactly when R is out; otherwise nothing changes; unless a request was lost, it throws only while the round is still Open, never because somebody else opened it |
| Keeper.ReadBid | services/keeper/src/keeper.ts:170-196 | The opening in a pending bid's seal, or a reason to skip; only a failed seal read is an exception, and only after a lost request |
| Keeper.RevealOne | services/keeper/src/keeper.ts:169-217 | One bidder: reported as revealed exactly when that reveal landed; without faults the report is exact - already revealed, seal gone, not decryptable, window over, revealed, or not fitting the commitment - and the bid changes exactly if its seal opens its commitment; unless a request was lost, it throws only if the round is no longer Revealing |
| Keeper.RevealPhase | services/keeper/src/keeper.ts:163-219 | Under any interference the reported bidders are those whose reveals landed, in order, and every bidder present at the start is reported; without faults the round after is the round before with every readable seal recorded |
| Keeper.KeepRound | services/keeper/src/keeper.ts:104-227 | The calls landed are those reported; a reported end is real; without faults the round is opened when due and every readable seal is revealed, and nothing else changes |
| Keeper.PassContinues | services/keeper/src/keeper.ts:168-217 | Revealing one more bidder takes the pass one position further |
| Keeper.ClearPhase | services/keeper/src/keeper.ts:263-289 | Clears exactly when the reveal window is over on the keeper's clock; without faults the call is accepted; unless a request was lost, it throws only if somebody else has decided the round meanwhile |
| Keeper.SettleGuarded | services/keeper/src/keeper.ts:291-334 | Settles at most once through the guard; reports a settlement exactly when one landed; every terminal mark stands for a round that has ended; it throws only after a lost request, whoever else settles |
| Keeper.RefusedSettlement | services/keeper/src/keeper.ts:303-306 | When a settlement is refused as already done after the round was seen Cleared, the round is indeed Settled |
| Keeper.CloseRound | services/keeper/src/keeper.ts:243-345 | The calls landed are exactly those reported as cleared and settled, and status and winner reported are those of the chain; without faults a round whose window is over ends and holds nothing |
| Keeper.VoidIfStale | services/keeper/src/keeper.ts:358-400 | Voids exactly an Open round past its grace period on the keeper's clock; what it reports is what landed; it throws only for an unknown round or after a lost request, whoever else opens or voids |
| Keeper.WatchRound | services/keeper/src/keeper.ts:457-486 | One tick: under any interference the calls that landed are exactly those it reports, in order, a reported end is real and no guard entry is left submitted; without faults an overdue round - R served and the window over, or the grace period over, or cleared, or ended - is Settled or Voided with nothing held, other rounds are untouched, and however long the tick takes the first call that lands is the predicted one, whenever no deadline the prediction depends on passes during the tick; and unless a request was lost it never throws while the round is Revealing |
| Races.LostRace | services/keeper/src/keeper.ts:263-289 | A call that somebody else got accepted before is refused, whatever happened in between; the keeper goes on exactly after opening, settling and voiding, and after a reveal while the round is still Revealing - a lost `clear` is answered RevealNotOpen, which it does not expect, and throws |
| KeeperSpec.TickFinishesOverdue | services/keeper/src/keeper.ts:457-486 | The stages of a fault-free tick, chained, end any overdue round and leave nothing of it in the contract |
| KeeperSpec.TickStartsAsPredicted | services/keeper/src/keeper.ts:457-486 | However much time passes, the first call of a tick is the one a function of chain, clock and beacon at its start predicts, whenever no deadline of the round passes meanwhile: for an Open round its grace period and, if the beacon serves R, the publication of R until the round has been kept, for a Revealing round the reveal deadline. A sufficient condition for one tick; the exact one for all ticks is in `SafePrediction.PredictionSafe` |
| KeeperSpec.ForeseeableIsUncrossed | services/keeper/src/keeper.ts:263-269 | When the deadlines of a round that still matter are past, or lie beyond the last second of ledger time, none is left to pass in a tick of any length |
| KeeperSpec.FirstMoveSteady | services/keeper/src/keeper.ts:358-384 | The prediction is the same at a later moment if no deadline passed in between |
| KeeperSpec.PassRecordsSealedValues | services/keeper/src/keeper.ts:163-217 | After a fault-free pass every bid whose seal opens its commitment carries exactly the sealed value and nonce, and every other bid is as before, so a corrupt seal blocks nobody |
| KeeperSpec.PassTwice | services/keeper/src/keeper.ts:163-217 | A second pass lands no call and changes nothing |
| KeeperSpec.KeptTwice | services/keeper/src/keeper.ts:104-227 | Two whole passes in a row over a round whose window stays open: the second lands no call and changes nothing but the time |
| DryRun.PredictionExact | services/keeper/src/dry-run.ts:111-157 | For every status, time and reveal count the phase tells the first call of a tick that starts now: void, clear and settle named outright; open if and only if R is out; reveal if and only if the ledger window is still open and some pending seal opens its commitment; none otherwise |
| DryRun.PredictThenTick | services/keeper/src/dry-run.ts:174-204 | A dry run followed by a fault-free tick: what was announced is what lands first, whenever no deadline passes between the start of the one and the end of the other; and without any condition on time when the round is foreseeable, which can be checked beforehand |
| SafePrediction.PredictionSafe | services/keeper/src/dry-run.ts:111-157 | The exact condition: a prediction made now holds for every tick that may follow, however slow, if and only if the round is foreseeable - Open past grace, Revealing past its deadline, or decided; or with that deadline beyond ledger time and, if Open, R not still to come from a beacon that will serve it |
| SafePrediction.MisledTick | services/keeper/src/dry-run.ts:118-130 | Otherwise some tick starts with another call: it comes late enough to void, to open or to clear |
| DryRun.Summarize | services/keeper/src/dry-run.ts:174-204 | The dry run sends nothing, and without faults announces what a tick starting at its own start would do |
| DryRun.CountRevealedBids | services/keeper/src/dry-run.ts:159-172 | One failed read makes the count unknown; without faults it is the number of revealed bids |
| DryRun.CrossingMatters | services/keeper/src/dry-run.ts:118-126 | The condition on deadlines is needed: on a chain reached from deployment, a tick that starts one second before R is due and is kept at that second opens the window although nothing was announced |
| DryRun.RevealingWithoutReveal | services/keeper/src/dry-run.ts:131-140 | The condition on "revealing" is needed: in a four-call run from deployment the pending bid has a seal that decrypts to nothing, "revealing" is announced and no reveal follows |
| DryRun.AllCounted | services/keeper/src/dry-run.ts:159-172 | The reveal count equals the number of bidders if and only if every one of them has revealed |
| SettlementGuard.Guard.CanSettle | services/keeper/src/settlement-guard.ts:100-114 | Allowed if and only if the entry is pending or absent; other entries untouched |
| SettlementGuard.Guard.MarkSubmitted | services/keeper/src/settlement-guard.ts:116-121 | Exactly this entry becomes submitted |
| SettlementGuard.Guard.MarkTerminal | services/keeper/src/settlement-guard.ts:123-128 | Exactly this entry becomes terminal, with its reason |
| SettlementGuard.Guard.MarkRetryable | services/keeper/src/settlement-guard.ts:130-137 | Exactly this entry becomes pending again, whatever it was |
| KeeperStore.Store.AddRound | services/keeper/src/store.ts:66-83 | A new round starts with no known status, no retries and the given fields; a known one takes the given fields, any subset, and keeps the others |
| KeeperStore.Store.RemoveRound | services/keeper/src/store.ts:85-91 | Exactly this round is dropped |
| KeeperStore.Store.UpdateRound | services/keeper/src/store.ts:93-99 | Exactly the given fields, any subset of them, of exactly this round change; a field may be given as absent; an unknown round is ignored |
| KeeperStore.MergedOne | services/keeper/src/store.ts:93-99 | A change of one field replaces that field and keeps all others |
| KeeperStore.Store.ListRounds | services/keeper/src/store.ts:105-112 | All stored rounds, in increasing order of id |
| WatchLoop.TickRound | services/keeper/src/watch-loop.ts:101-149 | After a tick, failed or not, no guard entry is submitted, and every terminal entry and every stored end belongs to a round that has ended on chain; after a fault-free tick the stored status is the chain's, the retry count 0, and the stored action says which calls landed |
| WatchLoop.RecordTick | services/keeper/src/watch-loop.ts:110-149 | Exactly what the loop writes after a tick, or after an exception: the one guard entry - terminal if the tick settled or the round was voided, pending if it threw, otherwise untouched - and status, retry count, error and last action in the store; and that this keeps guard and store in step with the chain |
| WatchLoop.SummaryNotes | services/keeper/src/watch-loop.ts:116-135 | The noted action says exactly which calls of the tick took effect and how many bids were revealed, and a tick is noted as idle exactly if none did |
| WatchLoop.ActiveRounds | services/keeper/src/watch-loop.ts:90-95 | Exactly the stored rounds with this contract or none, this network or none, and a status neither Settled nor Voided, each once |
| WatchLoop.PollCycle | services/keeper/src/watch-loop.ts:78-152 | Whatever fails, guard and store stay in step, so no live round is suppressed or dropped; a fault-free cycle that is not interrupted finishes every overdue round it watches |
| WatchLoop.RunWatchLoop | services/keeper/src/watch-loop.ts:63-157 | The same after any number of cycles, failed listings and interruptions included; and however many cycles were faulty, one fault-free cycle that is not interrupted leaves every round stored as ours that was overdue at the start Settled or Voided with nothing held |
| WatchLoop.StartKeeper | services/keeper/src/store.ts:23-51 | A new client on a chain in order, a store with what an earlier run saved about rounds that ended since, and an empty guard are in step, which is where the loop starts |
| WatchLoop.SavedIsSound | services/keeper/src/store.ts:53-64 | What the loop leaves in the store satisfies what the next start asks of it, also when the chain has moved on |
| Commitment.DecodeEncode | packages/tlock/src/commitment.ts:44-67 | Decoding undoes encoding for every i128 value and 32-byte nonce |
| Commitment.EncodeDecode | packages/tlock/src/commitment.ts:44-67 | Every 48-byte string decodes, to a value in range, and encoding gives the string back |
| Commitment.EncodeInjective | packages/tlock/src/commitment.ts:42-52 | Different bids have different preimages |
| Commitment.ValueRoundTrip | packages/tlock/src/commitment.ts:18-40 | Reading the 16 bytes of a value gives the value |
| Commitment.BytesRoundTrip | packages/tlock/src/commitment.ts:18-40 | Any 16 bytes are the bytes of the value they denote, which is in range |
| Commitment.I128ToBeBytes | packages/tlock/src/commitment.ts:19-30 | Fails exactly outside i128; otherwise 16 bytes of big-endian two's complement denoting the value |
| Commitment.BeBytesToI128 | packages/tlock/src/commitment.ts:33-40 | Fails exactly on other than 16 bytes; otherwise the in-range value whose bytes these are |
| Commitment.EncodeBidPreimage | packages/tlock/src/commitment.ts:44-52 | Fails exactly on a bad nonce length or an out-of-range value, in that order; otherwise 48 bytes that decode to the same bid |
| Commitment.FromHex | packages/tlock/src/commitment.ts:88-96 | Fails exactly on odd length, in UTF-16 units, after dropping a 0x prefix and lower-casing; otherwise pair by pair what `parseInt` stores, malformed pairs with blanks and signs included |
| Commitment.HexRoundTrip | packages/tlock/src/commitment.ts:82-96 | `fromHex` undoes `toHex` for every byte string |
| Commitment.PreimageBytes | packages/tlock/src/commitment.ts:44-51 | Byte k of the preimage: the sixteen bytes of the value in two's complement, most significant first, then the 32 bytes of the nonce |
| Commitment.HexTextAt | packages/tlock/src/commitment.ts:82-85 | Each byte becomes two lower-case hexadecimal digits, the higher half first |
| Commitment.WellFormedHex | packages/tlock/src/commitment.ts:88-96 | Text of hexadecimal digits in either case, with or without 0x, is read digit by digit |
| ReceiptExport.ExportVerifies | packages/sdk/src/client.ts:548-603 | A receipt of any round of any reachable state never throws in the verifier; it is free of errors if and only if every bidder is an account address and no stored seal has an empty part; for Cleared and Settled rounds the recomputed winner and value are the contract's own, for Voided none |
| ReceiptExport.EmptyBlobIsRefused | packages/sdk/src/verify.ts:239-252 | The condition is needed: a two-call run from deployment whose open round gives a receipt that the verifier refuses, because the contract takes an empty auditor blob and its hex text is empty |
| ReceiptExport.ExportReceipt | packages/sdk/src/client.ts:548-603 | Read piece by piece while anybody acts, the receipt still never throws and has no error but address kind and empty evidence, and once the round was decided it recomputes the contract's winner; undisturbed it is the receipt of one instant |
| ReceiptExport.ReadEntry | packages/sdk/src/client.ts:562-588 | One entry: a genuine condition of the bid, with the final claim once the round was decided |
| ReceiptExport.FoldRefinesClear | packages/sdk/src/verify.ts:128-211 | The verifier's fold over the entries computes what the contract's loop computes over the bids |
| ReceiptExport.DecidedWinner | packages/sdk/src/verify.ts:128-237 | For a decided round the fold gives exactly the stored outcome |
| ReceiptExport.GenuineReceipt | packages/sdk/src/verify.ts:52-252 | A receipt made of genuine entries fails only on site, address kind or evidence |
| ReceiptExport.HexText | packages/tlock/src/commitment.ts:82-96 | Exported bytes come back from their text: twice as long, all hexadecimal digits, lower case, read by `fromHex` as the same bytes |
| ReceiptExport.ShownBid | packages/sdk/src/client.ts:560-583 | Read back, the parts of an exported entry are commitment, escrow, value, nonce, flags and seal of the bid |
| ReceiptExport.ShownRound | packages/sdk/src/client.ts:585-604 | An exported receipt shows the round's own id, rule, status, index, winner and price, and the configured network and contract |
| Receipt.VerifyReceipt | packages/sdk/src/verify.ts:52-260 | Throws exactly when a value outside i128 is to be hashed; otherwise valid if and only if the receipt meets an independent list of conditions, and the recomputed winner is the first of the highest claims - of the lowest, with any rule but HighestBid - by integer comparison |
| Receipt.RecomputedIsBest | packages/sdk/src/verify.ts:189-201 | The fold over the entries yields a winner if and only if that is the first of the best claims, compared as integers, and none if and only if nobody claims |
| ReceiptTamper.HeaderBound | packages/sdk/src/verify.ts:64-100 | Of a receipt without errors: replacing the version, network, fingerprint or contract id leaves it so if and only if the version is 1, the network has the same fingerprint, the fingerprint is the same, the id starts with C; a garbled round id or rule never does |
| ReceiptTamper.WinnerBound | packages/sdk/src/verify.ts:214-238 | Another declared winner passes if and only if nobody claims to win, or it is the first of the best claims, or none is declared |
| ReceiptTamper.ListsBound | packages/sdk/src/verify.ts:103-125 | No bidder and no entry can be dropped, added or repeated on its own without an error |
| ReceiptTamper.ShapeBound | packages/sdk/src/verify.ts:134-211 | In a receipt without errors every commitment is 64 hexadecimal digits, escrows are not negative, a nonce of 32 bytes stands only beside a value, and present evidence is non-empty hexadecimal text |
| ReceiptTamper.OpeningBound | packages/sdk/src/verify.ts:148-178 | Two different openings for the same commitment that both pass are a collision of the hash |
| ReceiptTamper.CommitmentBound | packages/sdk/src/verify.ts:148-178 | The commitment of an opened bid cannot be changed but for the case of its digits |
| ReceiptTamper.EscrowNotBound | packages/sdk/src/verify.ts:140-144 | The verifier does not bind the escrow: another amount passes if and only if it is not negative |
| Receipt.CheckHeader | packages/sdk/src/verify.ts:67-95 | An error if and only if network, fingerprint, contract id, round id or rule is wrong; an odd status only warns |
| Receipt.CheckBidders | packages/sdk/src/verify.ts:104-113 | An error if and only if some bidder is not an account address or appears twice |
| Receipt.CheckKeys | packages/sdk/src/verify.ts:115-126 | An error if and only if the list of bidders and the bid entries do not match |
| Receipt.CheckEntry | packages/sdk/src/verify.ts:137-210 | An error if and only if the entry is malformed or its opening does not hash to its commitment; the claim to the win survives exactly if the entry is not skipped |
| Receipt.CheckEntries | packages/sdk/src/verify.ts:128-211 | The loop over all entries: exactly their errors, and the fold that `Receipt.RecomputedIsBest` describes |
| Receipt.CheckWinner | packages/sdk/src/verify.ts:213-237 | An error if and only if both winners are there and differ; one-sided winners only warn |
| Receipt.CheckEvidence | packages/sdk/src/verify.ts:239-252 | An error if and only if some present evidence text is not non-empty hexadecimal |
| PassportTheorems.ValidityIsHistory | contracts/passport/src/lib.rs:427-459 | After any run of requests and at any time a credential verifies as valid if and only if, in the history of accepted operations, it was issued with this hash and an expiry not reached, the last status operation on it is an issue or reactivation, and the last operation on its issuer is a registration or reactivation |
| PassportTheorems.RevokedForever | contracts/passport/src/lib.rs:309-340 | After an accepted revocation it never verifies as valid again, whatever follows |
| PassportTheorems.LearnerIndex | contracts/passport/src/storage.rs:93-112 | Each learner's list holds without repetition, in order of issue, exactly the ids of credentials with that recipient; a reason is stored exactly when the status is not Active |
| PassportAnswers.RevokeAnswers | contracts/passport/src/lib.rs:309-339 | In every reachable store: revoking is accepted if and only if the caller signed, issued the credential or is the administrator of the moment, and no revocation of it was ever accepted - a suspended credential can be revoked; the record then differs in status and reason only; each refusal with its error |
| PassportAnswers.SuspendAnswers | contracts/passport/src/lib.rs:342-372 | The same for suspending |
| PassportAnswers.ReactivateAnswers | contracts/passport/src/lib.rs:375-404 | The same for reactivating, which needs the last accepted operation on the credential to be a suspension |
| PassportAnswers.IssueAnswers | contracts/passport/src/lib.rs:199-250 | Issuing is accepted if and only if a signed issuer in office uses an id never issued, with an expiry still ahead; stored with every field as given, active, and last in the learner's list; each refusal with its error |
| PassportAnswers.RegisterAnswers | contracts/passport/src/lib.rs:56-85 | Registering is accepted if and only if the administrator signed and the issuer was never registered; stored active, with the given name and address; each refusal with its error |
| PassportAnswers.SwitchAnswers | contracts/passport/src/lib.rs:114-145 | Deauthorizing and reactivating an issuer is accepted if and only if the administrator signed and the issuer was ever registered; only the switch changes; each refusal with its error |
| PassportAnswers.UpdateAnswers | contracts/passport/src/lib.rs:88-111 | An issuer in office that signed may change its name and address, nothing else; each refusal with its error |
| PassportAnswers.AdminAnswers | contracts/passport/src/lib.rs:21-48 | The first administrator signs for itself, once; afterwards only the present one names the next; each refusal with its error |
| PassportAnswers.VerifyAnswers | contracts/passport/src/lib.rs:427-460 | Every part of a verification from the history: issuer, recipient, hash and times from the operation that issued it, status from whether it was ever revoked or is under suspension, validity from all of them |
| PassportTheorems.OnlyTheEntitled | contracts/passport/src/lib.rs:199-405 | In any run, credentials were issued only by issuers in office at that moment, and revoked, suspended or reactivated only by their issuer or the administrator of that moment |
| PassportTheorems.BatchIsSingles | contracts/passport/src/lib.rs:253-306 | A batch gives the same new store or the same error as issuing its items one by one, if and only if it is not empty or the issuer signed and is in office |
| PassportTheorems.EmptyBatchRefused | contracts/passport/src/lib.rs:258-262 | The condition is needed: an empty batch of an unknown issuer is refused, although there is nothing to issue |
| PassportTheorems.BatchAccepted | contracts/passport/src/lib.rs:253-306 | A batch is accepted if and only if it is signed by an issuer in office, no id is taken or repeated inside it and no expiry is reached; then every item is issued, in order |
| PassportTheorems.LoopIsSingles | contracts/passport/src/lib.rs:267-303 | The batch loop is the sequence of single issues as long as the issuer may issue |
| PassportHistory.RunMirrors | contracts/passport/src/lib.rs:21-405 | In every reachable state credentials, issuers and learner lists are what the history says, ids are issued once, and nothing follows a revocation |
| PassportHistory.StepMirrors | contracts/passport/src/lib.rs:21-405 | Every request keeps that |
| PassportHistory.IssueKeeps | contracts/passport/src/lib.rs:199-250 | Issuing keeps that |
| PassportHistory.StatusKeeps | contracts/passport/src/lib.rs:309-404 | Revoking, suspending and reactivating keep that |
| PassportHistory.IssuerKeeps | contracts/passport/src/lib.rs:56-143 | Registering, updating, deauthorizing and reactivating an issuer keep that |
| PassportContract.Registry.Initialize | contracts/passport/src/lib.rs:21-34 | Does exactly what its specification says, or refuses and changes nothing |
| PassportContract.Registry.SetAdmin | contracts/passport/src/lib.rs:37-48 | Does exactly what its specification says, or refuses and changes nothing |
| PassportContract.Registry.RegisterIssuer | contracts/passport/src/lib.rs:56-85 | Does exactly what its specification says, or refuses and changes nothing |
| PassportContract.Registry.UpdateIssuerMetadata | contracts/passport/src/lib.rs:88-111 | Does exactly what its specification says; whether the issuer is in office is not touched |
| PassportContract.Registry.DeauthorizeIssuer | contracts/passport/src/lib.rs:114-128 | Does exactly what its specification says, or refuses and changes nothing |
| PassportContract.Registry.ReactivateIssuer | contracts/passport/src/lib.rs:131-145 | Does exactly what its specification says, or refuses and changes nothing |
| PassportContract.Registry.IssueCredential | contracts/passport/src/lib.rs:199-250 | Does exactly what its specification says, or refuses and changes nothing |
| PassportContract.Registry.BatchIssueCredentials | contracts/passport/src/lib.rs:253-306 | The storage loop answers what issuing the items one by one would, counts them, and leaves everything as it was when it refuses, also for an id repeated inside the batch |
| PassportContract.Registry.AddLearnerCredential | contracts/passport/src/storage.rs:106-112 | The id goes to the end of exactly this learner's list |
| PassportContract.Registry.RevokeCredential | contracts/passport/src/lib.rs:309-339 | Does what `PassportAnswers.RevokeAnswers` says of the specification, or refuses and changes nothing |
| PassportContract.Registry.SuspendCredential | contracts/passport/src/lib.rs:342-372 | Does exactly what its specification says, or refuses and changes nothing |
| PassportContract.Registry.ReactivateCredential | contracts/passport/src/lib.rs:375-404 | Does exactly what its specification says, or refuses and changes nothing |
| PassportContract.Registry.VerifyCredential | contracts/passport/src/lib.rs:427-459 | Computes the specified answer, which on a store that mirrors its history is valid if and only if the history says so |
| PassportContract.Registry.StaysMirrored | contracts/passport/src/lib.rs:21-405 | Whatever entry point was called, the store still mirrors its history |
| CanonicalJson.CanonicalIffEquivalent | services/agent/src/mandate.ts:53-63 | Two values print alike if and only if they are equal up to key order, undefined fields and the difference between null, a non-finite number and an undefined item |
| CanonicalJson.CanonicalIsInjective | services/appraisal-api/src/appraisal.ts:65-75 | On values without non-finite numbers and undefined items the printer is injective up to key order and undefined fields, and independent of both |
| CanonicalJson.NothingsCollide | services/agent/src/mandate.ts:62-62 | The restriction is needed: [undefined] and [null] print alike, and so do NaN, Infinity and null |
| CanonicalJson.ReadBack | services/agent/src/mandate.ts:53-63 | Unique readability: at the head of any text, followed by nothing or a delimiter, at most one value can stand, and what follows is determined |
| CanonicalJson.EquivalentPrintsAlike | services/agent/src/mandate.ts:53-63 | Equivalent values print alike, whatever the order of their keys |
| CanonicalJson.ItemsReadBack | services/agent/src/mandate.ts:54-54 | Printed array items are readable up to the closing bracket |
| CanonicalJson.FieldsReadBack | services/agent/src/mandate.ts:56-60 | Printed object entries are readable up to the closing brace |
| CanonicalJson.EntriesMembers | services/agent/src/mandate.ts:57-58 | Filtering and sorting loses no defined entry and invents none |
| CanonicalJson.EntriesAscending | services/agent/src/mandate.ts:58-58 | Of any two printed entries the key of the earlier is a proper beginning of the later one's, or has the smaller code unit where they first differ |
| CanonicalJson.BeforeMeans | services/agent/src/mandate.ts:58-58 | The comparison of keys is the order by code units: a proper beginning comes first, otherwise the first difference decides |
| CanonicalText.SignedText | services/agent/src/mandate.ts:24-68 | The whole text a mandate is signed as: an opening brace, the fields by name in the order of their names with quoted texts and bare numbers, the category only if given, separated by commas, a closing brace |
| CanonicalText.ObjectText | services/agent/src/mandate.ts:55-61 | However an object was built, it prints its defined entries in the order of their keys, each as quoted key, colon, value |
| CanonicalText.TwoFieldsText | services/agent/src/mandate.ts:55-61 | Two defined fields, inserted in either order, print with the smaller key first; the whole text is stated |
| CanonicalText.SmallObject | services/agent/src/mandate.ts:55-61 | An object built as b:2, a:1 prints as {"a":1,"b":2} |
| CanonicalText.ArrayText | services/agent/src/mandate.ts:54-54 | An array prints its items in their order between brackets |
| CanonicalText.JoinText | services/agent/src/mandate.ts:54-60 | Parts are separated by single commas |
| CanonicalText.LongEscapes | services/agent/src/mandate.ts:59-62 | Control characters without a short escape and lone surrogates are written as a backslash, u and four lower-case hexadecimal digits (section 7 of RFC 8259) |
| CanonicalText.BodyText | services/agent/src/mandate.ts:59-62 | A string is written unit by unit, a surrogate pair as it is |
| CanonicalJson.SameKeys | services/agent/src/mandate.ts:58-58 | Two ascending lists over the same keys have the same keys in the same places |
| Json.QuoteUnique | services/agent/src/mandate.ts:59-62 | A quoted string (section 7 of RFC 8259, lone surrogates escaped) determines the string and where it ends |
| Json.ReadEscape | services/agent/src/mandate.ts:59-62 | The escape at the head of a text determines the code unit it stands for |
| Json.NumberUnique | services/agent/src/mandate.ts:62-62 | A number token ends where its characters end |
| Mandate.SignatureBindsEveryField | services/agent/src/mandate.ts:24-68 | Two mandate payloads are signed as the same text if and only if they agree in all fifteen fields, including whether a category is given - up to which non-finite number a number is; if the numbers are finite, if and only if they are the same |
| Mandate.OddPricesCollide | services/agent/src/mandate.ts:30-30 | The exception is real: any mandate with price NaN and its copy with price Infinity are different and signed as the same text |
| Mandate.AtomsPrint | services/agent/src/mandate.ts:53-63 | Objects of plain fields written with the same keys print alike exactly when each field shows the same |
| Mandate.KeysDiffer | services/agent/src/mandate.ts:24-45 | The fifteen field names are pairwise different |

## Left out

- BLS12-381 pairing, hash-to-curve, time-lock and auditor encryption: opaque functions of the model.
- Storage time-to-live and archival: a seal may disappear at any moment; other entries never do.
- Transaction building, submission, polling, preflight and relayers: a request returns the contract's typed error, or is lost. Matching errors by substring, and the wrapping at `packages/sdk/src/client.ts:212`, are modelled as membership of the typed error in a set.
- The token is a map of balances with a transfer that refuses a short payer; authorisation of the token, trustlines and the 128-bit width of balances are not modelled.
- `NotInitialized` errors of the round contract: its configuration is set by its constructor.
- Contract events other than the accepted operations of the registry; its template registry and plain record views.
- Drand chain information as fetched by the keeper: taken to agree with the contract's genesis and period.
- The keeper's `Number` conversion of 64-bit values: exact integers in the model.
- `parseRoundIdSpec` and `discoverRoundIds`: the rounds a polling cycle finds are a parameter of it.
- Log texts, `updatedAt`, the guard's duplicate event and the words of the last action, which is kept as its parts; the stored round's own id and its unused `revealRound`.
- File input and output of the keeper store: a start is given what was saved. A store shared by two contract ids, where `addRound` keeps the old status of a round with the same number.
- The wait between polling cycles is one sleep; the time already spent is not subtracted.
- Rounds whose bidders are read with `get_bidders`; the paged index is modelled.
- JSON parsing and serialisation of receipts, their display-only fields (`exportedAt`, `itemRef`, deadlines, operator, auditor key, `hashValid`, artifact checksum) and the missing-list check; decimal texts are already scanned by `BigInt`.
- Lower-casing of non-ASCII letters other than U+0130 in malformed hexadecimal text: none of them is, or becomes, a digit, a blank or a sign.
- `bigint`, functions, symbols, sparse arrays and objects other than plain records as input of `canonical`; the text of a finite number is given, as `Number.prototype.toString` gives it, and two numbers are the same if their texts are.
- SHA-256 and UTF-8 of the canonical text: the theorems are about the text that is hashed.
- Appraisal formula, grant ranking, spending caps and unit conversion: floating point or single comparisons.
- Web interface, HTTP services, payment flow, command-line tools and deployment scripts.
- WatchLoop.RunWatchLoop: a finite number of polling cycles, each ended by a bounded wait.
- KeeperSpec.TickFinishesOverdue: speaks of the stages of a tick; `Keeper.WatchRound` proves that a tick goes through them and states the same of the tick.

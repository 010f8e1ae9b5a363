# Multi-signature wallet: a Dafny model

This project models the multi-signature wallet contract `Counter` of a Rust
smart contract (`src/lib.rs`). The wallet is a shared account controlled by
a registry of owner addresses. Outgoing calls are first submitted to an
append-only ledger of transactions. Owners then confirm them in a confirmation
matrix (transaction index × address → bool). An entry can be executed once its
confirmation count reaches the threshold.

The contract's storage is modelled as one immutable `Wallet` record:

- `owners`: the owner list, in registration order.
- `ownerSet`: the `is_owner` mapping.
- `required`: `num_confirmations_required`.
- `transactions`: the `TxStruct` ledger.
- `confirmed`: the `is_confirmed` matrix.
- `log`: the emitted events.

Both storage mappings are held as the set of keys that read `true`. A storage
mapping reads `false` for a key that was never written, and clearing a cell
stores `false`, so this set representation is exact.

Each external method is a pure function. It takes the wallet before the call
and returns either `Ok(wallet after)` or `Err(failure)`. A failure is either a
`MultiSigError` variant returned by the method or a panic. The host reverts a
failed call, so the wallet before the call stays in force (`Properties.Commit`).
The caller (`msg::sender()`) is a parameter. The outcome of the external call in
`execute_transaction` is a boolean parameter.

The Rust file has no confirm operation. `MultiSig.Confirm` is therefore derived
from the Solidity reference contract that the file carries as a comment
(`confirmTransaction` and its modifiers `onlyOwner`, `txExists`, `notExecuted`,
`notConfirmed`). Its failures use the Rust error variants with the same names.
Its `+= 1` is Solidity's checked addition, which fails with
`ArithmeticOverflow` at 2^256.

The central invariant is `Invariant.Valid`. For every ledger entry, the
`num_confirmations` counter equals the number of true cells in that entry's
row of the matrix. No cell is true beyond the ledger or for a non-owner. The
owner list and the `is_owner` set agree and hold no duplicates and no zero
address. Once owners exist, 1 ≤ threshold ≤ number of owners. Every
operation's contract states that it preserves `Valid`. `Properties.RunKeepsValid`
extends this to any sequence of calls.

The model follows what the Rust code does, not an idealised wallet. Where the
intended design of a multi-signature wallet and the code disagree, the model
follows the code:

- There is no "already initialized" guard. A second `initialize` with fresh
  owners succeeds, appends them and overwrites the threshold
  (`Divergences.SecondInitializeSucceeds`).
- Too few confirmations at execution are reported with the
  `TxAlreadyConfirmed` variant. The Rust error enum has no
  "not enough confirmations" variant.
- `submit_transaction`, `execute_transaction` and `revoke_confirmation` do not
  check that the caller is an owner.
- `revoke_confirmation` does not check that the entry is unexecuted
  (`Divergences.RevokeAfterExecution`).
- The threshold is zero before `initialize`. So an uninitialized wallet
  executes entries with no confirmations (`Divergences.UninitializedWalletExecutes`).
- What a failed external call leaves behind depends on the host; the model's
  convention is stated under "Left out".

## Model

| member | source | states |
|---|---|---|
| Types.DecrementU256 | src/lib.rs:356-357 | the `uint256` decrement of the counter: the result fits in 256 bits, 0 wraps to 2^256−1, and a positive count loses exactly one |
| Matrix.Row | src/lib.rs:226 | the addresses in row i are exactly those whose `is_confirmed[i][a]` cell reads true |
| Matrix.SetCell | src/lib.rs:107 | setting an unset cell adds exactly that address to its row, raises the row's size by one and changes no other cell or row |
| Matrix.ClearCell | src/lib.rs:358-360 | clearing a set cell removes exactly that address from its row, lowers the row's size by one and changes no other cell or row |
| Matrix.ClearUndoesSet | src/lib.rs:358-360 | clearing a cell just set restores the matrix exactly |
| Invariant.RowsBeyondLedgerEmpty | src/lib.rs:226 | when only existing entries have confirmations, every row at or beyond the ledger length is empty |
| Invariant.ConfirmationsBounded | src/lib.rs:98-107 | under the invariant no entry's count exceeds the number of owners |
| Invariant.DeployedValid | src/lib.rs:217-236 | the storage of a fresh deployment satisfies the invariant |
| MultiSig.RegisterOwners | src/lib.rs:293-304 | the registration loop succeeds iff every address is non-zero, not already registered, and not repeated earlier in the list; on success it appends the list in order and registers each address; otherwise it panics at the first rejected address, with `invalid owner` if that address is zero and `owner not unique` otherwise |
| MultiSig.Initialize | src/lib.rs:284-308 | checks in order: empty list → `ZeroOwners`; threshold 0 or above the list length → panic; then the loop's first rejected address; succeeds iff all pass, appending the owners, storing a threshold with 1 ≤ threshold ≤ list length, leaving ledger, matrix and log unchanged and preserving the invariant |
| MultiSig.IsOwner | src/lib.rs:372-374 | under the invariant, true exactly for the addresses in the owner list, and never for the zero address |
| MultiSig.Submit | src/lib.rs:264-281 | appends exactly one entry (to, value, data, not executed, 0 confirmations) at index = old length; earlier entries, owners, threshold and matrix unchanged; logs the submission with that index; preserves the invariant |
| MultiSig.GetTransaction | src/lib.rs:380-397 | succeeds iff the index is below the ledger length, then returns exactly the five stored fields; otherwise fails with `TxDoesNotExist` |
| MultiSig.Confirm | src/lib.rs:98-110 | fails in order with `NotOwner`, `TxDoesNotExist`, `TxAlreadyExecuted`, `TxAlreadyConfirmed` (modifiers at lines 34-52), then on overflow of the checked increment; on success raises that entry's count by exactly one, adds the caller to its row, changes no other entry or cell, and preserves the invariant |
| MultiSig.Revoke | src/lib.rs:345-370 | fails with `TxDoesNotExist` past the ledger, then `TxNotConfirmed` if the caller's cell is false; otherwise decrements the count (under the invariant by exactly one), removes only the caller from the row, and preserves the invariant |
| MultiSig.MarkExecuted | src/lib.rs:325 | the effect committed before the external call: that entry, and only it, is marked executed |
| MultiSig.Execute | src/lib.rs:310-343 | fails in order with `TxDoesNotExist`, `TxAlreadyExecuted`, `TxAlreadyConfirmed` when the count is below the threshold, and `ExecuteFailed` when the call fails; succeeds iff none apply, then sets `executed` on that entry only, logs the execution, and preserves the invariant |
| Properties.CommitKeepsValid | src/lib.rs:264-370 | every call, successful or not, preserves the invariant |
| Properties.RunKeepsValid | src/lib.rs:264-370 | the invariant holds after any sequence of calls |
| Properties.ReachableValid | src/lib.rs:217-236 | every state reachable from a fresh deployment satisfies the invariant |
| Properties.ReachableCountsMatchRows | src/lib.rs:224-234 | in every state reachable from deployment, each count equals its row's number of confirmations and is at most the number of owners |
| Properties.RunExtends | src/lib.rs:264-370 | across any sequence of calls the ledger and the owner list only grow, the log only grows, entries keep their target, value and data, and `executed` is never set back to false |
| Properties.ExecutedIsFinal | src/lib.rs:316-319 | once an entry is executed, no later execute of it succeeds, and no later confirm by an owner succeeds |
| Properties.RevokeNeverUnderflows | src/lib.rs:356-357 | under the invariant a successful revoke finds a count between 1 and 2^256−1, so the decrement never wraps |
| Properties.ConfirmRevokeRoundTrip | src/lib.rs:345-370 | a confirm followed by a revoke by the same caller succeeds and restores ledger and matrix exactly; only the two events remain |
| Properties.RevokeConfirmRoundTrip | src/lib.rs:98-110 | a revoke followed by a fresh confirm by the same owner on an open entry restores ledger and matrix exactly |
| Properties.TransactionCountNeverDecreases | src/lib.rs:376-378 | `get_transaction_count` (MultiSig.GetTransactionCount, the ledger length) never decreases across any sequence of calls |
| Properties.SubmitThenGet | src/lib.rs:376-397 | after a submission `get_transaction_count` (MultiSig.GetTransactionCount) grows by exactly one, the new index reads back the submitted fields with executed false and 0 confirmations, and earlier entries read as before |
| Properties.InitializeRegistersOwners | src/lib.rs:302-303 | after a successful `initialize` every supplied address is an owner, and the owner list ends with the supplied list in order |
| Divergences.SecondInitializeSucceeds | src/lib.rs:284-308 | on an initialized wallet, a second `initialize` with fresh owners succeeds and overwrites the threshold |
| Divergences.SecondInitializeWithExistingOwner | src/lib.rs:298-300 | a second `initialize` whose first address is already an owner panics with `owner not unique` |
| Divergences.ShortfallReportsAlreadyConfirmed | src/lib.rs:321-323 | one confirmation below the threshold, execution fails with `TxAlreadyConfirmed`; exactly at the threshold it succeeds |
| Divergences.UninitializedWalletExecutes | src/lib.rs:310-334 | before `initialize`, a submitted entry executes with zero confirmations |
| Divergences.CallerIrrelevant | src/lib.rs:264-343 | the outcome of submit and execute does not depend on the caller |
| Divergences.RevokeAfterExecution | src/lib.rs:345-360 | a confirmation on an executed entry can still be revoked; the entry stays executed and its count drops by one |
| Divergences.ReentrancyGuard | src/lib.rs:325-327 | while the external call runs, a reentrant execute of that entry fails with `TxAlreadyExecuted`, and so does a reentrant confirm by an owner; a reentrant revoke still succeeds |
| Scenarios.TwoOfThree | src/lib.rs:264-343 | owners 1, 2, 3 with threshold 2: submit → index 0; one confirmation → count 1 and execution refused; a repeated confirmation refused; a second owner's confirmation → count 2; execution succeeds and logs; a later confirmation is refused with `TxAlreadyExecuted` |
| Scenarios.RevokeUnconfirmedAndReadPastEnd | src/lib.rs:345-397 | revoking without having confirmed fails with `TxNotConfirmed`; reading index 5 of a two-entry ledger fails with `TxDoesNotExist` |

## Left out

- `deposit` and the contract balance (src/lib.rs:253-262): these only query the host balance and log an event.
- Event encoding via `evm::log`: events are kept as an abstract list of values (`Wallet.log`), without topics or ABI encoding. The deposit event is not modelled.
- The external `call` at src/lib.rs:327: its outcome is the boolean `callSucceeds`. The callee's behaviour, the value transfer and reentrancy are outside the model. Only the entry's state during the call is modelled (`MultiSig.MarkExecuted`, `Divergences.ReentrancyGuard`).
- State after `ExecuteFailed`: `executed` is set before the call, and whether that write survives an `Err` return depends on the host. The model treats every `Err` and every panic as reverting the whole call. So a failed execution leaves the entry unexecuted and it can be retried.
- `U256` width: transferred values, indices and the threshold are unbounded naturals. The panics of `to::<usize>()` on huge indices (src/lib.rs:311, 381) are not modelled. Confirmation counts are the exception: the reference confirm's checked increment fails at 2^256, which keeps every count below 2^256, and revoke's decrement is written as wrapping `uint256` arithmetic and proved never to wrap.
- Addresses are naturals with 0 as the zero address. Their 160-bit width is not modelled.
- Allocator, ABI export, SDK attributes and the `sol!`/`sol_storage!` macros (src/lib.rs:181-236) are not modelled. The unused `number` storage slot is not modelled either.
- `getOwners` of the Solidity reference has no Rust counterpart and is not modelled. The owner list is the `owners` field.
- The `else` branches at src/lib.rs:340-342, 367-369 and 394-396 are unreachable after the preceding bounds checks, and the model has no counterpart for them.
- The Solidity reference's `onlyOwner` guard on submit and execute, and its `notExecuted` guard on revoke, are absent from the Rust code and are not modelled.

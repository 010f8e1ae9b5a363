/** Behaviour of the Rust contract that an idealised multi-signature wallet
    would not have, stated and proved so that it is on record: no guard
    against a second `initialize`, a misnamed error for too few
    confirmations, a wallet that executes before it is initialized, and
    missing owner and executed checks. Also the reentrancy guard that
    marking the entry before the external call provides. */
module Divergences {
  import opened Types
  import opened Matrix
  import opened Invariant
  import opened MultiSig

  /** A second `initialize` with fresh owners succeeds: it appends them and
      overwrites the threshold with one that need only fit the new owners. */
  lemma SecondInitializeSucceeds(w: Wallet, owners: seq<Address>, required: nat)
    requires Valid(w) && |w.owners| > 0
    requires 1 <= required <= |owners| && AllAcceptable(w.ownerSet, owners)
    ensures Initialize(w, owners, required).Ok?
    ensures Initialize(w, owners, required).value.required == required
    ensures |Initialize(w, owners, required).value.owners| == |w.owners| + |owners|
    ensures Valid(Initialize(w, owners, required).value)
  {
  }

  /** A second `initialize` that names an existing owner panics with
      `owner not unique`, not with an "already initialized" error. */
  lemma SecondInitializeWithExistingOwner(w: Wallet, owners: seq<Address>, required: nat)
    requires Valid(w)
    requires 1 <= required <= |owners| && owners[0] in w.ownerSet
    ensures Initialize(w, owners, required) == Err(Panicked(OwnerNotUnique))
  {
    var r := Initialize(w, owners, required);
    var k: nat :| FirstRejected(w.ownerSet, owners, k) && r.failure == Panicked(RejectReason(owners[k]));
    assert !Acceptable(w.ownerSet, owners, 0);
  }

  /** One confirmation short of the threshold, execution is refused with the
      `TxAlreadyConfirmed` variant; at the threshold it goes ahead. */
  lemma ShortfallReportsAlreadyConfirmed(w: Wallet, caller: Address, i: nat)
    requires i < |w.transactions| && !w.transactions[i].executed
    ensures w.transactions[i].numConfirmations + 1 == w.required ==>
      Execute(w, caller, i, true) == Err(Revert(TxAlreadyConfirmed))
    ensures w.transactions[i].numConfirmations == w.required ==> Execute(w, caller, i, true).Ok?
  {
  }

  /** Before `initialize` the threshold is zero, so any caller can submit an
      entry and have it executed without a single confirmation. */
  lemma UninitializedWalletExecutes(caller: Address, to: Address, value: nat, data: seq<Byte>)
    ensures Execute(Submit(Deployed(), caller, to, value, data), caller, 0, true).Ok?
    ensures Execute(Submit(Deployed(), caller, to, value, data), caller, 0, true).value.transactions[0]
         == TxStruct(to, value, data, true, 0)
  {
  }

  /** Neither submitting nor executing looks at who calls. */
  lemma CallerIrrelevant(w: Wallet, a: Address, b: Address, i: nat, to: Address, value: nat, data: seq<Byte>, callSucceeds: bool)
    ensures Submit(w, a, to, value, data).transactions == Submit(w, b, to, value, data).transactions
    ensures Execute(w, a, i, callSucceeds).Ok? <==> Execute(w, b, i, callSucceeds).Ok?
    ensures Execute(w, a, i, callSucceeds).Ok? ==>
      Execute(w, a, i, callSucceeds).value.transactions == Execute(w, b, i, callSucceeds).value.transactions
  {
  }

  /** A confirmation can still be revoked after its entry was executed,
      leaving an executed entry below the threshold. */
  lemma RevokeAfterExecution(w: Wallet, caller: Address, i: nat)
    requires Valid(w)
    requires i < |w.transactions| && w.transactions[i].executed && IsConfirmed(w.confirmed, i, caller)
    ensures Revoke(w, caller, i).Ok?
    ensures Revoke(w, caller, i).value.transactions[i].executed
    ensures Revoke(w, caller, i).value.transactions[i].numConfirmations + 1 == w.transactions[i].numConfirmations
  {
  }

  /** While the external call of `execute_transaction` runs, the entry is
      already marked executed: a reentrant confirm or execute of it fails.
      A reentrant revoke is not stopped. */
  lemma ReentrancyGuard(w: Wallet, i: nat, caller: Address, callSucceeds: bool)
    requires i < |w.transactions|
    ensures Execute(MarkExecuted(w, i), caller, i, callSucceeds) == Err(Revert(TxAlreadyExecuted))
    ensures caller in w.ownerSet ==> Confirm(MarkExecuted(w, i), caller, i) == Err(Revert(TxAlreadyExecuted))
    ensures IsConfirmed(w.confirmed, i, caller) ==> Revoke(MarkExecuted(w, i), caller, i).Ok?
  {
  }
}

/** Worked runs of the wallet with owners 1, 2 and 3 and a threshold of two. */
module Scenarios {
  import opened Types
  import opened Matrix
  import opened MultiSig

  const A: Address := 1
  const B: Address := 2
  const C: Address := 3
  const TARGET: Address := 9

  /** Submit, two confirmations, execution, then a late confirmation. */
  lemma TwoOfThree()
    ensures Initialize(Deployed(), [A, B, C], 2).Ok?
    ensures
      var w0 := Initialize(Deployed(), [A, B, C], 2).value;
      var w1 := Submit(w0, A, TARGET, 10, []);
      && GetTransactionCount(w1) == 1
      && Confirm(w1, A, 0).Ok?
      && var w2 := Confirm(w1, A, 0).value;
      && w2.transactions[0].numConfirmations == 1
      && Execute(w2, A, 0, true) == Err(Revert(TxAlreadyConfirmed))
      && Confirm(w2, A, 0) == Err(Revert(TxAlreadyConfirmed))
      && Confirm(w2, B, 0).Ok?
      && var w3 := Confirm(w2, B, 0).value;
      && w3.transactions[0].numConfirmations == 2
      && Execute(w3, A, 0, true).Ok?
      && var w4 := Execute(w3, A, 0, true).value;
      && w4.transactions[0].executed
      && w4.log[|w4.log| - 1] == ExecuteTransaction(A, 0)
      && Confirm(w4, C, 0) == Err(Revert(TxAlreadyExecuted))
  {
    var w0 := Initialize(Deployed(), [A, B, C], 2).value;
    assert w0.ownerSet == {A, B, C};
  }

  /** Revoking without having confirmed fails, and so does reading past the
      end of a two-entry ledger. */
  lemma RevokeUnconfirmedAndReadPastEnd()
    ensures
      var w0 := Initialize(Deployed(), [A, B, C], 2).value;
      var w1 := Submit(w0, A, TARGET, 10, []);
      var w2 := Submit(w1, B, TARGET, 0, [0x01]);
      && Revoke(w1, C, 0) == Err(Revert(TxNotConfirmed))
      && GetTransactionCount(w2) == 2
      && GetTransaction(w2, 5) == Err(Revert(TxDoesNotExist))
  {
  }
}

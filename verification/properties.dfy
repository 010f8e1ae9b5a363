/** Properties of sequences of calls against the wallet: the invariant holds
    in every reachable state, the ledger only grows, executed entries stay
    executed, and a confirmation followed by its revocation is undone. */
module Properties {
  import opened Types
  import opened Matrix
  import opened Invariant
  import opened MultiSig

  /** One call of an external method, with its caller and inputs. */
  datatype Call =
    | InitializeCall(newOwners: seq<Address>, required: nat)
    | SubmitCall(caller: Address, to: Address, value: nat, data: seq<Byte>)
    | ConfirmCall(caller: Address, index: nat)
    | RevokeCall(caller: Address, index: nat)
    | ExecuteCall(caller: Address, index: nat, callSucceeds: bool)

  function Apply(w: Wallet, c: Call): Result<Wallet> {
    match c
    case InitializeCall(owners, required) => Initialize(w, owners, required)
    case SubmitCall(caller, to, value, data) => Ok(Submit(w, caller, to, value, data))
    case ConfirmCall(caller, i) => Confirm(w, caller, i)
    case RevokeCall(caller, i) => Revoke(w, caller, i)
    case ExecuteCall(caller, i, ok) => Execute(w, caller, i, ok)
  }

  /** The host's all-or-nothing rule: a failed call leaves storage as it was. */
  function Commit(w: Wallet, c: Call): (w': Wallet)
    ensures Apply(w, c).Err? ==> w' == w
    ensures Apply(w, c).Ok? ==> w' == Apply(w, c).value
  {
    match Apply(w, c)
    case Ok(next) => next
    case Err(_) => w
  }

  function Run(w: Wallet, calls: seq<Call>): Wallet
    decreases |calls|
  {
    if calls == [] then w else Run(Commit(w, calls[0]), calls[1..])
  }

  /** `w'` is a later state of `w`: owners and log only grow, entries are
      only appended, keep their target, value and data, and stay executed. */
  ghost predicate Extends(w: Wallet, w': Wallet) {
    && w.owners <= w'.owners
    && w.log <= w'.log
    && |w.transactions| <= |w'.transactions|
    && forall i :: 0 <= i < |w.transactions| ==>
         && w'.transactions[i].to == w.transactions[i].to
         && w'.transactions[i].value == w.transactions[i].value
         && w'.transactions[i].data == w.transactions[i].data
         && (w.transactions[i].executed ==> w'.transactions[i].executed)
  }

  lemma CommitKeepsValid(w: Wallet, c: Call)
    requires Valid(w)
    ensures Valid(Commit(w, c))
  {
  }

  lemma CommitExtends(w: Wallet, c: Call)
    ensures Extends(w, Commit(w, c))
  {
  }

  /** The invariant holds after any sequence of calls. */
  lemma {:induction false} RunKeepsValid(w: Wallet, calls: seq<Call>)
    requires Valid(w)
    ensures Valid(Run(w, calls))
    decreases |calls|
  {
    if calls != [] {
      CommitKeepsValid(w, calls[0]);
      RunKeepsValid(Commit(w, calls[0]), calls[1..]);
    }
  }

  /** Every state reached from a fresh deployment satisfies the invariant. */
  lemma ReachableValid(calls: seq<Call>)
    ensures Valid(Run(Deployed(), calls))
  {
    DeployedValid();
    RunKeepsValid(Deployed(), calls);
  }

  /** In every reachable state each count equals its row of confirmations
      and stays within the number of owners. */
  lemma ReachableCountsMatchRows(calls: seq<Call>, i: nat)
    requires i < |Run(Deployed(), calls).transactions|
    ensures Run(Deployed(), calls).transactions[i].numConfirmations == |Row(Run(Deployed(), calls).confirmed, i)|
    ensures Run(Deployed(), calls).transactions[i].numConfirmations <= |Run(Deployed(), calls).owners|
  {
    ReachableValid(calls);
    ConfirmationsBounded(Run(Deployed(), calls), i);
  }

  /** No sequence of calls removes an entry, rewrites its action, or sets
      `executed` back to false. */
  lemma {:induction false} RunExtends(w: Wallet, calls: seq<Call>)
    ensures Extends(w, Run(w, calls))
    decreases |calls|
  {
    if calls != [] {
      var next := Commit(w, calls[0]);
      CommitExtends(w, calls[0]);
      RunExtends(next, calls[1..]);
      ExtendsTransitive(w, next, Run(next, calls[1..]));
    }
  }

  lemma ExtendsTransitive(a: Wallet, b: Wallet, c: Wallet)
    requires Extends(a, b) && Extends(b, c)
    ensures Extends(a, c)
  {
  }

  /** `get_transaction_count` never decreases, whatever is called. */
  lemma TransactionCountNeverDecreases(w: Wallet, calls: seq<Call>)
    ensures GetTransactionCount(w) <= GetTransactionCount(Run(w, calls))
  {
    RunExtends(w, calls);
  }

  /** Once executed, an entry can be neither confirmed nor executed again,
      after any further sequence of calls. */
  lemma ExecutedIsFinal(w: Wallet, calls: seq<Call>, caller: Address, i: nat, callSucceeds: bool)
    requires i < |w.transactions| && w.transactions[i].executed
    ensures Execute(Run(w, calls), caller, i, callSucceeds) == Err(Revert(TxAlreadyExecuted))
    ensures caller in Run(w, calls).ownerSet ==> Confirm(Run(w, calls), caller, i) == Err(Revert(TxAlreadyExecuted))
  {
    RunExtends(w, calls);
  }

  /** Under the invariant a successful revocation finds a positive count, so
      the wrapping decrement of `revoke_confirmation` never wraps. */
  lemma RevokeNeverUnderflows(w: Wallet, caller: Address, i: nat)
    requires Valid(w)
    requires Revoke(w, caller, i).Ok?
    ensures 1 <= w.transactions[i].numConfirmations < U256_MODULUS
    ensures DecrementU256(w.transactions[i].numConfirmations) == w.transactions[i].numConfirmations - 1
  {
    assert caller in Row(w.confirmed, i);
  }

  /** A confirmation followed by its revocation by the same caller restores
      the count and the matrix; only the two events remain. */
  lemma ConfirmRevokeRoundTrip(w: Wallet, caller: Address, i: nat)
    requires Confirm(w, caller, i).Ok?
    ensures Revoke(Confirm(w, caller, i).value, caller, i).Ok?
    ensures Revoke(Confirm(w, caller, i).value, caller, i).value
         == w.(log := w.log + [ConfirmTransaction(caller, i), RevokeConfirmation(caller, i)])
  {
    var w1 := Confirm(w, caller, i).value;
    var w2 := Revoke(w1, caller, i).value;
    ClearUndoesSet(w.confirmed, i, caller);
    assert w2.transactions == w.transactions;
    assert w2.log == w.log + [ConfirmTransaction(caller, i), RevokeConfirmation(caller, i)];
  }

  /** A revocation followed by a fresh confirmation by the same owner restores
      the count and the matrix, as long as the entry is still open. */
  lemma RevokeConfirmRoundTrip(w: Wallet, caller: Address, i: nat)
    requires Valid(w)
    requires Revoke(w, caller, i).Ok? && caller in w.ownerSet && !w.transactions[i].executed
    ensures Confirm(Revoke(w, caller, i).value, caller, i).Ok?
    ensures Confirm(Revoke(w, caller, i).value, caller, i).value
         == w.(log := w.log + [RevokeConfirmation(caller, i), ConfirmTransaction(caller, i)])
  {
    var w1 := Revoke(w, caller, i).value;
    var w2 := Confirm(w1, caller, i).value;
    assert w2.confirmed == w.confirmed;
    assert w2.transactions == w.transactions;
  }

  /** `get_transaction` returns exactly what `submit_transaction` stored, at
      the index the submission event reports. */
  lemma SubmitThenGet(w: Wallet, caller: Address, to: Address, value: nat, data: seq<Byte>)
    ensures GetTransactionCount(Submit(w, caller, to, value, data)) == GetTransactionCount(w) + 1
    ensures GetTransaction(Submit(w, caller, to, value, data), GetTransactionCount(w))
         == Ok(TxStruct(to, value, data, false, 0))
    ensures forall i :: 0 <= i < GetTransactionCount(w) ==>
      GetTransaction(Submit(w, caller, to, value, data), i) == GetTransaction(w, i)
  {
  }

  /** Everyone `initialize` registers answers `is_owner`, in the given order. */
  lemma InitializeRegistersOwners(w: Wallet, owners: seq<Address>, required: nat)
    requires Initialize(w, owners, required).Ok?
    ensures forall a :: a in owners ==> IsOwner(Initialize(w, owners, required).value, a)
    ensures Initialize(w, owners, required).value.owners[|w.owners|..] == owners
  {
  }
}

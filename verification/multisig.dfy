/** The external methods of the `Counter` contract, each a pure transition
    from the wallet before the call to `Ok(wallet after)` or to the `Err` the
    caller sees (the host then keeps the wallet before). The caller's address
    (`msg::sender()`) and the outcome of the external call made by
    `execute_transaction` are parameters. `Confirm` comes from the Solidity
    contract the Rust file carries as a comment, which the Rust port lacks. */
module MultiSig {
  import opened Types
  import opened Matrix
  import opened Invariant

  // ---------------------------------------------------------------------
  // initialize

  /** The registration loop accepts `owners[k]` when it is not the zero
      address and is not yet registered, either before the call or earlier
      in the same loop. */
  predicate Acceptable(registered: set<Address>, owners: seq<Address>, k: nat)
    requires k < |owners|
  {
    owners[k] != ZERO_ADDRESS && owners[k] !in registered && owners[k] !in owners[..k]
  }

  predicate AllAcceptable(registered: set<Address>, owners: seq<Address>) {
    forall k :: 0 <= k < |owners| ==> Acceptable(registered, owners, k)
  }

  /** `owners[k]` is the first address the loop rejects. */
  predicate FirstRejected(registered: set<Address>, owners: seq<Address>, k: nat) {
    && k < |owners|
    && !Acceptable(registered, owners, k)
    && forall j :: 0 <= j < k ==> Acceptable(registered, owners, j)
  }

  /** The panic a rejected address raises: the zero check comes first. */
  function RejectReason(owner: Address): PanicReason {
    if owner == ZERO_ADDRESS then InvalidOwner else OwnerNotUnique
  }

  /** Dropping the head of the list moves it into the registered set. */
  lemma AcceptableShift(registered: set<Address>, owners: seq<Address>, k: nat)
    requires 0 < |owners| && k + 1 < |owners|
    ensures Acceptable(registered + {owners[0]}, owners[1..], k) <==> Acceptable(registered, owners, k + 1)
  {
    assert owners[..k + 1] == [owners[0]] + owners[1..][..k];
  }

  lemma AllAcceptableShift(registered: set<Address>, owners: seq<Address>)
    requires 0 < |owners| && Acceptable(registered, owners, 0)
    ensures AllAcceptable(registered, owners) <==> AllAcceptable(registered + {owners[0]}, owners[1..])
  {
    forall k | 0 <= k < |owners| - 1 {
      AcceptableShift(registered, owners, k);
    }
    if AllAcceptable(registered + {owners[0]}, owners[1..]) {
      forall k | 0 <= k < |owners| ensures Acceptable(registered, owners, k) {
        if k > 0 {
          assert Acceptable(registered + {owners[0]}, owners[1..], k - 1);
        }
      }
    }
  }

  lemma FirstRejectedShift(registered: set<Address>, owners: seq<Address>, k: nat)
    requires 0 < |owners| && Acceptable(registered, owners, 0)
    requires FirstRejected(registered + {owners[0]}, owners[1..], k)
    ensures FirstRejected(registered, owners, k + 1)
  {
    AcceptableShift(registered, owners, k);
    forall j | 0 <= j < k + 1 ensures Acceptable(registered, owners, j) {
      if j > 0 {
        AcceptableShift(registered, owners, j - 1);
      }
    }
  }

  /** The loop that registers each owner in turn, panicking on the first
      zero or already registered address. */
  function RegisterOwners(list: seq<Address>, registered: set<Address>, owners: seq<Address>)
    : (r: Result<(seq<Address>, set<Address>)>)
    ensures r.Ok? <==> AllAcceptable(registered, owners)
    ensures r.Ok? ==> r.value == (list + owners, registered + Elems(owners))
    ensures r.Err? ==> exists k: nat :: FirstRejected(registered, owners, k) && r.failure == Panicked(RejectReason(owners[k]))
    decreases |owners|
  {
    if owners == [] then
      assert list + owners == list;
      assert registered + Elems(owners) == registered;
      Ok((list, registered))
    else if owners[0] == ZERO_ADDRESS || owners[0] in registered then
      assert FirstRejected(registered, owners, 0);
      Err(Panicked(RejectReason(owners[0])))
    else
      var o := owners[0];
      var rest := RegisterOwners(list + [o], registered + {o}, owners[1..]);
      assert Acceptable(registered, owners, 0);
      AllAcceptableShift(registered, owners);
      assert owners == [o] + owners[1..];
      assert list + [o] + owners[1..] == list + owners;
      assert Elems(owners) == {o} + Elems(owners[1..]);
      assert registered + {o} + Elems(owners[1..]) == registered + Elems(owners);
      assert rest.Err? ==> exists k: nat :: FirstRejected(registered, owners, k) && rest.failure == Panicked(RejectReason(owners[k])) by {
        if rest.Err? {
          var k: nat :| FirstRejected(registered + {o}, owners[1..], k) && rest.failure == Panicked(RejectReason(owners[1..][k]));
          FirstRejectedShift(registered, owners, k);
        }
      }
      rest
  }

  /** `initialize`: registers `owners` after those already registered and
      stores the threshold. Nothing stops a second call. */
  function Initialize(w: Wallet, owners: seq<Address>, required: nat): (r: Result<Wallet>)
    ensures |owners| == 0 ==> r == Err(Revert(ZeroOwners))
    ensures |owners| > 0 && (required == 0 || required > |owners|) ==> r == Err(Panicked(InvalidConfirmationNumber))
    ensures r.Ok? <==> |owners| > 0 && 1 <= required <= |owners| && AllAcceptable(w.ownerSet, owners)
    ensures |owners| > 0 && 1 <= required <= |owners| && r.Err? ==>
      exists k: nat :: FirstRejected(w.ownerSet, owners, k) && r.failure == Panicked(RejectReason(owners[k]))
    ensures r.Ok? ==> r.value.owners == w.owners + owners && r.value.ownerSet == w.ownerSet + Elems(owners)
    ensures r.Ok? ==> r.value.required == required && 1 <= r.value.required <= |owners|
    ensures r.Ok? ==> r.value.transactions == w.transactions && r.value.confirmed == w.confirmed && r.value.log == w.log
    ensures r.Ok? && Valid(w) ==> Valid(r.value)
  {
    if |owners| == 0 then
      Err(Revert(ZeroOwners))
    else if required == 0 || required > |owners| then
      Err(Panicked(InvalidConfirmationNumber))
    else
      match RegisterOwners(w.owners, w.ownerSet, owners)
      case Err(f) => Err(f)
      case Ok(registered) =>
        var w' := w.(owners := registered.0, ownerSet := registered.1, required := required);
        InitializeKeepsValid(w, owners, w');
        Ok(w')
  }

  lemma InitializeKeepsValid(w: Wallet, owners: seq<Address>, w': Wallet)
    requires AllAcceptable(w.ownerSet, owners)
    requires w'.owners == w.owners + owners && w'.ownerSet == w.ownerSet + Elems(owners)
    requires 1 <= w'.required <= |owners|
    requires w'.transactions == w.transactions && w'.confirmed == w.confirmed
    ensures Valid(w) ==> Valid(w')
  {
    if Valid(w) {
      var n := |w.owners|;
      forall j, k | 0 <= j < k < |w'.owners| ensures w'.owners[j] != w'.owners[k] {
        if k >= n {
          assert Acceptable(w.ownerSet, owners, k - n);
          if j >= n {
            assert w'.owners[j] == owners[..k - n][j - n];
          } else {
            assert w'.owners[j] in w.ownerSet;
          }
        }
      }
      forall k | 0 <= k < |owners| ensures owners[k] != ZERO_ADDRESS {
        assert Acceptable(w.ownerSet, owners, k);
      }
      assert Elems(w'.owners) == Elems(w.owners) + Elems(owners);
    }
  }

  /** The view `is_owner`. */
  function IsOwner(w: Wallet, a: Address): (b: bool)
    ensures Valid(w) ==> (b <==> exists k :: 0 <= k < |w.owners| && w.owners[k] == a)
    ensures Valid(w) && b ==> a != ZERO_ADDRESS
  {
    a in w.ownerSet
  }

  // ---------------------------------------------------------------------
  // the ledger

  /** `submit_transaction`: appends one entry, open to any caller. */
  function Submit(w: Wallet, caller: Address, to: Address, value: nat, data: seq<Byte>): (w': Wallet)
    ensures |w'.transactions| == |w.transactions| + 1
    ensures w'.transactions[..|w.transactions|] == w.transactions
    ensures w'.transactions[|w.transactions|] == TxStruct(to, value, data, false, 0)
    ensures w'.owners == w.owners && w'.ownerSet == w.ownerSet && w'.required == w.required
    ensures w'.confirmed == w.confirmed
    ensures w'.log == w.log + [SubmitTransaction(caller, |w.transactions|, to, value, data)]
    ensures Valid(w) ==> Valid(w')
  {
    var index := |w.transactions|;
    var w' := w.(transactions := w.transactions + [TxStruct(to, value, data, false, 0)],
                 log := w.log + [SubmitTransaction(caller, index, to, value, data)]);
    SubmitKeepsValid(w, w', TxStruct(to, value, data, false, 0));
    w'
  }

  lemma SubmitKeepsValid(w: Wallet, w': Wallet, tx: TxStruct)
    requires w'.transactions == w.transactions + [tx] && tx.numConfirmations == 0
    requires w'.owners == w.owners && w'.ownerSet == w.ownerSet && w'.required == w.required
    requires w'.confirmed == w.confirmed
    ensures Valid(w) ==> Valid(w')
  {
    if Valid(w) {
      RowsBeyondLedgerEmpty(w, |w.transactions|);
    }
  }

  /** The view `get_transaction_count`. */
  function GetTransactionCount(w: Wallet): nat {
    |w.transactions|
  }

  /** The view `get_transaction`: the five stored fields of one entry. */
  function GetTransaction(w: Wallet, i: nat): (r: Result<TxStruct>)
    ensures r.Ok? <==> i < |w.transactions|
    ensures r.Ok? ==> r.value == w.transactions[i]
    ensures r.Err? ==> r.failure == Revert(TxDoesNotExist)
  {
    if i >= |w.transactions| then Err(Revert(TxDoesNotExist)) else Ok(w.transactions[i])
  }

  // ---------------------------------------------------------------------
  // confirm, revoke, execute

  /** `confirmTransaction` of the Solidity contract: modifiers `onlyOwner`,
      `txExists`, `notExecuted` and `notConfirmed` in that order, then a
      checked increment of the count and the matrix cell set. */
  function Confirm(w: Wallet, caller: Address, i: nat): (r: Result<Wallet>)
    ensures caller !in w.ownerSet ==> r == Err(Revert(NotOwner))
    ensures caller in w.ownerSet && i >= |w.transactions| ==> r == Err(Revert(TxDoesNotExist))
    ensures caller in w.ownerSet && i < |w.transactions| && w.transactions[i].executed ==>
      r == Err(Revert(TxAlreadyExecuted))
    ensures caller in w.ownerSet && i < |w.transactions| && !w.transactions[i].executed && IsConfirmed(w.confirmed, i, caller) ==>
      r == Err(Revert(TxAlreadyConfirmed))
    ensures r.Ok? <==> caller in w.ownerSet && i < |w.transactions| && !w.transactions[i].executed
                       && !IsConfirmed(w.confirmed, i, caller) && w.transactions[i].numConfirmations + 1 < U256_MODULUS
    ensures r.Ok? ==> |r.value.transactions| == |w.transactions|
    ensures r.Ok? ==> r.value.transactions[i] == w.transactions[i].(numConfirmations := w.transactions[i].numConfirmations + 1)
    ensures r.Ok? ==> forall j :: 0 <= j < |w.transactions| && j != i ==> r.value.transactions[j] == w.transactions[j]
    ensures r.Ok? ==> Row(r.value.confirmed, i) == Row(w.confirmed, i) + {caller}
    ensures r.Ok? ==> forall j: nat, a: Address :: (j, a) != (i, caller) ==>
      (IsConfirmed(r.value.confirmed, j, a) <==> IsConfirmed(w.confirmed, j, a))
    ensures r.Ok? ==> r.value.owners == w.owners && r.value.ownerSet == w.ownerSet && r.value.required == w.required
    ensures r.Ok? ==> r.value.log == w.log + [ConfirmTransaction(caller, i)]
    ensures r.Ok? && Valid(w) ==> Valid(r.value)
  {
    if caller !in w.ownerSet then Err(Revert(NotOwner))
    else if i >= |w.transactions| then Err(Revert(TxDoesNotExist))
    else if w.transactions[i].executed then Err(Revert(TxAlreadyExecuted))
    else if IsConfirmed(w.confirmed, i, caller) then Err(Revert(TxAlreadyConfirmed))
    else if w.transactions[i].numConfirmations + 1 >= U256_MODULUS then Err(Panicked(ArithmeticOverflow))
    else
      var tx := w.transactions[i];
      Ok(w.(transactions := w.transactions[i := tx.(numConfirmations := tx.numConfirmations + 1)],
            confirmed := SetCell(w.confirmed, i, caller),
            log := w.log + [ConfirmTransaction(caller, i)]))
  }

  /** `revoke_confirmation`: no owner check and no executed check; the count
      is decremented with wrapping `uint256` arithmetic. */
  function Revoke(w: Wallet, caller: Address, i: nat): (r: Result<Wallet>)
    ensures i >= |w.transactions| ==> r == Err(Revert(TxDoesNotExist))
    ensures i < |w.transactions| && !IsConfirmed(w.confirmed, i, caller) ==> r == Err(Revert(TxNotConfirmed))
    ensures r.Ok? <==> i < |w.transactions| && IsConfirmed(w.confirmed, i, caller)
    ensures r.Ok? ==> |r.value.transactions| == |w.transactions|
    ensures r.Ok? ==> r.value.transactions[i] == w.transactions[i].(numConfirmations := DecrementU256(w.transactions[i].numConfirmations))
    ensures r.Ok? && Valid(w) ==> r.value.transactions[i].numConfirmations + 1 == w.transactions[i].numConfirmations
    ensures r.Ok? ==> forall j :: 0 <= j < |w.transactions| && j != i ==> r.value.transactions[j] == w.transactions[j]
    ensures r.Ok? ==> Row(r.value.confirmed, i) == Row(w.confirmed, i) - {caller}
    ensures r.Ok? ==> forall j: nat, a: Address :: (j, a) != (i, caller) ==>
      (IsConfirmed(r.value.confirmed, j, a) <==> IsConfirmed(w.confirmed, j, a))
    ensures r.Ok? ==> r.value.owners == w.owners && r.value.ownerSet == w.ownerSet && r.value.required == w.required
    ensures r.Ok? ==> r.value.log == w.log + [RevokeConfirmation(caller, i)]
    ensures r.Ok? && Valid(w) ==> Valid(r.value)
  {
    if i >= |w.transactions| then Err(Revert(TxDoesNotExist))
    else if !IsConfirmed(w.confirmed, i, caller) then Err(Revert(TxNotConfirmed))
    else
      var tx := w.transactions[i];
      Ok(w.(transactions := w.transactions[i := tx.(numConfirmations := DecrementU256(tx.numConfirmations))],
            confirmed := ClearCell(w.confirmed, i, caller),
            log := w.log + [RevokeConfirmation(caller, i)]))
  }

  /** The effect `execute_transaction` commits before it makes the external
      call: the entry is marked executed. */
  function MarkExecuted(w: Wallet, i: nat): (w': Wallet)
    requires i < |w.transactions|
    ensures |w'.transactions| == |w.transactions| && w'.transactions[i].executed
    ensures w'.transactions[i].(executed := w.transactions[i].executed) == w.transactions[i]
    ensures forall j :: 0 <= j < |w.transactions| && j != i ==> w'.transactions[j] == w.transactions[j]
    ensures w'.(transactions := w.transactions) == w
  {
    w.(transactions := w.transactions[i := w.transactions[i].(executed := true)])
  }

  /** `execute_transaction`: no owner check, and a shortfall of confirmations
      is reported with the `TxAlreadyConfirmed` variant. `callSucceeds` is
      the outcome of the external call to the entry's `to` with its `value`
      and `data`; a failed call returns `ExecuteFailed`, which reverts the
      mark made before the call. */
  function Execute(w: Wallet, caller: Address, i: nat, callSucceeds: bool): (r: Result<Wallet>)
    ensures i >= |w.transactions| ==> r == Err(Revert(TxDoesNotExist))
    ensures i < |w.transactions| && w.transactions[i].executed ==> r == Err(Revert(TxAlreadyExecuted))
    ensures i < |w.transactions| && !w.transactions[i].executed && w.transactions[i].numConfirmations < w.required ==>
      r == Err(Revert(TxAlreadyConfirmed))
    ensures i < |w.transactions| && !w.transactions[i].executed && w.transactions[i].numConfirmations >= w.required && !callSucceeds ==>
      r == Err(Revert(ExecuteFailed))
    ensures r.Ok? <==> i < |w.transactions| && !w.transactions[i].executed
                       && w.transactions[i].numConfirmations >= w.required && callSucceeds
    ensures r.Ok? ==> |r.value.transactions| == |w.transactions|
    ensures r.Ok? ==> r.value.transactions[i] == w.transactions[i].(executed := true)
    ensures r.Ok? ==> forall j :: 0 <= j < |w.transactions| && j != i ==> r.value.transactions[j] == w.transactions[j]
    ensures r.Ok? ==> r.value.(transactions := w.transactions, log := w.log) == w
    ensures r.Ok? ==> r.value.log == w.log + [ExecuteTransaction(caller, i)]
    ensures r.Ok? && Valid(w) ==> Valid(r.value)
  {
    if i >= |w.transactions| then Err(Revert(TxDoesNotExist))
    else if w.transactions[i].executed then Err(Revert(TxAlreadyExecuted))
    else if w.transactions[i].numConfirmations < w.required then Err(Revert(TxAlreadyConfirmed))
    else
      var marked := MarkExecuted(w, i);
      if callSucceeds then Ok(marked.(log := w.log + [ExecuteTransaction(caller, i)]))
      else Err(Revert(ExecuteFailed))
  }
}

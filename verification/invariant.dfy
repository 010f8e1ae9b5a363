/** The invariant the contract's storage keeps between calls: the owner list
    and the `is_owner` mapping agree and hold no duplicate and no zero
    address, the threshold lies between one and the number of owners once
    any owner exists, and every transaction's `num_confirmations` counts the
    true cells of its row of `is_confirmed`, no cell being true outside the
    ledger or for a non-owner. */
module Invariant {
  import opened Types
  import opened Matrix

  /** The addresses occurring in `s`. */
  function Elems(s: seq<Address>): (e: set<Address>)
    ensures forall a :: a in e <==> a in s
  {
    set a | a in s
  }

  predicate NoDuplicates(s: seq<Address>) {
    forall j, k :: 0 <= j < k < |s| ==> s[j] != s[k]
  }

  /** A list without duplicates has as many distinct elements as entries. */
  lemma {:induction false} DistinctCount(s: seq<Address>)
    requires NoDuplicates(s)
    ensures |Elems(s)| == |s|
  {
    if s != [] {
      var t := s[..|s| - 1];
      var x := s[|s| - 1];
      assert s == t + [x];
      assert NoDuplicates(t) by {
        forall j, k | 0 <= j < k < |t| ensures t[j] != t[k] {
          assert t[j] == s[j] && t[k] == s[k];
        }
      }
      DistinctCount(t);
      assert x !in Elems(t) by {
        forall k | 0 <= k < |t| ensures t[k] != x {
          assert t[k] == s[k];
        }
      }
      assert Elems(s) == Elems(t) + {x};
    }
  }

  ghost predicate OwnersWellFormed(w: Wallet) {
    && NoDuplicates(w.owners)
    && w.ownerSet == Elems(w.owners)
    && ZERO_ADDRESS !in w.ownerSet
    && w.required <= |w.owners|
    && (|w.owners| > 0 ==> 1 <= w.required)
  }

  /** Every count equals its row's number of true cells and fits in a `uint256`. */
  ghost predicate CountsMatchRows(w: Wallet) {
    forall i :: 0 <= i < |w.transactions| ==>
      && w.transactions[i].numConfirmations == |Row(w.confirmed, i)|
      && w.transactions[i].numConfirmations < U256_MODULUS
  }

  /** Only owners confirm, and only transactions that exist. */
  ghost predicate CellsInRange(w: Wallet) {
    forall c :: c in w.confirmed ==> c.0 < |w.transactions| && c.1 in w.ownerSet
  }

  ghost predicate Valid(w: Wallet) {
    OwnersWellFormed(w) && CountsMatchRows(w) && CellsInRange(w)
  }

  /** Rows at or beyond the end of the ledger are all false. */
  lemma RowsBeyondLedgerEmpty(w: Wallet, i: nat)
    requires CellsInRange(w)
    requires i >= |w.transactions|
    ensures Row(w.confirmed, i) == {}
  {
    forall a ensures !IsConfirmed(w.confirmed, i, a) {
    }
  }

  /** No transaction has more confirmations than the wallet has owners. */
  lemma ConfirmationsBounded(w: Wallet, i: nat)
    requires Valid(w)
    requires i < |w.transactions|
    ensures w.transactions[i].numConfirmations <= |w.owners|
  {
    assert Row(w.confirmed, i) <= w.ownerSet;
    DistinctCount(w.owners);
    assert |Row(w.confirmed, i)| <= |w.ownerSet| by {
      SubsetCard(Row(w.confirmed, i), w.ownerSet);
    }
  }

  lemma SubsetCard(a: set<Address>, b: set<Address>)
    requires a <= b
    ensures |a| <= |b|
  {
    assert b == a + (b - a);
  }

  /** The storage of a freshly deployed contract satisfies the invariant. */
  lemma DeployedValid()
    ensures Valid(Deployed())
  {
  }
}

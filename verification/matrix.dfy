/** The confirmation matrix `is_confirmed`: transaction index x address -> bool,
    held as the set of cells that read `true`. Confirm and revoke change it
    only through `SetCell` and `ClearCell`, whose contracts say how one row's
    count of true cells moves. */
module Matrix {
  import opened Types

  /** `is_confirmed[i][a]` */
  predicate IsConfirmed(m: set<(nat, Address)>, i: nat, a: Address) {
    (i, a) in m
  }

  /** The addresses whose cell in row `i` reads `true`. */
  function Row(m: set<(nat, Address)>, i: nat): (row: set<Address>)
    ensures forall a :: a in row <==> IsConfirmed(m, i, a)
  {
    set c | c in m && c.0 == i :: c.1
  }

  /** Sets `is_confirmed[i][a]` to `true`. */
  function SetCell(m: set<(nat, Address)>, i: nat, a: Address): (m': set<(nat, Address)>)
    requires !IsConfirmed(m, i, a)
    ensures IsConfirmed(m', i, a)
    ensures Row(m', i) == Row(m, i) + {a}
    ensures |Row(m', i)| == |Row(m, i)| + 1
    ensures forall j: nat, b: Address :: (j, b) != (i, a) ==> (IsConfirmed(m', j, b) <==> IsConfirmed(m, j, b))
    ensures forall j: nat :: j != i ==> Row(m', j) == Row(m, j)
  {
    var m' := m + {(i, a)};
    assert Row(m', i) == Row(m, i) + {a};
    m'
  }

  /** Sets `is_confirmed[i][a]` back to `false`. */
  function ClearCell(m: set<(nat, Address)>, i: nat, a: Address): (m': set<(nat, Address)>)
    requires IsConfirmed(m, i, a)
    ensures !IsConfirmed(m', i, a)
    ensures Row(m', i) == Row(m, i) - {a}
    ensures |Row(m', i)| + 1 == |Row(m, i)|
    ensures forall j: nat, b: Address :: (j, b) != (i, a) ==> (IsConfirmed(m', j, b) <==> IsConfirmed(m, j, b))
    ensures forall j: nat :: j != i ==> Row(m', j) == Row(m, j)
  {
    var m' := m - {(i, a)};
    assert Row(m', i) == Row(m, i) - {a};
    m'
  }

  /** Clearing a cell just set restores the matrix exactly. */
  lemma ClearUndoesSet(m: set<(nat, Address)>, i: nat, a: Address)
    requires !IsConfirmed(m, i, a)
    ensures ClearCell(SetCell(m, i, a), i, a) == m
  {
  }
}

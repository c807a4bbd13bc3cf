/** The split of rows over workers in src/qx_row_pool.h:82-84. */
module RowPartition {
  import opened Words
  import Division

  /** rows * i / workers, which both bounds of a worker's range are. */
  function Bound(rows: nat, i: nat, workers: nat): nat
    requires workers > 0
  {
    rows * i / workers
  }

  function Size(rows: nat, i: nat, workers: nat): int
    requires workers > 0
  {
    Bound(rows, i + 1, workers) - Bound(rows, i, workers)
  }

  /** The 64-bit products and the 32-bit quotients of the C code do not wrap. */
  lemma NoOverflow(rows: U32, i: nat, workers: nat)
    requires 2 <= workers <= 64 && i <= workers
    ensures rows * i < U64_LIMIT && Bound(rows, i, workers) <= rows
  {
    assert (workers - i) * rows >= 0;
    assert rows * i <= rows * workers;
    Division.QuotientBound(rows * i, rows, workers);
  }

  lemma Ends(rows: nat, workers: nat)
    requires workers > 0
    ensures Bound(rows, 0, workers) == 0 && Bound(rows, workers, workers) == rows
  {
    assert rows * 0 == 0;
    Division.ExactQuotient(rows, workers);
  }

  lemma NextBound(rows: nat, i: nat, workers: nat)
    requires workers > 0
    ensures Bound(rows, i, workers) <= Bound(rows, i + 1, workers)
  {
    assert rows * (i + 1) == rows * i + rows;
    Division.DivMonotone(rows * i, rows * (i + 1), workers);
  }

  lemma {:induction false} BoundMonotone(rows: nat, i: nat, j: nat, workers: nat)
    requires workers > 0 && i <= j
    ensures Bound(rows, i, workers) <= Bound(rows, j, workers)
    decreases j - i
  {
    if i < j {
      NextBound(rows, i, workers);
      BoundMonotone(rows, i + 1, j, workers);
    }
  }

  ghost predicate Owns(rows: nat, i: nat, workers: nat, r: nat)
    requires workers > 0
  {
    Bound(rows, i, workers) <= r < Bound(rows, i + 1, workers)
  }

  /** The ranges tile the rows: every row has one owner ... */
  lemma {:induction false} OwnerBelow(rows: nat, workers: nat, n: nat, r: nat) returns (i: nat)
    requires workers > 0 && n <= workers && r < Bound(rows, n, workers)
    ensures i < n && Owns(rows, i, workers, r)
  {
    Ends(rows, workers);
    if r >= Bound(rows, n - 1, workers) {
      i := n - 1;
    } else {
      i := OwnerBelow(rows, workers, n - 1, r);
    }
  }

  /** ... and only one. */
  lemma OneOwner(rows: nat, workers: nat, i: nat, j: nat, r: nat)
    requires workers > 0 && Owns(rows, i, workers, r) && Owns(rows, j, workers, r)
    ensures i == j
  {
    if i < j { BoundMonotone(rows, i + 1, j, workers); }
    if j < i { BoundMonotone(rows, j + 1, i, workers); }
  }

  /** The 2..64 ranges of any 32-bit row count cover each row exactly once. */
  lemma RangesTile(rows: U32, workers: nat, r: nat)
    requires 2 <= workers <= 64
    ensures r < rows <==> exists i :: 0 <= i < workers && Owns(rows, i, workers, r)
    ensures forall i, j {:trigger Owns(rows, i, workers, r), Owns(rows, j, workers, r)} ::
      0 <= i < workers && 0 <= j < workers && Owns(rows, i, workers, r) && Owns(rows, j, workers, r) ==> i == j
  {
    Ends(rows, workers);
    if r < rows { var i := OwnerBelow(rows, workers, workers, r); }
    forall i | 0 <= i < workers && Owns(rows, i, workers, r) ensures r < rows { NoOverflow(rows, i + 1, workers); }
    forall i, j | 0 <= i < workers && 0 <= j < workers && Owns(rows, i, workers, r) && Owns(rows, j, workers, r)
      ensures i == j
    {
      OneOwner(rows, workers, i, j, r);
    }
  }
}

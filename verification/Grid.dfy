/** Row-major numbering of a grid, by counting rows instead of multiplying. */
module Grid {

  /** The index of the first element of row `r` in a grid with rows of `n`: `r * n`, by counting. */
  function RowStart(n: nat, r: nat): (start: nat) {
    if r == 0 then 0 else RowStart(n, r - 1) + n
  }

  /** The row of element `k` in a grid with rows of `n`: `k / n`, by counting. */
  function RowOf(n: nat, k: nat): (r: nat)
    requires n > 0
    ensures RowStart(n, r) <= k < RowStart(n, r) + n
  {
    if k < n then 0
    else
      RowStartStep(n, RowOf(n, k - n));
      RowOf(n, k - n) + 1
  }

  function ColumnOf(n: nat, k: nat): (c: nat)
    requires n > 0
    ensures c < n && k == RowStart(n, RowOf(n, k)) + c
  {
    k - RowStart(n, RowOf(n, k))
  }

  lemma {:induction false} RowStartStep(n: nat, r: nat)
    ensures RowStart(n, r + 1) == RowStart(n, r) + n
  {
  }

  lemma {:induction false} RowStartIs(n: nat, r: nat)
    ensures RowStart(n, r) == r * n
  {
    if r > 0 {
      RowStartIs(n, r - 1);
      assert r * n == (r - 1) * n + n;
    }
  }

  lemma {:induction false} RowStartSum(n: nat, a: nat, b: nat)
    ensures RowStart(n, a + b) == RowStart(n, a) + RowStart(n, b)
  {
    if b > 0 {
      RowStartSum(n, a, b - 1);
      assert a + b - 1 == a + (b - 1);
    }
  }

  /** Rows that are longer by one. */
  lemma {:induction false} RowStartLonger(n: nat, r: nat)
    ensures RowStart(n + 1, r) == RowStart(n, r) + r
  {
    if r > 0 {
      RowStartLonger(n, r - 1);
    }
  }

  /** Rows of twice the length. */
  lemma {:induction false} RowStartDouble(n: nat, r: nat)
    ensures RowStart(2 * n, r) == 2 * RowStart(n, r)
  {
    if r > 0 {
      RowStartDouble(n, r - 1);
    }
  }

  lemma {:induction false} RowStartTwice(n: nat, r: nat)
    ensures RowStart(n, 2 * r) == 2 * RowStart(n, r)
  {
    if r > 0 {
      RowStartTwice(n, r - 1);
      RowStartStep(n, 2 * r - 1);
      RowStartStep(n, 2 * r - 2);
    }
  }

  /** A whole row fits between the starts of two rows. */
  lemma {:induction false} RowFits(n: nat, r: nat, rows: nat)
    requires r < rows
    ensures RowStart(n, r) + n <= RowStart(n, rows)
    decreases rows
  {
    if r < rows - 1 {
      RowFits(n, r, rows - 1);
    }
  }

  /** An index is in one row only. */
  lemma RowUnique(n: nat, r: nat, c: nat)
    requires c < n
    ensures RowOf(n, RowStart(n, r) + c) == r && ColumnOf(n, RowStart(n, r) + c) == c
  {
    var r' := RowOf(n, RowStart(n, r) + c);
    if r' < r {
      RowFits(n, r', r);
    } else if r < r' {
      RowFits(n, r, r');
    }
  }

  /** The elements of a grid are in its rows. */
  lemma RowBelow(n: nat, rows: nat, k: nat)
    requires n > 0 && k < RowStart(n, rows)
    ensures RowOf(n, k) < rows
  {
    if RowOf(n, k) > rows {
      RowFits(n, rows, RowOf(n, k));
    }
  }
}

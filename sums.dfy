/** Finite sums over the cells of a square board, indexed as f(x, y).
    RowSum adds the cells of column x for y in [lo, hi); GridSum adds whole
    columns for x in [lo, hi). Both are defined from the back so that the
    scan order of a nested x-then-y loop extends them by one term. */
module Sums {

  function RowSum(f: (int, int) -> int, x: int, lo: int, hi: int): int
    decreases hi - lo
  {
    if hi <= lo then 0 else RowSum(f, x, lo, hi - 1) + f(x, hi - 1)
  }

  function GridSum(f: (int, int) -> int, lo: int, hi: int, n: int): int
    decreases hi - lo
  {
    if hi <= lo then 0 else GridSum(f, lo, hi - 1, n) + RowSum(f, hi - 1, 0, n)
  }

  lemma {:induction false} RowSplit(f: (int, int) -> int, x: int, lo: int, mid: int, hi: int)
    requires lo <= mid <= hi
    ensures RowSum(f, x, lo, hi) == RowSum(f, x, lo, mid) + RowSum(f, x, mid, hi)
    decreases hi - mid
  {
    if mid < hi {
      RowSplit(f, x, lo, mid, hi - 1);
    }
  }

  lemma {:induction false} RowZero(f: (int, int) -> int, x: int, lo: int, hi: int)
    requires forall y :: lo <= y < hi ==> f(x, y) == 0
    ensures RowSum(f, x, lo, hi) == 0
    decreases hi - lo
  {
    if lo < hi {
      RowZero(f, x, lo, hi - 1);
    }
  }

  /** Two columns that agree pointwise (possibly shifted by d) have equal sums. */
  lemma {:induction false} RowShift(f: (int, int) -> int, h: (int, int) -> int, x: int, x': int, d: int, lo: int, hi: int)
    requires forall y :: lo <= y < hi ==> h(x, y) == f(x', y - d)
    ensures RowSum(h, x, lo, hi) == RowSum(f, x', lo - d, hi - d)
    decreases hi - lo
  {
    if lo < hi {
      RowShift(f, h, x, x', d, lo, hi - 1);
    }
  }

  lemma {:induction false} RowAdd(f: (int, int) -> int, g: (int, int) -> int, h: (int, int) -> int, x: int, lo: int, hi: int)
    requires forall y :: lo <= y < hi ==> h(x, y) == f(x, y) + g(x, y)
    ensures RowSum(h, x, lo, hi) == RowSum(f, x, lo, hi) + RowSum(g, x, lo, hi)
    decreases hi - lo
  {
    if lo < hi {
      RowAdd(f, g, h, x, lo, hi - 1);
    }
  }

  lemma {:induction false} RowNonneg(f: (int, int) -> int, x: int, lo: int, hi: int)
    requires forall y :: lo <= y < hi ==> f(x, y) >= 0
    ensures RowSum(f, x, lo, hi) >= 0
    decreases hi - lo
  {
    if lo < hi {
      RowNonneg(f, x, lo, hi - 1);
    }
  }

  /** Two columns that agree cell by cell have equal sums. */
  lemma {:induction false} RowCongruent(f: (int, int) -> int, h: (int, int) -> int, x: int, lo: int, hi: int)
    requires forall y :: lo <= y < hi ==> h(x, y) == f(x, y)
    ensures RowSum(h, x, lo, hi) == RowSum(f, x, lo, hi)
    decreases hi - lo
  {
    if lo < hi {
      RowCongruent(f, h, x, lo, hi - 1);
    }
  }

  /** Changing one cell of a column changes its sum by the difference. */
  lemma {:induction false} RowUpdate(f: (int, int) -> int, h: (int, int) -> int, x: int, j: int, lo: int, hi: int)
    requires lo <= j < hi
    requires forall y :: lo <= y < hi && y != j ==> h(x, y) == f(x, y)
    ensures RowSum(h, x, lo, hi) == RowSum(f, x, lo, hi) + h(x, j) - f(x, j)
    decreases hi - lo
  {
    if j < hi - 1 {
      RowUpdate(f, h, x, j, lo, hi - 1);
    } else {
      RowCongruent(f, h, x, lo, hi - 1);
    }
  }

  lemma {:induction false} GridSplit(f: (int, int) -> int, lo: int, mid: int, hi: int, n: int)
    requires lo <= mid <= hi
    ensures GridSum(f, lo, hi, n) == GridSum(f, lo, mid, n) + GridSum(f, mid, hi, n)
    decreases hi - mid
  {
    if mid < hi {
      GridSplit(f, lo, mid, hi - 1, n);
    }
  }

  lemma {:induction false} GridZero(f: (int, int) -> int, lo: int, hi: int, n: int)
    requires forall x :: lo <= x < hi ==> RowSum(f, x, 0, n) == 0
    ensures GridSum(f, lo, hi, n) == 0
    decreases hi - lo
  {
    if lo < hi {
      GridZero(f, lo, hi - 1, n);
    }
  }

  /** Sums of two boards whose columns agree (possibly shifted by d) are equal. */
  lemma {:induction false} GridShift(f: (int, int) -> int, h: (int, int) -> int, d: int, lo: int, hi: int, n: int)
    requires forall x :: lo <= x < hi ==> RowSum(h, x, 0, n) == RowSum(f, x - d, 0, n)
    ensures GridSum(h, lo, hi, n) == GridSum(f, lo - d, hi - d, n)
    decreases hi - lo
  {
    if lo < hi {
      GridShift(f, h, d, lo, hi - 1, n);
    }
  }

  lemma {:induction false} GridAdd(f: (int, int) -> int, g: (int, int) -> int, h: (int, int) -> int, lo: int, hi: int, n: int)
    requires forall x, y :: lo <= x < hi && 0 <= y < n ==> h(x, y) == f(x, y) + g(x, y)
    ensures GridSum(h, lo, hi, n) == GridSum(f, lo, hi, n) + GridSum(g, lo, hi, n)
    decreases hi - lo
  {
    if lo < hi {
      GridAdd(f, g, h, lo, hi - 1, n);
      RowAdd(f, g, h, hi - 1, 0, n);
    }
  }

  lemma {:induction false} GridNonneg(f: (int, int) -> int, lo: int, hi: int, n: int)
    requires forall x, y :: lo <= x < hi && 0 <= y < n ==> f(x, y) >= 0
    ensures GridSum(f, lo, hi, n) >= 0
    decreases hi - lo
  {
    if lo < hi {
      GridNonneg(f, lo, hi - 1, n);
      RowNonneg(f, hi - 1, 0, n);
    }
  }

  /** Boards that agree cell by cell on columns [lo, hi) have equal sums. */
  lemma {:induction false} GridCongruent(f: (int, int) -> int, h: (int, int) -> int, lo: int, hi: int, n: int)
    requires forall x, y :: lo <= x < hi && 0 <= y < n ==> h(x, y) == f(x, y)
    ensures GridSum(h, lo, hi, n) == GridSum(f, lo, hi, n)
    decreases hi - lo
  {
    if lo < hi {
      GridCongruent(f, h, lo, hi - 1, n);
      RowCongruent(f, h, hi - 1, 0, n);
    }
  }

  /** Changing one cell of a board changes its sum by the difference. */
  lemma {:induction false} GridUpdate(f: (int, int) -> int, h: (int, int) -> int, i: int, j: int, lo: int, hi: int, n: int)
    requires lo <= i < hi && 0 <= j < n
    requires forall x, y :: lo <= x < hi && 0 <= y < n && (x != i || y != j) ==> h(x, y) == f(x, y)
    ensures GridSum(h, lo, hi, n) == GridSum(f, lo, hi, n) + h(i, j) - f(i, j)
    decreases hi - lo
  {
    if i < hi - 1 {
      GridUpdate(f, h, i, j, lo, hi - 1, n);
      RowCongruent(f, h, hi - 1, 0, n);
    } else {
      GridCongruent(f, h, lo, hi - 1, n);
      RowUpdate(f, h, i, j, 0, n);
    }
  }
}

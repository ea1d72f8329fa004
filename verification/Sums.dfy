/** Finite sums over a row or a block of a grid, and the discrete calculus they obey. */
module Sums {
  import opened RealMath

  type Term = (int, int) -> real

  /** The sum of row `i` over lo <= j < hi. */
  function RowSum(f: Term, i: int, lo: int, hi: int): real
    decreases hi - lo
  {
    if hi <= lo then 0.0 else RowSum(f, i, lo, hi - 1) + f(i, hi - 1)
  }

  /** The sum over i0 <= i < i1 and lo <= j < hi. */
  function GridSum(f: Term, i0: int, i1: int, lo: int, hi: int): real
    decreases i1 - i0
  {
    if i1 <= i0 then 0.0 else GridSum(f, i0, i1 - 1, lo, hi) + RowSum(f, i1 - 1, lo, hi)
  }

  lemma {:induction false} RowSumEqual(f: Term, g: Term, i: int, k: int, lo: int, hi: int)
    requires forall j :: lo <= j < hi ==> f(i, j) == g(k, j)
    ensures RowSum(f, i, lo, hi) == RowSum(g, k, lo, hi)
    decreases hi - lo
  {
    if lo < hi {
      RowSumEqual(f, g, i, k, lo, hi - 1);
    }
  }

  lemma {:induction false} GridSumEqual(f: Term, g: Term, i0: int, i1: int, lo: int, hi: int)
    requires forall i, j :: i0 <= i < i1 && lo <= j < hi ==> f(i, j) == g(i, j)
    ensures GridSum(f, i0, i1, lo, hi) == GridSum(g, i0, i1, lo, hi)
    decreases i1 - i0
  {
    if i0 < i1 {
      GridSumEqual(f, g, i0, i1 - 1, lo, hi);
      RowSumEqual(f, g, i1 - 1, i1 - 1, lo, hi);
    }
  }

  lemma {:induction false} RowSumLinear(
    h: Term, f: Term, g: Term, a: real, b: real, i: int, lo: int, hi: int)
    requires forall j :: lo <= j < hi ==> h(i, j) == a * f(i, j) + b * g(i, j)
    ensures RowSum(h, i, lo, hi) == a * RowSum(f, i, lo, hi) + b * RowSum(g, i, lo, hi)
    decreases hi - lo
  {
    if lo < hi {
      RowSumLinear(h, f, g, a, b, i, lo, hi - 1);
      Distributes(a, RowSum(f, i, lo, hi - 1), f(i, hi - 1));
      Distributes(b, RowSum(g, i, lo, hi - 1), g(i, hi - 1));
    }
  }

  lemma Distributes(a: real, x: real, y: real)
    ensures a * (x + y) == a * x + a * y
  {
  }

  lemma {:induction false} GridSumLinear(
    h: Term, f: Term, g: Term, a: real, b: real, i0: int, i1: int, lo: int, hi: int)
    requires forall i, j :: i0 <= i < i1 && lo <= j < hi ==> h(i, j) == a * f(i, j) + b * g(i, j)
    ensures GridSum(h, i0, i1, lo, hi)
            == a * GridSum(f, i0, i1, lo, hi) + b * GridSum(g, i0, i1, lo, hi)
    decreases i1 - i0
  {
    if i0 < i1 {
      GridSumLinear(h, f, g, a, b, i0, i1 - 1, lo, hi);
      RowSumLinear(h, f, g, a, b, i1 - 1, lo, hi);
      Distributes(a, GridSum(f, i0, i1 - 1, lo, hi), RowSum(f, i1 - 1, lo, hi));
      Distributes(b, GridSum(g, i0, i1 - 1, lo, hi), RowSum(g, i1 - 1, lo, hi));
    }
  }

  lemma GridSumAdds(h: Term, f: Term, g: Term, i0: int, i1: int, lo: int, hi: int)
    requires forall i, j :: i0 <= i < i1 && lo <= j < hi ==> h(i, j) == f(i, j) + g(i, j)
    ensures GridSum(h, i0, i1, lo, hi) == GridSum(f, i0, i1, lo, hi) + GridSum(g, i0, i1, lo, hi)
  {
    GridSumLinear(h, f, g, 1.0, 1.0, i0, i1, lo, hi);
  }

  lemma GridSumScales(h: Term, f: Term, a: real, i0: int, i1: int, lo: int, hi: int)
    requires forall i, j :: i0 <= i < i1 && lo <= j < hi ==> h(i, j) == a * f(i, j)
    ensures GridSum(h, i0, i1, lo, hi) == a * GridSum(f, i0, i1, lo, hi)
  {
    GridSumLinear(h, f, f, a, 0.0, i0, i1, lo, hi);
  }

  lemma RowSumScales(h: Term, f: Term, a: real, i: int, lo: int, hi: int)
    requires forall j :: lo <= j < hi ==> h(i, j) == a * f(i, j)
    ensures RowSum(h, i, lo, hi) == a * RowSum(f, i, lo, hi)
  {
    RowSumLinear(h, f, f, a, 0.0, i, lo, hi);
  }

  lemma {:induction false} RowSumZero(f: Term, i: int, lo: int, hi: int)
    requires forall j :: lo <= j < hi ==> f(i, j) == 0.0
    ensures RowSum(f, i, lo, hi) == 0.0
    decreases hi - lo
  {
    if lo < hi {
      RowSumZero(f, i, lo, hi - 1);
    }
  }

  lemma {:induction false} GridSumZero(f: Term, i0: int, i1: int, lo: int, hi: int)
    requires forall i, j :: i0 <= i < i1 && lo <= j < hi ==> f(i, j) == 0.0
    ensures GridSum(f, i0, i1, lo, hi) == 0.0
    decreases i1 - i0
  {
    if i0 < i1 {
      GridSumZero(f, i0, i1 - 1, lo, hi);
      RowSumZero(f, i1 - 1, lo, hi);
    }
  }

  /** A row of differences along the row sums to the difference of its ends. */
  lemma {:induction false} RowTelescopes(d: Term, f: Term, i: int, lo: int, hi: int)
    requires lo <= hi
    requires forall j :: lo <= j < hi ==> d(i, j) == f(i, j) - f(i, j - 1)
    ensures RowSum(d, i, lo, hi) == f(i, hi - 1) - f(i, lo - 1)
    decreases hi - lo
  {
    if lo < hi {
      RowTelescopes(d, f, i, lo, hi - 1);
    }
  }

  /** The same over a block, row by row. */
  lemma {:induction false} GridTelescopesAlongRows(
    d: Term, f: Term, ends: Term, i0: int, i1: int, lo: int, hi: int)
    requires lo <= hi
    requires forall i, j :: i0 <= i < i1 && lo <= j < hi ==> d(i, j) == f(i, j) - f(i, j - 1)
    requires forall i :: i0 <= i < i1 ==> ends(0, i) == f(i, hi - 1) - f(i, lo - 1)
    ensures GridSum(d, i0, i1, lo, hi) == RowSum(ends, 0, i0, i1)
    decreases i1 - i0
  {
    if i0 < i1 {
      GridTelescopesAlongRows(d, f, ends, i0, i1 - 1, lo, hi);
      RowTelescopes(d, f, i1 - 1, lo, hi);
    }
  }

  /** A block of differences from row to row sums to the difference of its last and first row. */
  lemma {:induction false} GridTelescopesAcrossRows(
    d: Term, f: Term, i0: int, i1: int, lo: int, hi: int)
    requires i0 <= i1
    requires forall i, j :: i0 <= i < i1 && lo <= j < hi ==> d(i, j) == f(i, j) - f(i - 1, j)
    ensures GridSum(d, i0, i1, lo, hi) == RowSum(f, i1 - 1, lo, hi) - RowSum(f, i0 - 1, lo, hi)
    decreases i1 - i0
  {
    if i0 < i1 {
      GridTelescopesAcrossRows(d, f, i0, i1 - 1, lo, hi);
      RowOfDifferences(d, f, i1 - 1, lo, hi);
    }
  }

  lemma {:induction false} RowOfDifferences(d: Term, f: Term, i: int, lo: int, hi: int)
    requires forall j :: lo <= j < hi ==> d(i, j) == f(i, j) - f(i - 1, j)
    ensures RowSum(d, i, lo, hi) == RowSum(f, i, lo, hi) - RowSum(f, i - 1, lo, hi)
    decreases hi - lo
  {
    if lo < hi {
      RowOfDifferences(d, f, i, lo, hi - 1);
    }
  }

  /** Two terms that are a change less a gap, up to a seam that telescopes along each row. */
  lemma {:induction false} RowBalanceAlong(
    a: Term, b: Term, change: Term, gap: Term, seam: Term, i: int, lo: int, hi: int)
    requires lo <= hi
    requires forall j :: lo <= j < hi ==>
               a(i, j) + b(i, j) == change(i, j) - gap(i, j) - (seam(i, j) - seam(i, j - 1))
    ensures RowSum(a, i, lo, hi) + RowSum(b, i, lo, hi)
            == RowSum(change, i, lo, hi) - RowSum(gap, i, lo, hi) - (seam(i, hi - 1) - seam(i, lo - 1))
    decreases hi - lo
  {
    if lo < hi {
      RowBalanceAlong(a, b, change, gap, seam, i, lo, hi - 1);
    }
  }

  lemma {:induction false} GridBalanceAlongRows(
    a: Term, b: Term, change: Term, gap: Term, seam: Term, i0: int, i1: int, lo: int, hi: int)
    requires lo <= hi
    requires forall i, j :: i0 <= i < i1 && lo <= j < hi ==>
               a(i, j) + b(i, j) == change(i, j) - gap(i, j) - (seam(i, j) - seam(i, j - 1))
    requires forall i, j :: i0 <= i < i1 && (j == lo - 1 || j == hi - 1) ==> seam(i, j) == 0.0
    ensures GridSum(a, i0, i1, lo, hi) + GridSum(b, i0, i1, lo, hi)
            == GridSum(change, i0, i1, lo, hi) - GridSum(gap, i0, i1, lo, hi)
    decreases i1 - i0
  {
    if i0 < i1 {
      GridBalanceAlongRows(a, b, change, gap, seam, i0, i1 - 1, lo, hi);
      RowBalanceAlong(a, b, change, gap, seam, i1 - 1, lo, hi);
    }
  }

  /** The same with a seam that telescopes from row to row. */
  lemma {:induction false} RowBalanceAcross(
    a: Term, b: Term, change: Term, gap: Term, seam: Term, i: int, lo: int, hi: int)
    requires forall j :: lo <= j < hi ==>
               a(i, j) + b(i, j) == change(i, j) - gap(i, j) - (seam(i, j) - seam(i - 1, j))
    ensures RowSum(a, i, lo, hi) + RowSum(b, i, lo, hi)
            == RowSum(change, i, lo, hi) - RowSum(gap, i, lo, hi)
               - (RowSum(seam, i, lo, hi) - RowSum(seam, i - 1, lo, hi))
    decreases hi - lo
  {
    if lo < hi {
      RowBalanceAcross(a, b, change, gap, seam, i, lo, hi - 1);
    }
  }

  lemma {:induction false} GridBalanceAcrossRows(
    a: Term, b: Term, change: Term, gap: Term, seam: Term, i0: int, i1: int, lo: int, hi: int)
    requires i0 <= i1
    requires forall i, j :: i0 <= i < i1 && lo <= j < hi ==>
               a(i, j) + b(i, j) == change(i, j) - gap(i, j) - (seam(i, j) - seam(i - 1, j))
    ensures GridSum(a, i0, i1, lo, hi) + GridSum(b, i0, i1, lo, hi)
            == GridSum(change, i0, i1, lo, hi) - GridSum(gap, i0, i1, lo, hi)
               - (RowSum(seam, i1 - 1, lo, hi) - RowSum(seam, i0 - 1, lo, hi))
    decreases i1 - i0
  {
    if i0 < i1 {
      GridBalanceAcrossRows(a, b, change, gap, seam, i0, i1 - 1, lo, hi);
      RowBalanceAcross(a, b, change, gap, seam, i1 - 1, lo, hi);
    }
  }

  lemma {:induction false} RowSumBound(f: Term, w: Term, i: int, lo: int, hi: int)
    requires forall j :: lo <= j < hi ==> Abs(f(i, j)) <= w(i, j)
    ensures Abs(RowSum(f, i, lo, hi)) <= RowSum(w, i, lo, hi)
    decreases hi - lo
  {
    if lo < hi {
      RowSumBound(f, w, i, lo, hi - 1);
    }
  }

  lemma {:induction false} GridSumBound(f: Term, w: Term, i0: int, i1: int, lo: int, hi: int)
    requires forall i, j :: i0 <= i < i1 && lo <= j < hi ==> Abs(f(i, j)) <= w(i, j)
    ensures Abs(GridSum(f, i0, i1, lo, hi)) <= GridSum(w, i0, i1, lo, hi)
    decreases i1 - i0
  {
    if i0 < i1 {
      GridSumBound(f, w, i0, i1 - 1, lo, hi);
      RowSumBound(f, w, i1 - 1, lo, hi);
    }
  }

  lemma {:induction false} RowSumOfConstant(f: Term, c: real, i: int, lo: int, hi: int)
    requires lo <= hi
    requires forall j :: lo <= j < hi ==> f(i, j) == c
    ensures RowSum(f, i, lo, hi) == c * (hi - lo) as real
    decreases hi - lo
  {
    if lo < hi {
      RowSumOfConstant(f, c, i, lo, hi - 1);
      Distributes(c, (hi - 1 - lo) as real, 1.0);
    }
  }
}

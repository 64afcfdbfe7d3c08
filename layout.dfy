/** How a column-major gemm addresses its operands, checked against the
    tests' `Matrix` storage, and the tests' end-to-end scenario computed with
    an exact integer gemm standing in for the backend's floating point. */
module Layout {
  import Sycl
  import TestMatrix

  /** The position a column-major gemm reads element (i, j) of op(X) from,
      when X is stored with leading dimension `ld`. */
  function OpIndex(ld: int, t: Sycl.Transpose, i: int, j: int): int {
    if t == Sycl.Nontrans then j * ld + i else i * ld + j
  }

  /** With the matrix's own row count as leading dimension, the gemm reads
      op(X)(i, j) from the element the `Matrix` stores there: X(i, j), or
      X(j, i) when transposed. */
  lemma LeadingDimensionIsRowCount(nRows: int, nCols: int, t: Sycl.Transpose, i: int, j: int)
    requires t == Sycl.Nontrans ==> 0 <= i < nRows && 0 <= j < nCols
    requires t != Sycl.Nontrans ==> 0 <= j < nRows && 0 <= i < nCols
    ensures t == Sycl.Nontrans ==> OpIndex(nRows, t, i, j) == TestMatrix.Index(nRows, nCols, i, j)
    ensures t != Sycl.Nontrans ==> OpIndex(nRows, t, i, j) == TestMatrix.Index(nRows, nCols, j, i)
  {
  }

  /** The Sgemm test stores B as an `n` by `k` Matrix and passes it
      transposed with `ldB = k`. Unless `k == n`, every element of op(B)
      past its first row is then read from a position other than the one the
      Matrix stores it at. */
  lemma LdBDepthMisaddressesB(n: int, k: int, j: int, c: int)
    requires 0 <= c < n && 1 <= j < k && k != n
    ensures OpIndex(k, Sycl.Trans, j, c) != TestMatrix.Index(n, k, c, j)
  {
  }

  /** For n = 3, k = 2, op(B)(1, 0), stored at position 3, is read from
      position 2, where B(2, 0) is; for n = 1, k = 2 it is read from position
      2 of a buffer of 2 elements. */
  lemma LdBDepthCounterexample()
    ensures TestMatrix.Index(3, 2, 0, 1) == 3
    ensures OpIndex(2, Sycl.Trans, 1, 0) == 2 == TestMatrix.Index(3, 2, 2, 0)
    ensures OpIndex(2, Sycl.Trans, 1, 0) >= |ScenarioB(1, 2)|
  {
  }

  // ---------------------------------------------------------------------------
  // An exact gemm
  // ---------------------------------------------------------------------------

  /** Every element that a depth-`depth` dot product of row `r` of op(A)
      and column `c` of op(B) reads lies inside its buffer. */
  predicate DotInBounds(a: seq<int>, ldA: int, ta: Sycl.Transpose,
                        b: seq<int>, ldB: int, tb: Sycl.Transpose,
                        r: int, c: int, depth: nat)
  {
    forall p :: 0 <= p < depth ==>
      0 <= OpIndex(ldA, ta, r, p) < |a| && 0 <= OpIndex(ldB, tb, p, c) < |b|
  }

  /** The sum over p < depth of op(A)(r, p) * op(B)(p, c). */
  function Dot(a: seq<int>, ldA: int, ta: Sycl.Transpose,
               b: seq<int>, ldB: int, tb: Sycl.Transpose,
               r: int, c: int, depth: nat): int
    requires DotInBounds(a, ldA, ta, b, ldB, tb, r, c, depth)
  {
    if depth == 0 then 0
    else Dot(a, ldA, ta, b, ldB, tb, r, c, depth - 1)
         + a[OpIndex(ldA, ta, r, depth - 1)] * b[OpIndex(ldB, tb, depth - 1, c)]
  }

  /** Element (r, c) of alpha * op(A) * op(B) + beta * C in exact arithmetic. */
  function GemmAt(a: seq<int>, ldA: int, ta: Sycl.Transpose,
                  b: seq<int>, ldB: int, tb: Sycl.Transpose,
                  cIn: seq<int>, ldC: int, alpha: int, beta: int,
                  r: int, c: int, k: nat): int
    requires DotInBounds(a, ldA, ta, b, ldB, tb, r, c, k)
    requires 0 <= OpIndex(ldC, Sycl.Nontrans, r, c) < |cIn|
  {
    alpha * Dot(a, ldA, ta, b, ldB, tb, r, c, k) + beta * cIn[OpIndex(ldC, Sycl.Nontrans, r, c)]
  }

  // ---------------------------------------------------------------------------
  // The tests' scenario
  // ---------------------------------------------------------------------------

  /** A is m by k with column 0 set to 1 and everything else 0. */
  function ScenarioA(m: nat, k: nat): seq<int> {
    seq(m * k, i => if i < m then 1 else 0)
  }

  /** B is stored transposed, n by k, with column 0 set to 1. */
  function ScenarioB(n: nat, k: nat): seq<int> {
    seq(n * k, i => if i < n then 1 else 0)
  }

  /** C is m by n with C(r, c) = r * c. */
  function ScenarioC(m: nat, n: nat): seq<int> {
    seq(m * n, i => if m == 0 then 0 else (i % m) * (i / m))
  }

  /** `s` as a zero-filled buffer holds it once positions below `p` have been
      written and the rest not yet. */
  function Filled(s: seq<int>, p: int): (f: seq<int>)
    ensures |f| == |s|
    ensures p <= 0 ==> f == seq(|s|, _ => 0)
    ensures |s| <= p ==> f == s
  {
    seq(|s|, i requires 0 <= i < |s| => if i < p then s[i] else 0)
  }

  /** Writing position `p` with its final value extends the written prefix. */
  lemma FilledStep(s: seq<int>, p: int)
    requires 0 <= p < |s|
    ensures Filled(s, p)[p := s[p]] == Filled(s, p + 1)
  {
  }

  /** Builds the test's A: a zero-filled m by k `Matrix` with 1 written to
      each element of column 0, row by row. */
  method BuildScenarioA(m: nat, k: nat) returns (A: TestMatrix.Matrix<int>)
    requires 1 <= k
    ensures fresh(A) && A.Valid() && A.Allocated() && A.nRows == m && A.nCols == k
    ensures A.hostData[..] == ScenarioA(m, k)
  {
    A := new TestMatrix.Matrix(m, k, 0, 4);
    var r := 0;
    while r < m
      invariant 0 <= r <= m
      invariant A.hostData[..] == Filled(ScenarioA(m, k), r)
      modifies A.hostData
    {
      A.SetEl(r, 0, 1);
      FilledStep(ScenarioA(m, k), r);
      r := r + 1;
    }
  }

  /** Builds the test's B: a zero-filled n by k `Matrix` with 1 written to
      each element of column 0, which is row 0 of the B the gemm sees. */
  method BuildScenarioB(n: nat, k: nat) returns (B: TestMatrix.Matrix<int>)
    requires 1 <= k
    ensures fresh(B) && B.Valid() && B.Allocated() && B.nRows == n && B.nCols == k
    ensures B.hostData[..] == ScenarioB(n, k)
  {
    B := new TestMatrix.Matrix(n, k, 0, 4);
    var c := 0;
    while c < n
      invariant 0 <= c <= n
      invariant B.hostData[..] == Filled(ScenarioB(n, k), c)
      modifies B.hostData
    {
      B.SetEl(c, 0, 1);
      FilledStep(ScenarioB(n, k), c);
      c := c + 1;
    }
  }

  /** Builds the test's C: a zero-filled m by n `Matrix` with r * c written to
      each element (r, c), column after column. */
  method BuildScenarioC(m: nat, n: nat) returns (C: TestMatrix.Matrix<int>)
    ensures fresh(C) && C.Valid() && C.Allocated() && C.nRows == m && C.nCols == n
    ensures C.hostData[..] == ScenarioC(m, n)
  {
    C := new TestMatrix.Matrix(m, n, 0, 4);
    var c := 0;
    while c < n
      invariant 0 <= c <= n
      invariant C.hostData[..] == Filled(ScenarioC(m, n), c * m)
      modifies C.hostData
    {
      var r := 0;
      while r < m
        invariant 0 <= r <= m
        invariant C.hostData[..] == Filled(ScenarioC(m, n), c * m + r)
        modifies C.hostData
      {
        C.SetEl(r, c, r * c);
        ScenarioCAt(m, n, r, c);
        FilledStep(ScenarioC(m, n), c * m + r);
        r := r + 1;
      }
      assert c * m + m == (c + 1) * m;
      c := c + 1;
    }
    assert n * m == m * n;
  }

  /** Whatever leading dimension B is given, as long as every read stays in
      its buffer, each dot product of the scenario is 1: only column 0 of A
      is non-zero, and op(B)'s row 0 is read from the first n positions. */
  lemma {:induction false} ScenarioDot(m: nat, n: nat, k: nat, ldB: int, r: int, c: int, depth: nat)
    requires 0 <= r < m && 0 <= c < n && 1 <= depth <= k
    requires DotInBounds(ScenarioA(m, k), m, Sycl.Nontrans, ScenarioB(n, k), ldB, Sycl.Trans, r, c, depth)
    ensures Dot(ScenarioA(m, k), m, Sycl.Nontrans, ScenarioB(n, k), ldB, Sycl.Trans, r, c, depth) == 1
  {
    var a, b := ScenarioA(m, k), ScenarioB(n, k);
    if depth == 1 {
      assert OpIndex(m, Sycl.Nontrans, r, 0) == r;
      assert OpIndex(ldB, Sycl.Trans, 0, c) == c;
    } else {
      var p := depth - 1;
      ScenarioDot(m, n, k, ldB, r, c, depth - 1);
      TestMatrix.MulMonotone(1, p, m);
      assert OpIndex(m, Sycl.Nontrans, r, p) >= m;
      assert a[OpIndex(m, Sycl.Nontrans, r, p)] == 0;
    }
  }

  /** The reads of the scenario with `ldB = n` all stay inside the buffers. */
  lemma ScenarioInBounds(m: nat, n: nat, k: nat, r: int, c: int)
    requires 0 <= r < m && 0 <= c < n && 1 <= k
    ensures DotInBounds(ScenarioA(m, k), m, Sycl.Nontrans, ScenarioB(n, k), n, Sycl.Trans, r, c, k)
    ensures 0 <= OpIndex(m, Sycl.Nontrans, r, c) < |ScenarioC(m, n)|
  {
    forall p | 0 <= p < k
      ensures 0 <= OpIndex(m, Sycl.Nontrans, r, p) < |ScenarioA(m, k)|
      ensures 0 <= OpIndex(n, Sycl.Trans, p, c) < |ScenarioB(n, k)|
    {
      assert OpIndex(m, Sycl.Nontrans, r, p) == TestMatrix.Index(m, k, r, p);
      assert OpIndex(n, Sycl.Trans, p, c) == TestMatrix.Index(n, k, c, p);
    }
    assert OpIndex(m, Sycl.Nontrans, r, c) == TestMatrix.Index(m, n, r, c);
  }

  /** C(r, c) = r * c is what the scenario's C holds at position (r, c). */
  lemma ScenarioCAt(m: nat, n: nat, r: int, c: int)
    requires 0 <= r < m && 0 <= c < n
    ensures ScenarioC(m, n)[TestMatrix.Index(m, n, r, c)] == r * c
  {
    var i := TestMatrix.Index(m, n, r, c);
    TestMatrix.IndexOnto(m, n, i);
    TestMatrix.IndexInjective(m, n, r, c, i % m, i / m);
  }

  lemma ScenarioResult(alpha: int, beta: int, r: int, c: int, dot: int, cIn: int)
    requires dot == 1 && cIn == r * c
    ensures alpha * dot + beta * cIn == alpha + beta * r * c
  {
    assert beta * (r * c) == beta * r * c;
  }

  /** With A passed with `ldA = m`, B transposed with `ldB = n` and C with
      `ldC = m`, every element of the result is alpha + beta * r * c. */
  lemma SgemmScenario(m: nat, n: nat, k: nat, alpha: int, beta: int, r: int, c: int)
    requires 0 <= r < m && 0 <= c < n && 1 <= k
    ensures DotInBounds(ScenarioA(m, k), m, Sycl.Nontrans, ScenarioB(n, k), n, Sycl.Trans, r, c, k)
    ensures 0 <= OpIndex(m, Sycl.Nontrans, r, c) < |ScenarioC(m, n)|
    ensures GemmAt(ScenarioA(m, k), m, Sycl.Nontrans, ScenarioB(n, k), n, Sycl.Trans,
                   ScenarioC(m, n), m, alpha, beta, r, c, k) == alpha + beta * r * c
  {
    ScenarioInBounds(m, n, k, r, c);
    ScenarioDot(m, n, k, n, r, c, k);
    ScenarioCAt(m, n, r, c);
    ScenarioResult(alpha, beta, r, c,
                   Dot(ScenarioA(m, k), m, Sycl.Nontrans, ScenarioB(n, k), n, Sycl.Trans, r, c, k),
                   ScenarioC(m, n)[OpIndex(m, Sycl.Nontrans, r, c)]);
  }

  /** The expected values cannot reveal the wrong `ldB`: whenever the reads
      with `ldB = k` stay in the buffer, they produce the same results. */
  lemma SgemmScenarioIgnoresLdB(m: nat, n: nat, k: nat, alpha: int, beta: int, r: int, c: int)
    requires 0 <= r < m && 0 <= c < n && 1 <= k
    requires DotInBounds(ScenarioA(m, k), m, Sycl.Nontrans, ScenarioB(n, k), k, Sycl.Trans, r, c, k)
    ensures 0 <= OpIndex(m, Sycl.Nontrans, r, c) < |ScenarioC(m, n)|
    ensures GemmAt(ScenarioA(m, k), m, Sycl.Nontrans, ScenarioB(n, k), k, Sycl.Trans,
                   ScenarioC(m, n), m, alpha, beta, r, c, k) == alpha + beta * r * c
  {
    ScenarioInBounds(m, n, k, r, c);
    ScenarioDot(m, n, k, k, r, c, k);
    ScenarioCAt(m, n, r, c);
    ScenarioResult(alpha, beta, r, c,
                   Dot(ScenarioA(m, k), m, Sycl.Nontrans, ScenarioB(n, k), k, Sycl.Trans, r, c, k),
                   ScenarioC(m, n)[OpIndex(m, Sycl.Nontrans, r, c)]);
  }
}

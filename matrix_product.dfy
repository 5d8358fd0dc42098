/**
  The matrix product as a mathematical definition over nested views, and the
  algebraic laws it obeys on exact integers: identity on both sides,
  associativity, and the worked 2-by-2 example.
 */
module MatrixProduct {
  import opened RowMajor

  /** Entry (i, j) of A, or 0 when (i, j) lies outside A. */
  function At(A: seq<seq<int>>, i: int, j: int): int {
    if 0 <= i < |A| && 0 <= j < |A[i]| then A[i][j] else 0
  }

  /** f(0) + f(1) + ... + f(n - 1). */
  function Sum(n: nat, f: int -> int): int {
    if n == 0 then 0 else Sum(n - 1, f) + f(n - 1)
  }

  /** The first n terms of the dot product of row i of A with column j of B. */
  function Dot(A: seq<seq<int>>, B: seq<seq<int>>, i: int, j: int, n: nat): int {
    Sum(n, k => At(A, i, k) * At(B, k, j))
  }

  /** The product of an m-by-n matrix A and an n-by-p matrix B. */
  function Product(A: seq<seq<int>>, B: seq<seq<int>>, m: nat, n: nat, p: nat): (C: seq<seq<int>>)
    ensures IsShape(C, m, p)
  {
    seq(m, i => seq(p, j => Dot(A, B, i, j, n)))
  }

  /** The n-by-n identity matrix. */
  function Identity(n: nat): (I: seq<seq<int>>)
    ensures IsShape(I, n, n)
  {
    seq(n, i => seq(n, j => if i == j then 1 else 0))
  }

  /** Sums of pointwise-equal terms are equal. */
  lemma {:induction false} SumExt(n: nat, f: int -> int, g: int -> int)
    requires forall k :: 0 <= k < n ==> f(k) == g(k)
    ensures Sum(n, f) == Sum(n, g)
  {
    if n > 0 {
      SumExt(n - 1, f, g);
    }
  }

  /** The sum of termwise sums is the sum of the two sums. */
  lemma {:induction false} SumAdd(n: nat, f: int -> int, g: int -> int, h: int -> int)
    requires forall k :: 0 <= k < n ==> h(k) == f(k) + g(k)
    ensures Sum(n, h) == Sum(n, f) + Sum(n, g)
  {
    if n > 0 {
      SumAdd(n - 1, f, g, h);
    }
  }

  /** A factor common to every term can be taken out of the sum (on the left). */
  lemma {:induction false} SumScaleLeft(n: nat, x: int, f: int -> int, g: int -> int)
    requires forall k :: 0 <= k < n ==> g(k) == x * f(k)
    ensures Sum(n, g) == x * Sum(n, f)
  {
    if n > 0 {
      SumScaleLeft(n - 1, x, f, g);
      assert x * Sum(n, f) == x * Sum(n - 1, f) + x * f(n - 1);
    }
  }

  /** A factor common to every term can be taken out of the sum (on the right). */
  lemma {:induction false} SumScaleRight(n: nat, x: int, f: int -> int, g: int -> int)
    requires forall k :: 0 <= k < n ==> g(k) == f(k) * x
    ensures Sum(n, g) == Sum(n, f) * x
  {
    if n > 0 {
      SumScaleRight(n - 1, x, f, g);
      assert Sum(n, f) * x == Sum(n - 1, f) * x + f(n - 1) * x;
    }
  }

  /** A sum whose only nonzero term is term j equals that term. */
  lemma {:induction false} SumSingle(n: nat, j: nat, f: int -> int)
    requires j < n
    requires forall k :: 0 <= k < n && k != j ==> f(k) == 0
    ensures Sum(n, f) == f(j)
  {
    if n - 1 == j {
      SumZero(n - 1, f);
    } else {
      SumSingle(n - 1, j, f);
    }
  }

  /** A sum of zeros is zero. */
  lemma {:induction false} SumZero(n: nat, f: int -> int)
    requires forall k :: 0 <= k < n ==> f(k) == 0
    ensures Sum(n, f) == 0
  {
    if n > 0 {
      SumZero(n - 1, f);
    }
  }

  /** The order of summation of a double sum can be exchanged. */
  lemma {:induction false} SumSwap(n: nat, p: nat, g: (int, int) -> int)
    ensures Sum(n, k => Sum(p, j => g(k, j))) == Sum(p, j => Sum(n, k => g(k, j)))
  {
    if n == 0 {
      SumZero(p, j => Sum(n, k => g(k, j)));
    } else {
      SumSwap(n - 1, p, g);
      SumAdd(p, j => Sum(n - 1, k => g(k, j)), j => g(n - 1, j), j => Sum(n, k => g(k, j)));
    }
  }

  /** Multiplying by the identity on the right leaves a matrix unchanged. */
  lemma ProductIdentityRight(A: seq<seq<int>>, m: nat, n: nat)
    requires IsShape(A, m, n)
    ensures Product(A, Identity(n), m, n, n) == A
  {
    var P := Product(A, Identity(n), m, n, n);
    forall i | 0 <= i < m
      ensures P[i] == A[i]
    {
      forall j | 0 <= j < n
        ensures P[i][j] == A[i][j]
      {
        SumSingle(n, j, k => At(A, i, k) * At(Identity(n), k, j));
      }
    }
  }

  /** Multiplying by the identity on the left leaves a matrix unchanged. */
  lemma ProductIdentityLeft(A: seq<seq<int>>, m: nat, n: nat)
    requires IsShape(A, m, n)
    ensures Product(Identity(m), A, m, m, n) == A
  {
    var P := Product(Identity(m), A, m, m, n);
    forall i | 0 <= i < m
      ensures P[i] == A[i]
    {
      forall j | 0 <= j < n
        ensures P[i][j] == A[i][j]
      {
        SumSingle(m, i, k => At(Identity(m), i, k) * At(A, k, j));
      }
    }
  }

  /** Cell (i, l) of (A B) C and of A (B C) are the same double sum. */
  lemma ProductAssociativeAt(A: seq<seq<int>>, B: seq<seq<int>>, C: seq<seq<int>>,
                             m: nat, n: nat, p: nat, q: nat, i: nat, l: nat)
    requires i < m && l < q
    ensures At(Product(Product(A, B, m, n, p), C, m, p, q), i, l)
         == At(Product(A, Product(B, C, n, p, q), m, n, q), i, l)
  {
    var AB := Product(A, B, m, n, p);
    var BC := Product(B, C, n, p, q);
    var g := (k: int, j: int) => At(A, i, k) * At(B, k, j) * At(C, j, l);
    // Left side: distribute each column term over the inner sum.
    forall j | 0 <= j < p
      ensures At(AB, i, j) * At(C, j, l) == Sum(n, k => g(k, j))
    {
      SumScaleRight(n, At(C, j, l), k => At(A, i, k) * At(B, k, j), k => g(k, j));
    }
    SumExt(p, j => At(AB, i, j) * At(C, j, l), j => Sum(n, k => g(k, j)));
    // Exchange the two summations.
    SumSwap(n, p, g);
    // Right side: take the row factor out of the inner sum.
    forall k | 0 <= k < n
      ensures Sum(p, j => g(k, j)) == At(A, i, k) * At(BC, k, l)
    {
      SumScaleLeft(p, At(A, i, k), j => At(B, k, j) * At(C, j, l), j => g(k, j));
    }
    SumExt(n, k => Sum(p, j => g(k, j)), k => At(A, i, k) * At(BC, k, l));
  }

  /** Matrix multiplication is associative on exact integers. */
  lemma ProductAssociative(A: seq<seq<int>>, B: seq<seq<int>>, C: seq<seq<int>>,
                           m: nat, n: nat, p: nat, q: nat)
    ensures Product(Product(A, B, m, n, p), C, m, p, q)
         == Product(A, Product(B, C, n, p, q), m, n, q)
  {
    var L := Product(Product(A, B, m, n, p), C, m, p, q);
    var R := Product(A, Product(B, C, n, p, q), m, n, q);
    forall i | 0 <= i < m
      ensures L[i] == R[i]
    {
      forall l | 0 <= l < q
        ensures L[i][l] == R[i][l]
      {
        ProductAssociativeAt(A, B, C, m, n, p, q, i, l);
      }
    }
  }

  /** The worked example: [[1,2],[3,4]] times [[5,6],[7,8]] is [[19,22],[43,50]]. */
  lemma ProductExample()
    ensures Product([[1, 2], [3, 4]], [[5, 6], [7, 8]], 2, 2, 2) == [[19, 22], [43, 50]]
  {
    var A: seq<seq<int>> := [[1, 2], [3, 4]];
    var B: seq<seq<int>> := [[5, 6], [7, 8]];
    assert Dot(A, B, 0, 0, 2) == 1 * 5 + 2 * 7;
    assert Dot(A, B, 0, 1, 2) == 1 * 6 + 2 * 8;
    assert Dot(A, B, 1, 0, 2) == 3 * 5 + 4 * 7;
    assert Dot(A, B, 1, 1, 2) == 3 * 6 + 4 * 8;
    var P := Product(A, B, 2, 2, 2);
    assert P[0] == [19, 22] && P[1] == [43, 50];
    assert P == [P[0], P[1]];
  }
}

/**
  The MathH library: a dense integer matrix stored in one row-major buffer,
  and the textbook i-j-k matrix product.
 */
module MathH {
  import opened RowMajor
  import opened MatrixProduct

  /** Why a construction or a product is refused. */
  datatype Error =
    | InconsistentRowLength  // a row of the nested list differs in length from the first row
    | DimensionMismatch      // the columns of the left operand differ from the rows of the right one

  datatype Result<T> = Success(value: T) | Failure(error: Error)

  /**
    A rows-by-cols matrix whose entries live in one buffer in row-major order:
    entry (r, c) is data[r * cols + c]. The shape and the buffer itself are
    fixed at construction; only the buffer's entries change afterwards.
   */
  class Matrix {
    const rowCount: nat
    const colCount: nat
    const data: array<int>

    /** The buffer holds exactly rows * cols entries. */
    ghost predicate Valid() {
      data.Length == rowCount * colCount
    }

    /** The matrix as a sequence of rows. */
    ghost function View(): seq<seq<int>>
      reads data
      requires Valid()
    {
      Unflatten(data[..], rowCount, colCount)
    }

    /** A rows-by-cols matrix with every entry zero. */
    constructor (rows: nat, cols: nat)
      ensures Valid() && fresh(data)
      ensures rowCount == rows && colCount == cols
      ensures data[..] == seq(rows * cols, _ => 0)
      ensures forall r, c :: 0 <= r < rows && 0 <= c < cols ==> Get(r, c) == 0
    {
      rowCount, colCount := rows, cols;
      data := new int[rows * cols](_ => 0);
      new;
      forall r, c | 0 <= r < rows && 0 <= c < cols
        ensures Get(r, c) == 0
      {
        IndexInBounds(rows, cols, r, c);
      }
    }

    /**
      A matrix from a non-empty list of rows. It has as many rows as the list
      and as many columns as its first row; the rows are copied in order into
      the buffer. Fails when some row's length differs from the first row's.
     */
    static method FromRows(values: seq<seq<int>>) returns (res: Result<Matrix>)
      requires |values| > 0
      ensures res.Failure? <==> exists r :: 0 <= r < |values| && |values[r]| != |values[0]|
      ensures res.Failure? ==> res.error == InconsistentRowLength
      ensures res.Success? ==>
        && fresh(res.value) && fresh(res.value.data) && res.value.Valid()
        && res.value.rowCount == |values| && res.value.colCount == |values[0]|
        && res.value.data[..] == Flatten(values)
        && res.value.View() == values
    {
      var m := new Matrix(|values|, |values[0]|);
      var i := 0;
      for r := 0 to m.rowCount
        invariant i == r * m.colCount && i <= m.data.Length
        invariant forall r' :: 0 <= r' < r ==> |values[r']| == m.colCount
        invariant m.data[..i] == Flatten(values[..r])
      {
        if |values[r]| != m.colCount {
          return Failure(InconsistentRowLength);
        }
        for c := 0 to m.colCount
          invariant i == r * m.colCount + c && i <= m.data.Length
          invariant m.data[..i] == Flatten(values[..r]) + values[r][..c]
        {
          IndexInBounds(m.rowCount, m.colCount, r, c);
          ghost var done := m.data[..i];
          m.data[i] := values[r][c];
          assert m.data[..i + 1] == done + [values[r][c]];
          assert values[r][..c + 1] == values[r][..c] + [values[r][c]];
          i := i + 1;
        }
        assert values[..r + 1] == values[..r] + [values[r]];
        FlattenAppend(values[..r], [values[r]]);
        assert (r + 1) * m.colCount == r * m.colCount + m.colCount;
      }
      assert values[..m.rowCount] == values;
      assert m.data[..] == m.data[..i];
      UnflattenFlatten(values, m.rowCount, m.colCount);
      return Success(m);
    }

    /** Reads entry (r, c). */
    function Get(r: nat, c: nat): (v: int)
      reads data
      requires Valid() && r < rowCount && c < colCount
      ensures v == View()[r][c]
    {
      UnflattenAt(data[..], rowCount, colCount, r, c);
      data[r * colCount + c]
    }

    /** Writes entry (r, c); every other entry and the shape stay as they were. */
    method Set(r: nat, c: nat, v: int)
      requires Valid() && r < rowCount && c < colCount
      modifies data
      ensures View() == old(View())[r := old(View())[r][c := v]]
    {
      ghost var before := data[..];
      UnflattenUpdate(before, rowCount, colCount, r, c, v);
      var k := r * colCount + c;
      data[k] := v;
      assert data[..] == before[k := v];
    }

    /** The number of rows. */
    function Rows(): (n: nat)
      reads data
      requires Valid()
      ensures n == |View()|
    {
      rowCount
    }

    /** The number of columns: the length of every row, and the buffer length divided by the rows. */
    function Cols(): (n: nat)
      reads data
      requires Valid()
      ensures forall r :: 0 <= r < |View()| ==> |View()[r]| == n
      ensures Rows() * n == data.Length
    {
      colCount
    }
  }

  /**
    The product A B. Fails, before allocating anything, when the columns of A
    differ from the rows of B; otherwise returns a new rows(A)-by-cols(B)
    matrix whose entry (i, j) is the dot product of row i of A and column j
    of B. A and B are only read.
   */
  method Multiply(A: Matrix, B: Matrix) returns (res: Result<Matrix>)
    requires A.Valid() && B.Valid()
    ensures res.Failure? <==> A.Cols() != B.Rows()
    ensures res.Failure? ==> res.error == DimensionMismatch
    ensures res.Success? ==>
      && fresh(res.value) && fresh(res.value.data) && res.value.Valid()
      && res.value.Rows() == A.Rows() && res.value.Cols() == B.Cols()
      && res.value.View() == Product(A.View(), B.View(), A.Rows(), A.Cols(), B.Cols())
  {
    if A.Cols() != B.Rows() {
      return Failure(DimensionMismatch);
    }
    ghost var a, b := A.View(), B.View();
    var m, n, p := A.Rows(), A.Cols(), B.Cols();
    var C := new Matrix(m, p);
    var i := 0;
    while i < m
      invariant 0 <= i <= m
      invariant forall i', j' :: 0 <= i' < i && 0 <= j' < p ==> C.View()[i'][j'] == Dot(a, b, i', j', n)
    {
      var j := 0;
      while j < p
        invariant 0 <= j <= p
        invariant forall i', j' :: 0 <= i' < i && 0 <= j' < p ==> C.View()[i'][j'] == Dot(a, b, i', j', n)
        invariant forall j' :: 0 <= j' < j ==> C.View()[i][j'] == Dot(a, b, i, j', n)
      {
        var sum := 0;
        var k := 0;
        while k < n
          invariant 0 <= k <= n
          invariant sum == Dot(a, b, i, j, k)
        {
          sum := sum + A.Get(i, k) * B.Get(k, j);
          k := k + 1;
        }
        C.Set(i, j, sum);
        j := j + 1;
      }
      i := i + 1;
    }
    ghost var P := Product(a, b, m, n, p);
    forall i' | 0 <= i' < m
      ensures C.View()[i'] == P[i']
    {
    }
    return Success(C);
  }

  /** What a caller can conclude from the contracts above alone. */
  method UsageExamples()
  {
    var a := Matrix.FromRows([[1, 2], [3, 4]]);
    var b := Matrix.FromRows([[5, 6], [7, 8]]);
    assert a.Success? by { assert |[[1, 2], [3, 4]][1]| == 2; }
    assert b.Success? by { assert |[[5, 6], [7, 8]][1]| == 2; }
    var c := Multiply(a.value, b.value);
    ProductExample();
    assert c.Success? && c.value.View() == [[19, 22], [43, 50]];

    var wide := Matrix.FromRows([[1, 2, 3], [4, 5, 6]]);
    assert wide.Success? by { assert |[[1, 2, 3], [4, 5, 6]][1]| == 3; }
    var bad := Multiply(wide.value, b.value);
    assert bad == Failure(DimensionMismatch);

    var ragged := Matrix.FromRows([[1, 2], [3]]);
    assert ragged == Failure(InconsistentRowLength) by { assert |[[1, 2], [3]][1]| != 2; }
  }
}

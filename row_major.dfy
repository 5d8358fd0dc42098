/**
  Row-major layout of a rows-by-cols matrix in one flat buffer: element (r, c)
  lives at linear index r * cols + c. This module relates the flat buffer to
  the nested view (a sequence of rows) and proves the index arithmetic.
 */
module RowMajor {

  /** v has exactly `rows` rows, each holding exactly `cols` entries. */
  predicate IsShape(v: seq<seq<int>>, rows: nat, cols: nat) {
    |v| == rows && forall r :: 0 <= r < |v| ==> |v[r]| == cols
  }

  /** The rows of v concatenated in order. */
  function Flatten(v: seq<seq<int>>): seq<int> {
    if v == [] then [] else v[0] + Flatten(v[1..])
  }

  /** Cuts a buffer of rows * cols entries into consecutive rows of cols entries. */
  function Unflatten(s: seq<int>, rows: nat, cols: nat): (v: seq<seq<int>>)
    requires |s| == rows * cols
    ensures IsShape(v, rows, cols)
    decreases rows
  {
    if rows == 0 then []
    else
      assert |s| == (rows - 1) * cols + cols;
      [s[..cols]] + Unflatten(s[cols..], rows - 1, cols)
  }

  /** The linear index of an in-range cell is inside the buffer. */
  lemma IndexInBounds(rows: nat, cols: nat, r: nat, c: nat)
    requires r < rows && c < cols
    ensures r * cols + c < rows * cols
  {
    assert rows * cols == (r + 1) * cols + (rows - r - 1) * cols;
  }

  /** Distinct in-range cells have distinct linear indices. */
  lemma IndexInjective(cols: nat, r1: nat, c1: nat, r2: nat, c2: nat)
    requires c1 < cols && c2 < cols
    requires r1 * cols + c1 == r2 * cols + c2
    ensures r1 == r2 && c1 == c2
  {
    if r1 != r2 {
      var lo, hi := if r1 < r2 then r1 else r2, if r1 < r2 then r2 else r1;
      IndexInBounds(hi, cols, lo, if r1 < r2 then c1 else c2);
      assert false;
    }
  }

  /** Concatenating two row sequences concatenates their buffers. */
  lemma {:induction false} FlattenAppend(v: seq<seq<int>>, w: seq<seq<int>>)
    ensures Flatten(v + w) == Flatten(v) + Flatten(w)
  {
    if v == [] {
      assert v + w == w;
    } else {
      assert (v + w)[0] == v[0];
      assert (v + w)[1..] == v[1..] + w;
      FlattenAppend(v[1..], w);
    }
  }

  /** A rows-by-cols nested matrix flattens to a buffer of rows * cols entries. */
  lemma {:induction false} FlattenLength(v: seq<seq<int>>, rows: nat, cols: nat)
    requires IsShape(v, rows, cols)
    ensures |Flatten(v)| == rows * cols
  {
    if rows > 0 {
      FlattenLength(v[1..], rows - 1, cols);
      assert rows * cols == (rows - 1) * cols + cols;
    }
  }

  /** Cell (r, c) of the nested view sits at linear index r * cols + c of the buffer. */
  lemma {:induction false} UnflattenAt(s: seq<int>, rows: nat, cols: nat, r: nat, c: nat)
    requires |s| == rows * cols && r < rows && c < cols
    ensures r * cols + c < |s|
    ensures Unflatten(s, rows, cols)[r][c] == s[r * cols + c]
  {
    IndexInBounds(rows, cols, r, c);
    assert |s| == (rows - 1) * cols + cols;
    if r > 0 {
      UnflattenAt(s[cols..], rows - 1, cols, r - 1, c);
      assert (r - 1) * cols + c + cols == r * cols + c;
    }
  }

  /** Cell (r, c) of a rectangular nested matrix is entry r * cols + c of its flattening. */
  lemma FlattenAt(v: seq<seq<int>>, rows: nat, cols: nat, r: nat, c: nat)
    requires IsShape(v, rows, cols) && r < rows && c < cols
    ensures r * cols + c < |Flatten(v)|
    ensures Flatten(v)[r * cols + c] == v[r][c]
  {
    FlattenLength(v, rows, cols);
    UnflattenFlatten(v, rows, cols);
    UnflattenAt(Flatten(v), rows, cols, r, c);
  }

  /** Cutting the flattening of a rectangular matrix gives back its rows. */
  lemma {:induction false} UnflattenFlatten(v: seq<seq<int>>, rows: nat, cols: nat)
    requires IsShape(v, rows, cols)
    ensures |Flatten(v)| == rows * cols
    ensures Unflatten(Flatten(v), rows, cols) == v
  {
    FlattenLength(v, rows, cols);
    if rows > 0 {
      var s := Flatten(v);
      assert s == v[0] + Flatten(v[1..]);
      assert s[..cols] == v[0];
      assert s[cols..] == Flatten(v[1..]);
      UnflattenFlatten(v[1..], rows - 1, cols);
      assert v == [v[0]] + v[1..];
    }
  }

  /** Concatenating the rows of the nested view gives back the buffer. */
  lemma {:induction false} FlattenUnflatten(s: seq<int>, rows: nat, cols: nat)
    requires |s| == rows * cols
    ensures Flatten(Unflatten(s, rows, cols)) == s
  {
    if rows > 0 {
      assert |s| == (rows - 1) * cols + cols;
      var v := Unflatten(s, rows, cols);
      assert v[1..] == Unflatten(s[cols..], rows - 1, cols);
      FlattenUnflatten(s[cols..], rows - 1, cols);
      assert s == s[..cols] + s[cols..];
    }
  }

  /**
    Writing one entry of the buffer at the linear index of (r, c) changes cell
    (r, c) of the nested view and no other cell.
   */
  lemma UnflattenUpdate(s: seq<int>, rows: nat, cols: nat, r: nat, c: nat, x: int)
    requires |s| == rows * cols && r < rows && c < cols
    ensures r * cols + c < |s|
    ensures Unflatten(s[r * cols + c := x], rows, cols)
         == Unflatten(s, rows, cols)[r := Unflatten(s, rows, cols)[r][c := x]]
  {
    IndexInBounds(rows, cols, r, c);
    var k := r * cols + c;
    var u := Unflatten(s, rows, cols);
    var u' := Unflatten(s[k := x], rows, cols);
    var w := u[r := u[r][c := x]];
    forall i | 0 <= i < rows
      ensures u'[i] == w[i]
    {
      forall j | 0 <= j < cols
        ensures u'[i][j] == w[i][j]
      {
        UnflattenAt(s, rows, cols, i, j);
        UnflattenAt(s[k := x], rows, cols, i, j);
        if i * cols + j == k {
          IndexInjective(cols, i, j, r, c);
        }
      }
    }
  }
}

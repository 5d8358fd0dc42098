# MathH in Dafny

A model of the MathH library (`include/MathH/MathH.h`). The library has two parts:

- `Matrix<T>`: a dense matrix of fixed shape. It keeps `rows_`, `cols_` and one contiguous buffer `data_` of `rows_ * cols_` entries in row-major order, so entry (r, c) is `data_[r * cols_ + c]`. There are two constructors:
  - the shape constructor, which zero-fills the buffer;
  - the nested-list constructor, which copies rows in order and throws "Inconsistent row length".
  
  It also has a read accessor, a write accessor, and the `rows()` / `cols()` getters.
- `MathHClass<T>::multiply`: the textbook i-j-k triple loop. It refuses operands whose inner dimensions differ. Otherwise it allocates a zeroed `rows(A) x cols(B)` result and fills each cell with the dot product of a row of A and a column of B.

The element type `T` is fixed to `int`, so all arithmetic is exact.

Files:

- `row_major.dfy` (module `RowMajor`): the row-major layout. `Flatten` concatenates rows into a buffer and `Unflatten` cuts a buffer into rows. Lemmas prove the index arithmetic (bounds, injectivity), the two round trips, and that a one-entry write to the buffer changes exactly one cell of the nested view.
- `matrix_product.dfy` (module `MatrixProduct`): the mathematical product over nested views (`Sum`, `Dot`, `Product`, `Identity`). It proves the laws the product obeys on exact integers: identity on both sides, associativity, and the 2x2 worked example.
- `mathh.dfy` (module `MathH`): the library itself.
  - `class Matrix` holds `const` fields `rowCount`, `colCount` and `data: array<int>`. The shape and the buffer are fixed once constructed; only the entries change.
  - Its members are the shape constructor, `FromRows` (the nested-list constructor), `Get` and `Set` (the two `operator()` overloads), and `Rows` / `Cols`.
  - The top-level method `Multiply` is `MathHClass::multiply`, with the source's three nested loops. It is proved to return exactly `Product(A.View(), B.View(), …)`.
  - Thrown `std::runtime_error`s become `Result.Failure` values carrying an `Error`: `InconsistentRowLength` or `DimensionMismatch`.

The header's comments mention checks that "could be added"; the model follows the code as written, without them:

- Zero-sized shapes are accepted and give an empty buffer. The code never rejects them; the comment at `MathH.h:41` says the exception is not thrown.
- Out-of-range accessor calls are a precondition, not an error value. The code does no bounds check (comment at `MathH.h:86`).

## Model

| member | source | states |
|---|---|---|
| `MathH.Matrix.constructor` | include/MathH/MathH.h:43-44 | The new matrix has the given rows and cols. Its buffer is fresh, holds rows*cols entries, and all of them are zero, so every cell reads 0. |
| `MathH.Matrix.FromRows` | include/MathH/MathH.h:63-76 | Fails with `InconsistentRowLength` exactly when some row's length differs from the first row's. On success: rows = number of lists, cols = length of the first list, the buffer is the rows concatenated in order, and the nested view equals the input. |
| `MathH.Matrix.Get` | include/MathH/MathH.h:103-106 | Reading through the linear index r*cols+c yields cell (r, c) of the nested view, for every in-range (r, c). |
| `MathH.Matrix.Set` | include/MathH/MathH.h:88-91 | Writing through the accessor changes cell (r, c) to the new value. Every other cell is unchanged, and the shape is unchanged (it is `const`). |
| `MathH.Matrix.Rows` | include/MathH/MathH.h:113 | Returns the stored row count, which is the number of rows of the nested view. It has no side effects. |
| `MathH.Matrix.Cols` | include/MathH/MathH.h:120 | Returns the stored column count, which is the length of every row. Rows times it is the buffer length. |
| `MathH.Multiply` | include/MathH/MathH.h:128-149 | Fails with `DimensionMismatch` exactly when cols(A) != rows(B). Otherwise it returns a fresh rows(A) x cols(B) matrix equal to the mathematical product of A and B. A and B are not modified. |
| `RowMajor.IndexInBounds` | include/MathH/MathH.h:103-106 | r < rows and c < cols imply r*cols + c < rows*cols: the accessor stays inside the buffer. |
| `RowMajor.IndexInjective` | include/MathH/MathH.h:88-91 | Two in-range cells with the same linear index are the same cell, so a write through one cell's index touches no other cell. |
| `RowMajor.FlattenAppend` | include/MathH/MathH.h:68-75 | Copying one more row with the running index extends the buffer by exactly that row. |
| `RowMajor.FlattenLength` | include/MathH/MathH.h:67-75 | A rows-by-cols nested list fills exactly rows*cols buffer entries. |
| `RowMajor.FlattenAt` | include/MathH/MathH.h:68-75 | After the copy, entry r*cols+c of the buffer is `values[r][c]`. |
| `RowMajor.UnflattenAt` | include/MathH/MathH.h:26-28 | Cell (r, c) of the nested view of a buffer is entry r*cols + c: the layout is row-major. |
| `RowMajor.UnflattenFlatten` | include/MathH/MathH.h:63-76 | Cutting the concatenation of a rectangular list of rows gives back those rows. |
| `RowMajor.FlattenUnflatten` | include/MathH/MathH.h:26-28 | Concatenating the rows of the nested view gives back the buffer. |
| `RowMajor.UnflattenUpdate` | include/MathH/MathH.h:88-91 | Writing buffer entry r*cols + c changes cell (r, c) of the nested view and nothing else. |
| `MatrixProduct.Product` | include/MathH/MathH.h:135-148 | The product of an m-by-n and an n-by-p matrix is m-by-p. |
| `MatrixProduct.ProductIdentityRight` | include/MathH/MathH.h:135-148 | A times the identity is A. |
| `MatrixProduct.ProductIdentityLeft` | include/MathH/MathH.h:135-148 | The identity times A is A. |
| `MatrixProduct.ProductAssociativeAt` | include/MathH/MathH.h:141-144 | Cell (i, l) of (A B) C equals cell (i, l) of A (B C). |
| `MatrixProduct.ProductAssociative` | include/MathH/MathH.h:135-148 | (A B) C = A (B C) for compatible shapes, exactly, on integers. |
| `MatrixProduct.ProductExample` | include/MathH/MathH.h:135-148 | [[1,2],[3,4]] times [[5,6],[7,8]] is [[19,22],[43,50]]. |

## Left out

- The `double` accumulator of `multiply` and its narrowing back to `T` (lines 140 and 145) are not modelled. Sums are exact integers, so floating-point rounding is not captured.
- The template parameter `T` is fixed to `int`. Floating-point instantiations cannot be reasoned about exactly.
- `size_t` arithmetic is unbounded (`nat`). A `rows * cols` that would wrap around 2^64 is not modelled.
- MathH.Matrix.FromRows: requires a non-empty outer list. On an empty list the source dereferences `values.begin()`, which is undefined behaviour.
- MathH.Matrix.FromRows: is a static method, not a constructor, because a Dafny constructor cannot fail. On failure the partly filled buffer is discarded, as the thrown exception discards it in the source.
- MathH.Matrix.Get, MathH.Matrix.Set: an out-of-range (r, c) is a precondition. The source does no bounds check, and such a call is undefined behaviour there.
- MathH.Matrix.Set: the mutable `operator()` returns a `T&` that callers may keep and write through later. The model offers the immediate write (`Set`) and the read (`Get`); a stored reference and its aliasing are not captured.
- MathH.Multiply: its contract does not state that nothing is allocated on the failure path. The method does check the dimensions before allocating.
- `MathHClass` has no state, so `multiply` is a module-level method, not a class member.
- The text of the exception messages is reduced to the two `Error` values.
- Copy construction and copy assignment of `Matrix` (the implicit C++ value semantics) are not modelled. Every matrix the model creates has a fresh buffer.
- The unused type aliases `V1D`, `V2D`, `V3D` (lines 16-18) have no behaviour.

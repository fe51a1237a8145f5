/**
 * An off-screen render target: a column-major grid of cells, `b[x][y]` being
 * the cell in column x and row y.  A buffer is created with fixed, positive
 * dimensions and every cell starts as New(0).
 */
module Buffers {
  import opened CellOptions
  import opened Cells

  /** A pair of integers: a width and a height, or a column and a row. */
  datatype Point = Point(x: int, y: int)

  /** The one error of this component: a width or a height that is not positive. */
  datatype Error = InvalidDimension(size: Point)

  datatype Result<T> = Ok(value: T) | Err(error: Error)

  /** A slice of columns, each a slice of the cells of its rows. */
  type Buffer = seq<seq<Cell>>

  /** Every column is as tall as the first one. */
  predicate Rectangular(b: Buffer) {
    forall x :: 0 <= x < |b| ==> |b[x]| == |b[0]|
  }

  /** No two positions of the grid hold the same cell object. */
  predicate Unaliased(b: Buffer) {
    forall x, y, x', y' ::
      0 <= x < |b| && 0 <= y < |b[x]| && 0 <= x' < |b| && 0 <= y' < |b[x']| && (x != x' || y != y')
      ==> b[x][y] != b[x'][y']
  }

  /** A size a buffer can be created with: at least one column and one row. */
  predicate ValidSize(size: Point) {
    size.x > 0 && size.y > 0
  }

  /** The dimensions of a buffer, read from its shape: the number of columns and the height of the first. */
  function Size(b: Buffer): (size: Point)
    requires |b| > 0
    ensures size.x == |b|
    ensures Rectangular(b) ==> forall x :: 0 <= x < |b| ==> |b[x]| == size.y
    ensures ValidSize(size) <==> |b[0]| > 0
  {
    Point(|b|, |b[0]|)
  }

  /**
   * Allocates a size.x by size.y grid of fresh, distinct cells equal to New(0),
   * or fails with InvalidDimension when either dimension is not positive.
   */
  method NewBuffer(size: Point) returns (res: Result<Buffer>)
    ensures res.Err? <==> !ValidSize(size)
    ensures res.Err? ==> res.error == InvalidDimension(size)
    ensures res.Ok? ==> |res.value| > 0 && Rectangular(res.value) && Size(res.value) == size
    ensures res.Ok? ==> Unaliased(res.value)
    ensures res.Ok? ==> forall x, y :: 0 <= x < |res.value| && 0 <= y < |res.value[x]| ==>
      fresh(res.value[x][y]) && res.value[x][y].Value() == CellValue(0, EmptyOptions)
  {
    if size.x <= 0 || size.y <= 0 {
      return Err(InvalidDimension(size));
    }
    var cols: Buffer := [];
    while |cols| < size.x
      invariant |cols| <= size.x
      invariant forall x :: 0 <= x < |cols| ==> |cols[x]| == size.y
      invariant forall x, y :: 0 <= x < |cols| && 0 <= y < |cols[x]| ==>
        fresh(cols[x][y]) && cols[x][y].Value() == CellValue(0, EmptyOptions)
      invariant Unaliased(cols)
    {
      var column: seq<Cell> := [];
      while |column| < size.y
        invariant |column| <= size.y
        invariant forall y :: 0 <= y < |column| ==>
          fresh(column[y]) && column[y].Value() == CellValue(0, EmptyOptions)
        invariant forall y, y' :: 0 <= y < |column| && 0 <= y' < |column| && y != y' ==> column[y] != column[y']
        invariant forall y, x, y' :: 0 <= y < |column| && 0 <= x < |cols| && 0 <= y' < |cols[x]| ==>
          column[y] != cols[x][y']
        invariant forall x, y :: 0 <= x < |cols| && 0 <= y < |cols[x]| ==>
          cols[x][y].Value() == CellValue(0, EmptyOptions)
      {
        var c := new Cell.New(0, []);
        column := column + [c];
      }
      cols := cols + [column];
    }
    return Ok(cols);
  }
}

/** The block coordinates of the tetris matrix and the I-shaped tetromino.
    A block is named by one integer id, read row by row over a matrix
    `width` blocks wide; its column `x` and row `y` are kept in step with
    the id whichever of the three is assigned. */
module Tetrominos {

  /** Python's `math.floor(a / b)` on integers (for nonzero `b`).  Dafny's
      `/` is Euclidean, which agrees with the floor only for positive `b`. */
  function FloorDiv(a: int, b: int): (q: int)
    requires b != 0
    ensures b > 0 ==> q * b <= a < q * b + b
    ensures b < 0 ==> q * b + b < a <= q * b
  {
    if b > 0 then a / b else (-a) / (-b)
  }

  /** A block's place in the matrix: column `x`, row `y`. */
  datatype Cell = Cell(x: int, y: int)

  /** What the `id` setter stores for `id`: the floored row and the column
      left over. */
  function Decode(id: int, width: int): Cell
    requires width != 0
  {
    var y := FloorDiv(id, width);
    Cell(id - y * width, y)
  }

  /** What the `x` and `y` setters store in `_id`. */
  function Encode(c: Cell, width: int): int {
    c.y * width + c.x
  }

  /** Decoding an id always re-encodes to that id; with a positive width the
      column lands in 0..width-1, and with a negative one in width+1..0. */
  lemma DecodeBounds(id: int, width: int)
    requires width != 0
    ensures Encode(Decode(id, width), width) == id
    ensures width > 0 ==> 0 <= Decode(id, width).x < width
    ensures width < 0 ==> width < Decode(id, width).x <= 0
  {
  }

  /** A cell whose column lies in 0..width-1 is the only such cell with its
      id: decoding its id gives it back. */
  lemma EncodeDecode(c: Cell, width: int)
    requires width > 0 && 0 <= c.x < width
    ensures Decode(Encode(c, width), width) == c
  {
    var id := Encode(c, width);
    FloorUnique(id, width, FloorDiv(id, width), c.y);
  }

  /** Only one row `q` has `q * b <= a < q * b + b`. */
  lemma FloorUnique(a: int, b: int, q: int, r: int)
    requires b > 0
    requires q * b <= a < q * b + b && r * b <= a < r * b + b
    ensures q == r
  {
    if q < r {
      MulLess(q, r, b);
    } else if r < q {
      MulLess(r, q, b);
    }
  }

  lemma MulLess(q: int, r: int, b: int)
    requires q < r && b > 0
    ensures q * b + b <= r * b
  {
    var d := r - q;
    assert r * b == q * b + d * b;
    assert d * b == (d - 1) * b + b;
    assert (d - 1) * b >= 0;
  }

  /** `Coordinate(12, -11)`: the floor puts id -11 in row -1, column 1
      (truncation would give row 0, column -11). */
  lemma NegativeIdFloors()
    ensures Decode(-11, 12) == Cell(1, -1)
  {
  }

  /** The matrix width of the game. */
  const MatrixWidth: int := 12

  /** The block ids of the two shapes of the I tetromino: lying flat, and
      standing up. */
  const IShapeIds: seq<seq<int>> := [[0, 1, 2, 3], [-11, 1, 13, 25]]

  function DecodeAll(ids: seq<int>, width: int): (cs: seq<Cell>)
    requires width != 0
    ensures |cs| == |ids|
    ensures forall k :: 0 <= k < |ids| ==> cs[k] == Decode(ids[k], width)
  {
    if ids == [] then [] else [Decode(ids[0], width)] + DecodeAll(ids[1..], width)
  }

  /** Four cells in a row or in a column, one step apart. */
  predicate StraightLine(cs: seq<Cell>) {
    |cs| == 4 &&
    ((forall k :: 0 < k < 4 ==> cs[k].y == cs[0].y && cs[k].x == cs[0].x + k) ||
     (forall k :: 0 < k < 4 ==> cs[k].x == cs[0].x && cs[k].y == cs[0].y + k))
  }

  lemma DecodeFour(a: int, b: int, c: int, d: int, width: int)
    requires width != 0
    ensures DecodeAll([a, b, c, d], width) == [Decode(a, width), Decode(b, width), Decode(c, width), Decode(d, width)]
  {
  }

  /** On the 12-wide matrix the flat I covers columns 0..3 of row 0: a
      straight line of four blocks. */
  lemma FlatCells()
    ensures DecodeAll(IShapeIds[0], MatrixWidth) == [Cell(0, 0), Cell(1, 0), Cell(2, 0), Cell(3, 0)]
    ensures StraightLine(DecodeAll(IShapeIds[0], MatrixWidth))
  {
    DecodeFour(0, 1, 2, 3, MatrixWidth);
  }

  /** On the 12-wide matrix the standing I covers rows -1..2 of column 1: a
      straight line of four blocks. */
  lemma StandingCells()
    ensures DecodeAll(IShapeIds[1], MatrixWidth) == [Cell(1, -1), Cell(1, 0), Cell(1, 1), Cell(1, 2)]
    ensures StraightLine(DecodeAll(IShapeIds[1], MatrixWidth))
  {
    DecodeFour(-11, 1, 13, 25, MatrixWidth);
  }

  /** The block coordinate `Coordinate`, with its three property setters. */
  class Coordinate {
    /** `_width`. */
    const width: int
    /** `_id`, `_x`, `_y`. */
    var id: int
    var x: int
    var y: int

    /** The id is the encoding of the column and row. */
    ghost predicate Consistent()
      reads this
    {
      id == Encode(Cell(x, y), width)
    }

    /** `Coordinate(width, index)`: the id setter runs on `index`. */
    constructor (width: int, index: int)
      requires width != 0
      ensures this.width == width && id == index && Cell(x, y) == Decode(index, width)
      ensures Consistent()
    {
      this.width := width;
      new;
      SetId(index);
    }

    /** The `id` setter: the row is the floor of id/width and the column the
        remainder. */
    method SetId(num: int)
      requires width != 0
      modifies this
      ensures id == num && Cell(x, y) == Decode(num, width)
      ensures Consistent()
    {
      id := num;
      y := FloorDiv(num, width);
      x := num - y * width;
      DecodeBounds(num, width);
    }

    /** The `x` setter: the row stays and the id follows; the column is not
        bounds-checked. */
    method SetX(num: int)
      modifies this
      ensures x == num && y == old(y) && id == Encode(Cell(num, old(y)), width)
      ensures Consistent()
    {
      x := num;
      id := y * width + num;
    }

    /** The `y` setter: the column stays and the id follows. */
    method SetY(num: int)
      modifies this
      ensures y == num && x == old(x) && id == Encode(Cell(old(x), num), width)
      ensures Consistent()
    {
      y := num;
      id := num * width + x;
    }
  }

  /** `(shape_id + 1) % 2`: Python's `%` by 2 is never negative, like Dafny's. */
  function NextShapeId(s: int): (t: int)
    ensures t == 0 || t == 1
    ensures t != s % 2
  {
    (s + 1) % 2
  }

  /** Rotating twice restores a shape id in {0, 1}. */
  lemma RotateTwice(s: int)
    requires s == 0 || s == 1
    ensures NextShapeId(NextShapeId(s)) == s
  {
  }

  /** The I tetromino: its position, which of its two shapes is showing,
      and its horizontal moving direction. */
  class IShape {
    const position: Coordinate
    var shapeId: int
    var movingDirection: int

    /** `IShape(settings)`: shape 1 (standing), at column 4 of row 0, static. */
    constructor (matrixWidth: int)
      requires matrixWidth != 0
      ensures fresh(position) && position.width == matrixWidth
      ensures position.x == 4 && position.y == 0 && position.id == 4 && position.Consistent()
      ensures shapeId == 1 && movingDirection == 0
    {
      var p := new Coordinate(matrixWidth, 0);
      p.SetX(4);
      position := p;
      shapeId := 1;
      movingDirection := 0;
    }

    /** `drop()`: one row down; the column stays and the id grows by a row. */
    method Drop()
      requires position.Consistent()
      modifies position
      ensures position.y == old(position.y) + 1 && position.x == old(position.x)
      ensures position.id == old(position.id) + position.width && position.Consistent()
    {
      position.SetY(position.y + 1);
    }

    /** `move()`: `movingDirection` columns across; the row stays. */
    method Move()
      requires position.Consistent()
      modifies position
      ensures position.x == old(position.x) + movingDirection && position.y == old(position.y)
      ensures position.id == old(position.id) + movingDirection && position.Consistent()
    {
      position.SetX(position.x + movingDirection);
    }

    /** `rotate()`: switch between the two shapes. */
    method Rotate()
      modifies this
      ensures shapeId == NextShapeId(old(shapeId)) && movingDirection == old(movingDirection)
      ensures old(shapeId) == 0 || old(shapeId) == 1 ==> shapeId == 1 - old(shapeId)
    {
      shapeId := (shapeId + 1) % 2;
    }
  }
}

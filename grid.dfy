/** Coordinates, the eight compass directions and the row-major layout of the 9x9 board. */
module Grid {

  datatype Option<T> = None | Some(value: T)

  /** Number of columns and of rows. */
  const Size: int := 9
  /** Number of cells on the board. */
  const CellCount: int := 81

  /** A board coordinate (column, row); row 0 is the top edge, column 0 the left edge. */
  datatype Coord = Coord(x: int, y: int)

  /** The eight neighbour names of a Node; the first four double as the names of its walls. */
  datatype Direction = Up | Down | Left | Right | UpRight | UpLeft | DownRight | DownLeft
  {
    /** One of the four wall sides. */
    predicate Orthogonal() {
      this == Up || this == Down || this == Left || this == Right
    }

    /** The direction's name contains "up". */
    predicate HasUp() {
      this == Up || this == UpRight || this == UpLeft
    }

    /** The direction's name contains "down". */
    predicate HasDown() {
      this == Down || this == DownRight || this == DownLeft
    }

    /** The direction's name contains "left". */
    predicate HasLeft() {
      this == Left || this == UpLeft || this == DownLeft
    }

    /** The direction's name contains "right". */
    predicate HasRight() {
      this == Right || this == UpRight || this == DownRight
    }
  }

  /** The (column, row) offset of each neighbour. */
  function Offset(d: Direction): (int, int) {
    match d
    case Up => (0, -1)
    case Down => (0, 1)
    case Right => (1, 0)
    case Left => (-1, 0)
    case UpRight => (1, -1)
    case UpLeft => (-1, -1)
    case DownRight => (1, 1)
    case DownLeft => (-1, 1)
  }

  /** The coordinate next to c in direction d; no bounds check, as on the board's nodes. */
  function Nearby(c: Coord, d: Direction): Coord {
    Coord(c.x + Offset(d).0, c.y + Offset(d).1)
  }

  /** The direction leading back; anything that is not up, down or left maps to left. */
  function OppositeDirection(d: Direction): (r: Direction)
    ensures r.Orthogonal()
    ensures d.Orthogonal() ==> Offset(r) == (-Offset(d).0, -Offset(d).1)
    ensures !d.Orthogonal() ==> r == Left
  {
    match d
    case Up => Down
    case Down => Up
    case Left => Right
    case _ => Left
  }

  /** Whether a move in direction d goes up or down the board; None stands for False. */
  function UpOrDown(d: Direction): (r: Option<Direction>)
    ensures r == Some(Up) <==> Offset(d).1 < 0
    ensures r == Some(Down) <==> Offset(d).1 > 0
    ensures r.None? <==> Offset(d).1 == 0
  {
    if d.HasUp() then Some(Up)
    else if d.HasDown() then Some(Down)
    else None
  }

  /** Stepping one side and then back returns to the start. */
  lemma OppositeUndoesStep(c: Coord, d: Direction)
    requires d.Orthogonal()
    ensures OppositeDirection(OppositeDirection(d)) == d
    ensures Nearby(Nearby(c, d), OppositeDirection(d)) == c
  {
  }

  /** The two corners of the board. */
  const OuterBounds: (Coord, Coord) := (Coord(0, 0), Coord(8, 8))

  /** Whether a coordinate lies inside the outer bounds. */
  function IsOnBoard(c: Coord): (r: bool)
    ensures r <==> 0 <= c.x < Size && 0 <= c.y < Size
  {
    OuterBounds.0.x <= c.x <= OuterBounds.1.x && OuterBounds.0.y <= c.y <= OuterBounds.1.y
  }

  /** The coordinate of the k-th cell in row-major order. */
  function CoordOf(k: int): Coord {
    Coord(k % Size, k / Size)
  }

  /** The position of an on-board coordinate in row-major order; inverse of CoordOf. */
  function Index(c: Coord): (k: int)
    requires IsOnBoard(c)
    ensures 0 <= k < CellCount
    ensures CoordOf(k) == c
  {
    c.y * Size + c.x
  }

  /** CoordOf names every cell on the board, and Index undoes it. */
  lemma CoordOfIndex(k: int)
    requires 0 <= k < CellCount
    ensures IsOnBoard(CoordOf(k))
    ensures Index(CoordOf(k)) == k
  {
  }

  /** Two on-board coordinates with the same index are equal. */
  lemma IndexInjective(a: Coord, b: Coord)
    requires IsOnBoard(a) && IsOnBoard(b)
    ensures Index(a) == Index(b) <==> a == b
  {
  }
}

/** The cells of the board, their set-once walls, and the board that holds the 81 of them. */
module Board {
  import opened Grid

  /** One playable square: its name, the player standing on it, and one wall flag per side. */
  datatype Node = Node(name: Coord, occupant: Option<int>, up: bool, down: bool, left: bool, right: bool)

  /** Outcome of setting a wall flag: placed now, or "Wall already exists". */
  datatype WallResult = Placed | AlreadyExists

  /** The wall flag on side d of a node. */
  function Wall(n: Node, d: Direction): bool
    requires d.Orthogonal()
  {
    match d
    case Up => n.up
    case Down => n.down
    case Left => n.left
    case Right => n.right
  }

  /** The node with the wall on side d raised; a wall already there stays as it is. */
  function WithWall(n: Node, d: Direction): (r: Node)
    requires d.Orthogonal()
    ensures Wall(r, d)
    ensures forall e: Direction :: e.Orthogonal() && e != d ==> Wall(r, e) == Wall(n, e)
    ensures forall e: Direction :: e.Orthogonal() && Wall(n, e) ==> Wall(r, e)
    ensures r.name == n.name && r.occupant == n.occupant
    ensures Wall(n, d) ==> r == n
  {
    match d
    case Up => n.(up := true)
    case Down => n.(down := true)
    case Left => n.(left := true)
    case Right => n.(right := true)
  }

  /** A freshly created node: nobody on it and no walls. */
  function BlankNode(name: Coord): Node {
    Node(name, None, false, false, false, false)
  }

  /** The node as establish_outer_fences leaves it: the last node of the list gets its bottom
      and right walls, every other node the walls its name puts on the board's edge. */
  function OuterFenced(n: Node, isLast: bool): Node {
    if isLast then WithWall(WithWall(n, Down), Right)
    else
      var n1 := if n.name.x == 0 then WithWall(n, Left) else n;
      var n2 := if n.name.y == 0 then WithWall(n1, Up) else n1;
      var n3 := if n.name.y == Size - 1 then WithWall(n2, Down) else n2;
      if n.name.x == Size - 1 then WithWall(n3, Right) else n3
  }

  /** The cells as create_board lays them out: the k-th node is named CoordOf(k). */
  function BlankCells(): seq<Node> {
    seq(CellCount, k => BlankNode(CoordOf(k)))
  }

  /** The cells once the outer fences are established. */
  function FreshCells(): seq<Node> {
    seq(CellCount, k requires 0 <= k < CellCount => OuterFenced(BlankCells()[k], k == CellCount - 1))
  }

  /** 81 cells in row-major order, each named by its own coordinate. */
  ghost predicate Named(cells: seq<Node>) {
    |cells| == CellCount && forall k :: 0 <= k < CellCount ==> cells[k].name == CoordOf(k)
  }

  /** Every outward-facing edge of the board is walled. */
  ghost predicate OuterWalled(cells: seq<Node>)
    requires |cells| == CellCount
  {
    forall k :: 0 <= k < CellCount ==>
      (CoordOf(k).y == 0 ==> cells[k].up) && (CoordOf(k).y == Size - 1 ==> cells[k].down) &&
      (CoordOf(k).x == 0 ==> cells[k].left) && (CoordOf(k).x == Size - 1 ==> cells[k].right)
  }

  /** Each interior edge is seen the same way from both cells that share it. */
  ghost predicate Mirrored(cells: seq<Node>)
    requires |cells| == CellCount
  {
    && (forall k :: 0 < k < CellCount && k % Size != 0 ==> cells[k].left == cells[k - 1].right)
    && (forall k :: Size <= k < CellCount ==> cells[k].up == cells[k - Size].down)
  }

  /** find_board_node: the first node at or after pos whose name is c, if any. */
  function FindBoardNode(cells: seq<Node>, c: Coord, pos: nat): (r: Option<nat>)
    decreases |cells| - pos
    ensures r.Some? ==> pos <= r.value < |cells| && cells[r.value].name == c
    ensures r.Some? ==> forall j :: pos <= j < r.value ==> cells[j].name != c
    ensures r.None? ==> forall j :: pos <= j < |cells| ==> cells[j].name != c
  {
    if pos >= |cells| then None
    else if cells[pos].name == c then Some(pos)
    else FindBoardNode(cells, c, pos + 1)
  }

  /** find_player_node: the first node at or after pos that holds player p, if any. */
  function FindPlayerNode(cells: seq<Node>, p: int, pos: nat): (r: Option<nat>)
    decreases |cells| - pos
    ensures r.Some? ==> pos <= r.value < |cells| && cells[r.value].occupant == Some(p)
    ensures r.Some? ==> forall j :: pos <= j < r.value ==> cells[j].occupant != Some(p)
    ensures r.None? ==> forall j :: pos <= j < |cells| ==> cells[j].occupant != Some(p)
  {
    if pos >= |cells| then None
    else if cells[pos].occupant == Some(p) then Some(pos)
    else FindPlayerNode(cells, p, pos + 1)
  }

  /** On a row-major board the search finds exactly the indexed cell, and nothing off the board. */
  lemma FindBoardNodeNamed(cells: seq<Node>, c: Coord)
    ensures Named(cells) ==> FindBoardNode(cells, c, 0) == if IsOnBoard(c) then Some(Index(c)) else None
  {
    var r := FindBoardNode(cells, c, 0);
    if !Named(cells) {
    } else if IsOnBoard(c) {
      assert cells[Index(c)].name == c;
      CoordOfIndex(r.value);
    } else {
      forall j | 0 <= j < CellCount
        ensures cells[j].name != c
      {
        CoordOfIndex(j);
      }
    }
  }

  /** The k-th node of the fresh board: named CoordOf(k), empty, walled exactly on the board's edge. */
  lemma FreshNode(k: int)
    requires 0 <= k < CellCount
    ensures var n := FreshCells()[k];
      && n.name == CoordOf(k) && n.occupant == None
      && (n.up <==> n.name.y == 0) && (n.down <==> n.name.y == Size - 1)
      && (n.left <==> n.name.x == 0) && (n.right <==> n.name.x == Size - 1)
  {
    CoordOfIndex(k);
  }

  /** The fresh board: 81 row-major cells, nobody on them, walls exactly on the outer edges,
      every interior edge open. */
  lemma {:induction false} FreshBoard()
    ensures Named(FreshCells())
    ensures forall k :: 0 <= k < CellCount ==>
      var n := FreshCells()[k];
      && n.occupant == None
      && (n.up <==> n.name.y == 0) && (n.down <==> n.name.y == Size - 1)
      && (n.left <==> n.name.x == 0) && (n.right <==> n.name.x == Size - 1)
    ensures OuterWalled(FreshCells()) && Mirrored(FreshCells())
  {
    var cells := FreshCells();
    forall k | 0 <= k < CellCount
      ensures cells[k].name == CoordOf(k) && cells[k].occupant == None
      ensures (cells[k].up <==> cells[k].name.y == 0) && (cells[k].down <==> cells[k].name.y == Size - 1)
      ensures (cells[k].left <==> cells[k].name.x == 0) && (cells[k].right <==> cells[k].name.x == Size - 1)
    {
      FreshNode(k);
    }
    forall k | 0 < k < CellCount && k % Size != 0
      ensures CoordOf(k - 1).x == CoordOf(k).x - 1 && CoordOf(k).x > 0
    {
    }
    forall k | Size <= k < CellCount
      ensures CoordOf(k - Size).y == CoordOf(k).y - 1 && CoordOf(k).y > 0
    {
    }
  }

  /** The 81 cells of the board, in row-major order, and the two fixed winning rows. */
  class GameBoard {
    const cells: array<Node>
    /** The row player 1 must reach. */
    const p1WinningArea: seq<Coord> := [Coord(0, 8), Coord(1, 8), Coord(2, 8), Coord(3, 8), Coord(4, 8),
                                        Coord(5, 8), Coord(6, 8), Coord(7, 8), Coord(8, 8)]
    /** The row player 2 must reach. */
    const p2WinningArea: seq<Coord> := [Coord(0, 0), Coord(1, 0), Coord(2, 0), Coord(3, 0), Coord(4, 0),
                                        Coord(5, 0), Coord(6, 0), Coord(7, 0), Coord(8, 0)]

    /** A board whose nodes are created one after the other in row-major order. */
    constructor ()
      ensures fresh(cells)
      ensures cells[..] == BlankCells()
    {
      var a := new Node[CellCount];
      var k := 0;
      while k < CellCount
        invariant 0 <= k <= CellCount
        invariant forall j :: 0 <= j < k ==> a[j] == BlankNode(CoordOf(j))
      {
        a[k] := BlankNode(CoordOf(k));
        k := k + 1;
      }
      cells := a;
    }

    /** Walls in the outer edges, node by node along the list. */
    method EstablishOuterFences()
      modifies cells
      ensures forall k :: 0 <= k < cells.Length ==> cells[k] == OuterFenced(old(cells[k]), k == cells.Length - 1)
    {
      var k := 0;
      while k < cells.Length
        invariant 0 <= k <= cells.Length
        invariant forall j :: 0 <= j < k ==> cells[j] == OuterFenced(old(cells[j]), j == cells.Length - 1)
        invariant forall j :: k <= j < cells.Length ==> cells[j] == old(cells[j])
      {
        cells[k] := OuterFenced(cells[k], k == cells.Length - 1);
        k := k + 1;
      }
    }

    /** set_up_wall / set_down_wall / set_left_wall / set_right_wall on the k-th node:
        raises the flag if it is down and reports that it already exists otherwise. */
    method SetWall(k: int, d: Direction) returns (r: WallResult)
      requires 0 <= k < cells.Length && d.Orthogonal()
      modifies cells
      ensures r == (if Wall(old(cells[k]), d) then AlreadyExists else Placed)
      ensures cells[..] == old(cells[..])[k := WithWall(old(cells[k]), d)]
      ensures Wall(cells[k], d)
    {
      if Wall(cells[k], d) {
        r := AlreadyExists;
      } else {
        cells[k] := WithWall(cells[k], d);
        r := Placed;
      }
    }
  }
}

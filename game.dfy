/** The game controller: turn order, winner detection, and the validate-then-mutate flow of
    pawn moves and fence placements. */
module Game {
  import opened Grid
  import opened Board
  import opened Fences
  import opened Moves

  /** Outcome of move_pawn: True, False, or the KeyError that escapes from the classifier. */
  datatype MoveResult = Moved | Refused | KeyErrorRaised

  /** The other player; also how the turn passes on (anything but 1 goes to 1). */
  function Opponent(p: int): (q: int)
    ensures q in {1, 2} && q != p
  {
    if p == 1 then 2 else 1
  }

  /** The row a player must reach: row 8 for player 1, row 0 for anyone else. */
  function WinningRow(p: int): int {
    if p == 1 then Size - 1 else 0
  }

  /** is_winner as a property of the cells: player p stands somewhere on its winning row. */
  ghost predicate Won(cells: seq<Node>, p: int)
    requires |cells| == CellCount
  {
    exists c :: 0 <= c < Size && cells[Index(Coord(c, WinningRow(p)))].occupant == Some(p)
  }

  /** Names in row-major order, the outer edges walled, every shared edge mirrored. */
  ghost predicate BoardValid(cells: seq<Node>) {
    Named(cells) && OuterWalled(cells) && Mirrored(cells)
  }

  /** Pawn 1 stands on pos1, pawn 2 on pos2, two distinct on-board cells, and nowhere else. */
  ghost predicate Occupancy(cells: seq<Node>, pos1: Coord, pos2: Coord) {
    && |cells| == CellCount && IsOnBoard(pos1) && IsOnBoard(pos2) && pos1 != pos2
    && forall k :: 0 <= k < CellCount ==>
         cells[k].occupant == (if k == Index(pos1) then Some(1) else if k == Index(pos2) then Some(2) else None)
  }

  /** The cells after make_move: player p now stands on cell `to` and cell `from` is empty. */
  function MovedCells(cells: seq<Node>, from: nat, to: nat, p: int): seq<Node>
    requires from < |cells| && to < |cells|
  {
    var placed := cells[to := cells[to].(occupant := Some(p))];
    placed[from := placed[from].(occupant := None)]
  }

  /** The side of the anchor cell a fence walls: left for "v", top for "h". */
  function FenceSide(o: Orientation): (d: Direction)
    ensures d.Orthogonal()
  {
    if o == Vertical then Left else Up
  }

  /** The cells after place_fence: the fence side of the anchor and the opposite side of the
      neighbour across it are walled (the neighbour only if it is on the board). */
  function Fenced(cells: seq<Node>, o: Orientation, anchor: Coord): seq<Node>
    requires |cells| == CellCount && IsOnBoard(anchor)
  {
    var d := FenceSide(o);
    var k := Index(anchor);
    var once := cells[k := WithWall(cells[k], d)];
    var n := Nearby(anchor, d);
    if IsOnBoard(n) then once[Index(n) := WithWall(once[Index(n)], OppositeDirection(d))] else once
  }

  /** The tag of place_fence as an orientation; only "v" and "h" are ever used as one. */
  function TagOrientation(tag: string): Orientation {
    if tag == "v" then Vertical else Horizontal
  }

  /** The success condition of place_fence: nobody has won, it is the caller's turn, the anchor is
      on the board, the tag is "v" or "h" and that edge of the anchor is still open. The fence
      budget plays no part. */
  ghost predicate FenceAccepted(cells: seq<Node>, turn: int, player: int, tag: string, anchor: Coord)
    requires |cells| == CellCount
  {
    && !Won(cells, 1) && !Won(cells, 2) && player == turn && IsOnBoard(anchor)
    && ((tag == "v" && !cells[Index(anchor)].left) || (tag == "h" && !cells[Index(anchor)].up))
  }

  /** What move_pawn answers, branch by branch: refused once someone has won, off turn or off the
      board; otherwise classified and handed to the matching validator. */
  ghost function MoveVerdict(cells: seq<Node>, turn: int, player: int, target: Coord): MoveResult
    requires |cells| == CellCount
  {
    if Won(cells, 1) || Won(cells, 2) then Refused
    else if player != turn || !IsOnBoard(target) then Refused
    else
      match FindPlayerNode(cells, player, 0)
      // the mover is always on the board
      case None => Refused
      case Some(me) =>
        match MoveType(cells[me].name, target)
        case KeyError => KeyErrorRaised
        case Simple => if IsValidSimpleMove(cells, me, target) then Moved else Refused
        case Diagonal =>
          (match FindPlayerNode(cells, Opponent(player), 0)
           case None => Refused
           case Some(them) =>
             if IsValidDiagMove(cells, me, them, target, Opponent(player)) then Moved else Refused)
        case _ =>
          (match FindPlayerNode(cells, Opponent(player), 0)
           case None => Refused
           case Some(them) =>
             if IsValidCompMove(cells, me, them, target, Opponent(player)) == Accepted then Moved else Refused)
  }

  /** A legal step in the rules as the validators apply them, stated on coordinates: a SIMPLE
      move needs the mover's side of travel open and the target empty; a DIAGONAL move needs the
      opponent straight ahead, walled behind, open toward the mover and toward the target side,
      and the target empty; nothing else is legal. */
  ghost predicate LegalStep(cells: seq<Node>, from: Coord, other: Coord, target: Coord)
    requires |cells| == CellCount && IsOnBoard(from) && IsOnBoard(other) && IsOnBoard(target)
  {
    match MoveType(from, target)
    case Simple =>
      !Wall(cells[Index(from)], StepSide(from, target)) && cells[Index(target)].occupant == None
    case Diagonal =>
      var v := if target.y < from.y then Up else Down;
      var side := if target.x < from.x then Left else Right;
      var o := cells[Index(other)];
      && other == Nearby(from, v) && Wall(o, v) && !Wall(o, OppositeDirection(v)) && !Wall(o, side)
      && cells[Index(target)].occupant == None
    case _ => false
  }

  /** With the pawns placed as Occupancy says, the player search finds each pawn's own cell. */
  lemma FindPlayerUnderOccupancy(cells: seq<Node>, pos1: Coord, pos2: Coord)
    requires Occupancy(cells, pos1, pos2)
    ensures FindPlayerNode(cells, 1, 0) == Some(Index(pos1))
    ensures FindPlayerNode(cells, 2, 0) == Some(Index(pos2))
  {
    assert cells[Index(pos1)].occupant == Some(1);
    assert cells[Index(pos2)].occupant == Some(2);
  }

  /** is_winner(1) holds exactly when pawn 1 is on row 8, is_winner(2) when pawn 2 is on row 0. */
  lemma WonIffGoalRow(cells: seq<Node>, pos1: Coord, pos2: Coord)
    requires Occupancy(cells, pos1, pos2)
    ensures Won(cells, 1) <==> pos1.y == Size - 1
    ensures Won(cells, 2) <==> pos2.y == 0
  {
    if pos1.y == Size - 1 {
      assert Coord(pos1.x, WinningRow(1)) == pos1;
    }
    if Won(cells, 1) {
      var c :| 0 <= c < Size && cells[Index(Coord(c, WinningRow(1)))].occupant == Some(1);
      IndexInjective(Coord(c, WinningRow(1)), pos1);
    }
    if pos2.y == 0 {
      assert Coord(pos2.x, WinningRow(2)) == pos2;
    }
    if Won(cells, 2) {
      var c :| 0 <= c < Size && cells[Index(Coord(c, WinningRow(2)))].occupant == Some(2);
      IndexInjective(Coord(c, WinningRow(2)), pos2);
    }
  }

  /** Once the first checks pass, move_pawn's answer is the validator chosen by the move's kind,
      run on the two pawns' own cells. */
  lemma VerdictAtPawns(cells: seq<Node>, pos1: Coord, pos2: Coord, turn: int, player: int, target: Coord)
    requires BoardValid(cells) && Occupancy(cells, pos1, pos2) && turn in {1, 2}
    requires !Won(cells, 1) && !Won(cells, 2) && player == turn && IsOnBoard(target)
    ensures var from := if player == 1 then pos1 else pos2;
      var other := if player == 1 then pos2 else pos1;
      var me, them := Index(from), Index(other);
      MoveVerdict(cells, turn, player, target) ==
        match MoveType(from, target)
        case KeyError => KeyErrorRaised
        case Simple => if IsValidSimpleMove(cells, me, target) then Moved else Refused
        case Diagonal => if IsValidDiagMove(cells, me, them, target, Opponent(player)) then Moved else Refused
        case _ => Refused
  {
    FindPlayerUnderOccupancy(cells, pos1, pos2);
    var from := if player == 1 then pos1 else pos2;
    assert cells[Index(from)].name == from;
  }

  /** On the pawns' own cells the SIMPLE and DIAGONAL validators accept exactly the legal steps. */
  lemma ValidatorsMatchLegalStep(cells: seq<Node>, pos1: Coord, pos2: Coord, player: int, target: Coord)
    requires BoardValid(cells) && Occupancy(cells, pos1, pos2) && player in {1, 2} && IsOnBoard(target)
    ensures var from := if player == 1 then pos1 else pos2;
      var other := if player == 1 then pos2 else pos1;
      MoveType(from, target) == Simple ==>
        (IsValidSimpleMove(cells, Index(from), target) <==> LegalStep(cells, from, other, target))
    ensures var from := if player == 1 then pos1 else pos2;
      var other := if player == 1 then pos2 else pos1;
      MoveType(from, target) == Diagonal ==>
        (IsValidDiagMove(cells, Index(from), Index(other), target, Opponent(player)) <==>
         LegalStep(cells, from, other, target))
  {
    var from := if player == 1 then pos1 else pos2;
    var other := if player == 1 then pos2 else pos1;
    var me, them := Index(from), Index(other);
    assert cells[me].name == from;
    if MoveType(from, target) == Simple {
      SimpleMoveValidity(cells, me, target);
    } else if MoveType(from, target) == Diagonal {
      DiagonalMoveValidity(cells, me, them, target, Opponent(player));
      var v := if target.y < from.y then Up else Down;
      IndexInjective(Nearby(from, v), other);
      IndexInjective(Nearby(from, v), from);
    }
  }

  /** move_pawn succeeds exactly when neither pawn is on its goal row, it is the caller's turn,
      the target is on the board and the step is legal; it raises the KeyError exactly when those
      checks pass and the move goes two rows up and two or more columns sideways. */
  lemma MovePawnVerdict(cells: seq<Node>, pos1: Coord, pos2: Coord, turn: int, player: int, target: Coord)
    requires BoardValid(cells) && Occupancy(cells, pos1, pos2) && turn in {1, 2}
    ensures var from := if player == 1 then pos1 else pos2;
      var other := if player == 1 then pos2 else pos1;
      MoveVerdict(cells, turn, player, target) == Moved <==>
        && pos1.y != Size - 1 && pos2.y != 0 && player == turn && IsOnBoard(target)
        && LegalStep(cells, from, other, target)
    ensures var from := if player == 1 then pos1 else pos2;
      MoveVerdict(cells, turn, player, target) == KeyErrorRaised <==>
        && pos1.y != Size - 1 && pos2.y != 0 && player == turn && IsOnBoard(target)
        && target.y - from.y == -2 && (target.x - from.x < -1 || target.x - from.x > 1)
  {
    WonIffGoalRow(cells, pos1, pos2);
    if pos1.y != Size - 1 && pos2.y != 0 && player == turn && IsOnBoard(target) {
      VerdictAtPawns(cells, pos1, pos2, turn, player, target);
      ValidatorsMatchLegalStep(cells, pos1, pos2, player, target);
    }
  }

  /** Moving a pawn onto an empty on-board cell keeps the board's walls and names, and leaves
      each pawn on exactly one cell, the two cells distinct. */
  lemma MovedCellsOccupancy(cells: seq<Node>, pos1: Coord, pos2: Coord, player: int, target: Coord)
    requires BoardValid(cells) && Occupancy(cells, pos1, pos2) && player in {1, 2}
    requires IsOnBoard(target) && cells[Index(target)].occupant == None
    ensures var from := if player == 1 then pos1 else pos2;
      var moved := MovedCells(cells, Index(from), Index(target), player);
      && BoardValid(moved)
      && Occupancy(moved, if player == 1 then target else pos1, if player == 2 then target else pos2)
  {
    var from := if player == 1 then pos1 else pos2;
    var moved := MovedCells(cells, Index(from), Index(target), player);
    IndexInjective(target, pos1);
    IndexInjective(target, pos2);
    forall k | 0 <= k < CellCount
      ensures moved[k].name == cells[k].name && moved[k].up == cells[k].up && moved[k].down == cells[k].down
      ensures moved[k].left == cells[k].left && moved[k].right == cells[k].right
    {
    }
  }

  /** After a successful move each player id still occupies exactly one cell, the two distinct,
      and the mover's cell is the target. */
  lemma MoveKeepsOnePawnEach(cells: seq<Node>, pos1: Coord, pos2: Coord, turn: int, player: int, target: Coord)
    requires BoardValid(cells) && Occupancy(cells, pos1, pos2) && turn in {1, 2}
    requires MoveVerdict(cells, turn, player, target) == Moved
    ensures player in {1, 2} && IsOnBoard(target)
    ensures var from := if player == 1 then pos1 else pos2;
      var moved := MovedCells(cells, Index(from), Index(target), player);
      && BoardValid(moved)
      && Occupancy(moved, if player == 1 then target else pos1, if player == 2 then target else pos2)
  {
    MovePawnVerdict(cells, pos1, pos2, turn, player, target);
    MovedCellsOccupancy(cells, pos1, pos2, player, target);
  }

  /** Raising both flags of one interior edge keeps every shared edge mirrored. */
  lemma RaiseEdgeKeepsMirrored(cells: seq<Node>, a: int, b: int, d: Direction)
    requires |cells| == CellCount && Mirrored(cells) && 0 <= b < a < CellCount
    requires (d == Left && b == a - 1 && a % Size != 0) || (d == Up && b == a - Size)
    ensures Mirrored(cells[a := WithWall(cells[a], d)][b := WithWall(cells[b], OppositeDirection(d))])
  {
    var f := cells[a := WithWall(cells[a], d)][b := WithWall(cells[b], OppositeDirection(d))];
    forall k | 0 < k < CellCount && k % Size != 0
      ensures f[k].left == f[k - 1].right
    {
      assert cells[k].left == cells[k - 1].right;
    }
    forall k | Size <= k < CellCount
      ensures f[k].up == f[k - Size].down
    {
      assert cells[k].up == cells[k - Size].down;
    }
  }

  /** A fence on an open edge of an on-board anchor: the neighbour across it is on the board,
      exactly those two mirrored flags go up, nothing else changes, no wall comes down, and the
      board stays mirrored and walled on its outer edges. */
  lemma FenceKeepsBoardValid(cells: seq<Node>, o: Orientation, anchor: Coord)
    requires BoardValid(cells) && IsOnBoard(anchor) && !Wall(cells[Index(anchor)], FenceSide(o))
    ensures IsOnBoard(Nearby(anchor, FenceSide(o)))
    ensures var f := Fenced(cells, o, anchor);
      var a := Index(anchor);
      var b := Index(Nearby(anchor, FenceSide(o)));
      && Wall(f[a], FenceSide(o)) && Wall(f[b], OppositeDirection(FenceSide(o)))
      && (forall k :: 0 <= k < CellCount && k != a && k != b ==> f[k] == cells[k])
      && (forall k :: 0 <= k < CellCount ==> f[k].occupant == cells[k].occupant)
      && (forall k, e: Direction :: 0 <= k < CellCount && e.Orthogonal() && Wall(cells[k], e) ==> Wall(f[k], e))
      && BoardValid(f)
  {
    var d := FenceSide(o);
    var a := Index(anchor);
    assert CoordOf(a) == anchor;
    var n := Nearby(anchor, d);
    assert IsOnBoard(n);
    var b := Index(n);
    if o == Vertical {
      assert b == a - 1 && a % Size != 0;
    } else {
      assert b == a - Size;
    }
    var f := cells[a := WithWall(cells[a], d)][b := WithWall(cells[b], OppositeDirection(d))];
    assert Fenced(cells, o, anchor) == f;
    RaiseEdgeKeepsMirrored(cells, a, b, d);
    forall k | 0 <= k < CellCount
      ensures f[k].name == cells[k].name && f[k].occupant == cells[k].occupant
      ensures cells[k].up ==> f[k].up
      ensures cells[k].down ==> f[k].down
      ensures cells[k].left ==> f[k].left
      ensures cells[k].right ==> f[k].right
    {
    }
  }

  /** The board right after setup: both pawns at home, row 0 column 4 and row 8 column 4. */
  function StartCells(): seq<Node> {
    var start := FreshCells();
    var i1, i2 := Index(Coord(4, 0)), Index(Coord(4, 8));
    var one := start[i1 := start[i1].(occupant := Some(1))];
    one[i2 := one[i2].(occupant := Some(2))]
  }

  /** The starting board is valid and has each pawn on its home cell and nowhere else. */
  lemma StartValid()
    ensures BoardValid(StartCells()) && Occupancy(StartCells(), Coord(4, 0), Coord(4, 8))
    ensures !Won(StartCells(), 1) && !Won(StartCells(), 2)
  {
    FreshBoard();
    var s := StartCells();
    forall k | 0 <= k < CellCount
      ensures s[k].name == FreshCells()[k].name
      ensures s[k].up == FreshCells()[k].up && s[k].down == FreshCells()[k].down
      ensures s[k].left == FreshCells()[k].left && s[k].right == FreshCells()[k].right
    {
    }
    WonIffGoalRow(s, Coord(4, 0), Coord(4, 8));
  }

  /** The first move of a game: player 1 may step from (4, 0) to (4, 1); player 2 may not move
      out of turn. */
  lemma OpeningMove()
    ensures MoveVerdict(StartCells(), 1, 1, Coord(4, 1)) == Moved
    ensures MoveVerdict(StartCells(), 1, 2, Coord(4, 7)) == Refused
  {
    StartValid();
    var s := StartCells();
    FreshNode(Index(Coord(4, 0)));
    assert !s[Index(Coord(4, 0))].down;
    assert LegalStep(s, Coord(4, 0), Coord(4, 8), Coord(4, 1));
    MovePawnVerdict(s, Coord(4, 0), Coord(4, 8), 1, 1, Coord(4, 1));
    MovePawnVerdict(s, Coord(4, 0), Coord(4, 8), 1, 2, Coord(4, 7));
  }

  /** The reply: after player 1's first step, player 2 may step sideways from (4, 8) to (5, 8). */
  lemma OpeningReply()
    ensures MoveVerdict(MovedCells(StartCells(), Index(Coord(4, 0)), Index(Coord(4, 1)), 1), 2, 2, Coord(5, 8)) == Moved
  {
    OpeningMove();
    StartValid();
    var s := StartCells();
    MoveKeepsOnePawnEach(s, Coord(4, 0), Coord(4, 8), 1, 1, Coord(4, 1));
    var moved := MovedCells(s, Index(Coord(4, 0)), Index(Coord(4, 1)), 1);
    FreshNode(Index(Coord(4, 8)));
    assert moved[Index(Coord(4, 8))].right == FreshCells()[Index(Coord(4, 8))].right;
    assert LegalStep(moved, Coord(4, 8), Coord(4, 1), Coord(5, 8));
    MovePawnVerdict(moved, Coord(4, 1), Coord(4, 8), 2, 2, Coord(5, 8));
  }

  /** A vertical fence at (1, 1) on the starting board is accepted and walls the left side of
      (1, 1) and the right side of (0, 1). */
  lemma OpeningFence()
    ensures FenceAccepted(StartCells(), 1, 1, "v", Coord(1, 1))
    ensures var f := Fenced(StartCells(), Vertical, Coord(1, 1));
      f[Index(Coord(1, 1))].left && f[Index(Coord(0, 1))].right
  {
    StartValid();
    FreshNode(Index(Coord(1, 1)));
    FenceKeepsBoardValid(StartCells(), Vertical, Coord(1, 1));
  }

  /** A game of Quoridor: the board, the two players and whose move it is. */
  class QuoridorGame {
    const board: GameBoard
    const player1: Player
    const player2: Player
    var whoseMove: int

    /** The board's cells as a value. */
    ghost function Cells(): seq<Node>
      reads board.cells
    {
      board.cells[..]
    }

    /** _list_of_players[p] for the two player ids. */
    function PlayerOf(p: int): Player
      reads this
    {
      if p == 1 then player1 else player2
    }

    /** The game invariant: a valid board, each pawn on its own cell and nowhere else, the turn
        with player 1 or 2, and each ledger within its budget. */
    ghost predicate Valid()
      reads this, board.cells, player1, player2
    {
      && board.cells.Length == CellCount && player1 != player2
      && player1.name == 1 && player2.name == 2
      && BoardValid(Cells()) && Occupancy(Cells(), player1.currentPosition, player2.currentPosition)
      && whoseMove in {1, 2}
      && player1.LedgerValid() && player2.LedgerValid()
    }

    /** A new game: the board with its outer fences, both pawns at home, ten fences each,
        player 1 to move. */
    constructor ()
      ensures Valid() && fresh(board) && fresh(board.cells) && fresh(player1) && fresh(player2)
      ensures Cells() == StartCells() && whoseMove == 1
      ensures player1.currentPosition == Coord(4, 0) && player2.currentPosition == Coord(4, 8)
      ensures player1.fences == [] && player2.fences == []
      ensures player1.fenceCount == FenceBudget && player2.fenceCount == FenceBudget
    {
      var gameBoard := new GameBoard();
      gameBoard.EstablishOuterFences();
      board := gameBoard;
      player1 := new Player(1, Coord(4, 0));
      player2 := new Player(2, Coord(4, 8));
      whoseMove := 1;
      new;
      assert board.cells[..] == FreshCells();
      InitializeStartPositions();
      StartValid();
    }

    /** Puts each pawn on its home cell and records the home as its current position. */
    method InitializeStartPositions()
      requires board.cells.Length == CellCount && Named(Cells()) && player1 != player2
      requires IsOnBoard(player1.homePosition) && IsOnBoard(player2.homePosition)
      requires player1.homePosition != player2.homePosition
      modifies board.cells, player1, player2
      ensures player1.currentPosition == player1.homePosition
      ensures player2.currentPosition == player2.homePosition
      ensures player1.fences == old(player1.fences) && player1.fenceCount == old(player1.fenceCount)
      ensures player2.fences == old(player2.fences) && player2.fenceCount == old(player2.fenceCount)
      ensures var i1, i2 := Index(player1.homePosition), Index(player2.homePosition);
        var one := old(Cells())[i1 := old(Cells())[i1].(occupant := Some(player1.name))];
        Cells() == one[i2 := one[i2].(occupant := Some(player2.name))]
    {
      player1.currentPosition := player1.homePosition;
      player2.currentPosition := player2.homePosition;
      FindBoardNodeNamed(board.cells[..], player1.homePosition);
      FindBoardNodeNamed(board.cells[..], player2.homePosition);
      var p1Node := FindBoardNode(board.cells[..], player1.homePosition, 0).value;
      var p2Node := FindBoardNode(board.cells[..], player2.homePosition, 0).value;
      IndexInjective(player1.homePosition, player2.homePosition);
      board.cells[p1Node] := board.cells[p1Node].(occupant := Some(player1.name));
      board.cells[p2Node] := board.cells[p2Node].(occupant := Some(player2.name));
    }

    /** Passes the turn: from 1 to 2, and from anything else to 1. */
    method SetWhoseMove()
      modifies this
      ensures whoseMove == Opponent(old(whoseMove))
    {
      if whoseMove == 1 {
        whoseMove := 2;
      } else {
        whoseMove := 1;
      }
    }

    /** Whether it is player p's turn. */
    predicate IsPlayerTurn(p: int)
      reads this
    {
      p == whoseMove
    }

    /** is_winner: walks player p's winning row and reports whether p stands on any of it. */
    method IsWinner(p: int) returns (b: bool)
      requires board.cells.Length == CellCount && Named(Cells())
      ensures b == Won(Cells(), p)
    {
      var area := if p == 1 then board.p1WinningArea else board.p2WinningArea;
      var cells := board.cells[..];
      for i := 0 to |area|
        invariant forall j :: 0 <= j < i ==> cells[Index(Coord(j, WinningRow(p)))].occupant != Some(p)
      {
        assert area[i] == Coord(i, WinningRow(p));
        FindBoardNodeNamed(cells, area[i]);
        var tempNode := FindBoardNode(cells, area[i], 0).value;
        if cells[tempNode].occupant == Some(p) {
          return true;
        }
      }
      return false;
    }

    /** make_move: puts the player on the target, empties its old cell, records the new
        position and passes the turn. */
    method MakeMove(player: int, target: Coord)
      requires Valid() && player in {1, 2} && IsOnBoard(target)
      requires Cells()[Index(target)].occupant == None
      modifies this, board.cells, PlayerOf(player)
      ensures Valid()
      ensures Cells() == MovedCells(old(Cells()), Index(old(PlayerOf(player).currentPosition)), Index(target), player)
      ensures PlayerOf(player).currentPosition == target
      ensures PlayerOf(Opponent(player)).currentPosition == old(PlayerOf(Opponent(player)).currentPosition)
      ensures whoseMove == Opponent(old(whoseMove))
      ensures player1.fences == old(player1.fences) && player1.fenceCount == old(player1.fenceCount)
      ensures player2.fences == old(player2.fences) && player2.fenceCount == old(player2.fenceCount)
    {
      var cells := board.cells[..];
      MovedCellsOccupancy(cells, player1.currentPosition, player2.currentPosition, player, target);
      FindBoardNodeNamed(cells, target);
      FindPlayerUnderOccupancy(cells, player1.currentPosition, player2.currentPosition);
      var proposedNode := FindBoardNode(cells, target, 0).value;
      var currentNode := FindPlayerNode(cells, player, 0).value;
      var activePlayer := PlayerOf(player);
      board.cells[proposedNode] := board.cells[proposedNode].(occupant := Some(player));
      board.cells[currentNode] := board.cells[currentNode].(occupant := None);
      activePlayer.currentPosition := target;
      SetWhoseMove();
    }

    /** move_pawn: refuses once someone has won, off turn, or off the board; otherwise classifies
        the move, runs the matching validator and on success moves the pawn and passes the turn.
        A refused move, or one that raises, changes nothing. */
    method MovePawn(player: int, target: Coord) returns (r: MoveResult)
      requires Valid()
      modifies this, board.cells, player1, player2
      ensures Valid()
      ensures r == MoveVerdict(old(Cells()), old(whoseMove), player, target)
      ensures r == Moved ==> player in {1, 2} && IsOnBoard(target)
      ensures r == Moved ==>
        && Cells() == MovedCells(old(Cells()), Index(old(PlayerOf(player).currentPosition)), Index(target), player)
        && PlayerOf(player).currentPosition == target
        && PlayerOf(Opponent(player)).currentPosition == old(PlayerOf(Opponent(player)).currentPosition)
        && whoseMove == Opponent(old(whoseMove))
      ensures r != Moved ==>
        && Cells() == old(Cells()) && whoseMove == old(whoseMove)
        && player1.currentPosition == old(player1.currentPosition)
        && player2.currentPosition == old(player2.currentPosition)
      ensures player1.fences == old(player1.fences) && player1.fenceCount == old(player1.fenceCount)
      ensures player2.fences == old(player2.fences) && player2.fenceCount == old(player2.fenceCount)
    {
      var won1 := IsWinner(1);
      var won2 := IsWinner(2);
      if won1 || won2 {
        return Refused;
      }
      if !(IsPlayerTurn(player) && IsOnBoard(target)) {
        return Refused;
      }
      var cells := board.cells[..];
      FindPlayerUnderOccupancy(cells, player1.currentPosition, player2.currentPosition);
      var me := FindPlayerNode(cells, player, 0).value;
      var valid: bool;
      match MoveType(cells[me].name, target) {
        case KeyError =>
          return KeyErrorRaised;
        case Simple =>
          valid := IsValidSimpleMove(cells, me, target);
        case Diagonal =>
          var them := FindPlayerNode(cells, Opponent(player), 0).value;
          valid := IsValidDiagMove(cells, me, them, target, Opponent(player));
        case _ =>
          var them := FindPlayerNode(cells, Opponent(player), 0).value;
          valid := IsValidCompMove(cells, me, them, target, Opponent(player)) == Accepted;
      }
      if !valid {
        return Refused;
      }
      MoveKeepsOnePawnEach(cells, player1.currentPosition, player2.currentPosition, whoseMove, player, target);
      MakeMove(player, target);
      r := Moved;
    }

    /** place_fence: refuses once someone has won, off turn, off the board, for an unknown tag or
        an edge already walled; otherwise records the fence in the player's ledger if a fence is
        left (and ignores it if not), walls both sides of the edge and passes the turn. */
    method PlaceFence(player: int, tag: string, anchor: Coord) returns (ok: bool)
      requires Valid()
      modifies this, board.cells, player1, player2
      ensures Valid()
      ensures ok == FenceAccepted(old(Cells()), old(whoseMove), player, tag, anchor)
      ensures ok ==> player in {1, 2} && IsOnBoard(anchor)
      ensures ok ==>
        && Cells() == Fenced(old(Cells()), TagOrientation(tag), anchor)
        && whoseMove == Opponent(old(whoseMove))
        && (old(PlayerOf(player).fenceCount) > 0 ==>
              && PlayerOf(player).fences == old(PlayerOf(player).fences) + [Fence(TagOrientation(tag), anchor).Entry()]
              && PlayerOf(player).fenceCount == old(PlayerOf(player).fenceCount) - 1)
        && (old(PlayerOf(player).fenceCount) <= 0 ==>
              && PlayerOf(player).fences == old(PlayerOf(player).fences)
              && PlayerOf(player).fenceCount == old(PlayerOf(player).fenceCount))
        && PlayerOf(Opponent(player)).fences == old(PlayerOf(Opponent(player)).fences)
        && PlayerOf(Opponent(player)).fenceCount == old(PlayerOf(Opponent(player)).fenceCount)
      ensures !ok ==>
        && Cells() == old(Cells()) && whoseMove == old(whoseMove)
        && player1.fences == old(player1.fences) && player1.fenceCount == old(player1.fenceCount)
        && player2.fences == old(player2.fences) && player2.fenceCount == old(player2.fenceCount)
      ensures player1.currentPosition == old(player1.currentPosition)
      ensures player2.currentPosition == old(player2.currentPosition)
    {
      var won1 := IsWinner(1);
      var won2 := IsWinner(2);
      if won1 || won2 {
        return false;
      }
      if !(IsPlayerTurn(player) && IsOnBoard(anchor)) {
        return false;
      }
      var cells := board.cells[..];
      FindBoardNodeNamed(cells, anchor);
      var activeNode := FindBoardNode(cells, anchor, 0).value;
      var o: Orientation;
      if tag == "v" && !board.cells[activeNode].left {
        o := Vertical;
      } else if tag == "h" && !board.cells[activeNode].up {
        o := Horizontal;
      } else {
        return false;
      }
      assert TagOrientation(tag) == o;
      CommitFence(player, o, anchor, activeNode);
      ok := true;
    }

    /** The accepting branch of place_fence: records the fence in the player's ledger if one is
        left, walls both sides of the edge and passes the turn. */
    method CommitFence(player: int, o: Orientation, anchor: Coord, activeNode: int)
      requires Valid() && player in {1, 2} && IsOnBoard(anchor) && activeNode == Index(anchor)
      requires !Wall(Cells()[activeNode], FenceSide(o))
      modifies this, board.cells, PlayerOf(player)
      ensures Valid()
      ensures Cells() == Fenced(old(Cells()), o, anchor)
      ensures whoseMove == Opponent(old(whoseMove))
      ensures old(PlayerOf(player).fenceCount) > 0 ==>
        && PlayerOf(player).fences == old(PlayerOf(player).fences) + [Fence(o, anchor).Entry()]
        && PlayerOf(player).fenceCount == old(PlayerOf(player).fenceCount) - 1
      ensures old(PlayerOf(player).fenceCount) <= 0 ==>
        && PlayerOf(player).fences == old(PlayerOf(player).fences)
        && PlayerOf(player).fenceCount == old(PlayerOf(player).fenceCount)
      ensures player1.currentPosition == old(player1.currentPosition)
      ensures player2.currentPosition == old(player2.currentPosition)
    {
      var activePlayer := PlayerOf(player);
      var _ := activePlayer.AddNewFence(o, anchor);
      WallBothSides(o, anchor, activeNode);
      assert Occupancy(Cells(), player1.currentPosition, player2.currentPosition);
      SetWhoseMove();
    }

    /** The two set_*_wall calls of place_fence: the fence side of the anchor (cell activeNode)
        and the opposite side of the neighbour across it. */
    method WallBothSides(o: Orientation, anchor: Coord, activeNode: int)
      requires board.cells.Length == CellCount && BoardValid(Cells())
      requires IsOnBoard(anchor) && activeNode == Index(anchor) && !Wall(Cells()[activeNode], FenceSide(o))
      modifies board.cells
      ensures Cells() == Fenced(old(Cells()), o, anchor) && BoardValid(Cells())
      ensures forall k :: 0 <= k < CellCount ==> Cells()[k].occupant == old(Cells())[k].occupant
    {
      FenceKeepsBoardValid(Cells(), o, anchor);
      var _ := board.SetWall(activeNode, FenceSide(o));
      var neighbour := Nearby(anchor, FenceSide(o));
      FindBoardNodeNamed(board.cells[..], neighbour);
      var newNode := FindBoardNode(board.cells[..], neighbour, 0).value;
      var _ := board.SetWall(newNode, OppositeDirection(FenceSide(o)));
    }
  }
}

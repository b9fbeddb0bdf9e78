/** Classifying a proposed pawn move and checking it against the board. */
module Moves {
  import opened Grid
  import opened Board

  /** The direction table: the name of the unit step (dx, dy), if it is one. */
  function UnitDirection(dx: int, dy: int): (r: Option<Direction>)
    ensures r.Some? ==> Offset(r.value) == (dx, dy)
    ensures r.None? ==> forall d: Direction :: Offset(d) != (dx, dy)
  {
    if (dx, dy) == (0, -1) then Some(Up)
    else if (dx, dy) == (0, 1) then Some(Down)
    else if (dx, dy) == (1, 0) then Some(Right)
    else if (dx, dy) == (-1, 0) then Some(Left)
    else if (dx, dy) == (1, -1) then Some(UpRight)
    else if (dx, dy) == (-1, -1) then Some(UpLeft)
    else if (dx, dy) == (1, 1) then Some(DownRight)
    else if (dx, dy) == (-1, 1) then Some(DownLeft)
    else None
  }

  /** What the direction lookup of a move yields: the mover's own cell (an error), a direction,
      False, or a failed table lookup (a KeyError). */
  datatype Heading = AlreadyHere | Toward(dir: Direction) | NoHeading | Unmapped

  /** get_lcd_direction: the direction of travel from cur to prop. A unit step gets its name;
      a vertical step of two rows gets the name of the one-row step, but the guard also lets
      through an upward step of two rows with any column change, and those with a column change
      of two or more have no name. */
  function LcdDirection(cur: Coord, prop: Coord): (r: Heading)
    ensures r == AlreadyHere <==> prop == cur
    ensures r == Unmapped <==> prop.y - cur.y == -2 && (prop.x - cur.x < -1 || prop.x - cur.x > 1)
    ensures r.Toward? <==>
      || (-1 <= prop.x - cur.x <= 1 && -1 <= prop.y - cur.y <= 1 && prop != cur)
      || (prop.x - cur.x == 0 && prop.y - cur.y == 2)
      || (-1 <= prop.x - cur.x <= 1 && prop.y - cur.y == -2)
    ensures r.Toward? ==> Offset(r.dir).0 == prop.x - cur.x
    ensures r.Toward? ==> Offset(r.dir).1 == prop.y - cur.y || 2 * Offset(r.dir).1 == prop.y - cur.y
  {
    var dx, dy := prop.x - cur.x, prop.y - cur.y;
    if dx == 0 && dy == 0 then AlreadyHere
    else
      match UnitDirection(dx, dy)
      case Some(d) => Toward(d)
      case None =>
        if (dx == 0 && dy == 2) || dy == -2 then
          match UnitDirection(dx, dy / 2)
          case Some(d) => Toward(d)
          case None => Unmapped
        else NoHeading
  }

  /** The kind of a move: SIMPLE, DIAGONAL, COMPLICATED, the mover's own cell (move_type
      returns False), or a KeyError raised while classifying. */
  datatype MoveKind = SameCell | Simple | Diagonal | Complicated | KeyError

  /** move_type: orthogonal directions are SIMPLE, diagonal ones DIAGONAL, everything else
      COMPLICATED. Because two rows up or down also gets a one-row name, (0, +-2) is SIMPLE and
      (+-1, -2) is DIAGONAL. */
  function MoveType(cur: Coord, target: Coord): (k: MoveKind)
    ensures k == SameCell <==> target == cur
    ensures k == Simple <==>
      || (target.x == cur.x && (target.y - cur.y in {-2, -1, 1, 2}))
      || (target.y == cur.y && (target.x - cur.x in {-1, 1}))
    ensures k == Diagonal <==> target.x - cur.x in {-1, 1} && target.y - cur.y in {-2, -1, 1}
    ensures k == KeyError <==> target.y - cur.y == -2 && (target.x - cur.x < -1 || target.x - cur.x > 1)
  {
    match LcdDirection(cur, target)
    case AlreadyHere => SameCell
    case Unmapped => KeyError
    case Toward(d) => if d.Orthogonal() then Simple else Diagonal
    case NoHeading => Complicated
  }

  /** The side of the mover's cell that a SIMPLE move leaves through (two rows counts as one). */
  function StepSide(cur: Coord, target: Coord): (d: Direction)
    ensures d.Orthogonal()
  {
    if target.x > cur.x then Right
    else if target.x < cur.x then Left
    else if target.y < cur.y then Up
    else Down
  }

  /** is_valid_simple_move: the mover's cell (index me) has no wall on the side of travel and
      the target node is empty. */
  function IsValidSimpleMove(cells: seq<Node>, me: nat, target: Coord): (r: bool)
    requires me < |cells|
    ensures r ==> MoveType(cells[me].name, target) == Simple
  {
    match FindBoardNode(cells, target, 0)
    // an off-board target is refused before any validator runs
    case None => false
    case Some(t) =>
      match LcdDirection(cells[me].name, target)
      case Toward(d) => d.Orthogonal() && !Wall(cells[me], d) && cells[t].occupant.None?
      // a SIMPLE move always has an orthogonal heading
      case _ => false
  }

  /** wall_player_existence: the node one step from cur in direction v holds the opponent and
      is walled on that same side. */
  function WallPlayerExistence(cells: seq<Node>, v: Direction, cur: Coord, opponent: int): (r: bool)
    requires v.Orthogonal()
    ensures Named(cells) ==>
      (r <==> IsOnBoard(Nearby(cur, v)) && Wall(cells[Index(Nearby(cur, v))], v) &&
              cells[Index(Nearby(cur, v))].occupant == Some(opponent))
  {
    FindBoardNodeNamed(cells, Nearby(cur, v));
    match FindBoardNode(cells, Nearby(cur, v), 0)
    // the node ahead of a DIAGONAL move is always on the board
    case None => false
    case Some(a) => Wall(cells[a], v) && cells[a].occupant == Some(opponent)
  }

  /** is_valid_diag_move: the opponent stands straight ahead (up or down) with a wall behind
      it, the target is empty, and the opponent's cell (index them) is open on its near side and
      on the side toward the target. */
  function IsValidDiagMove(cells: seq<Node>, me: nat, them: nat, target: Coord, opponent: int): (r: bool)
    requires me < |cells| && them < |cells|
    ensures r ==> MoveType(cells[me].name, target) == Diagonal
  {
    match FindBoardNode(cells, target, 0)
    case None => false
    case Some(t) =>
      match LcdDirection(cells[me].name, target)
      case Toward(d) =>
        (match UpOrDown(d)
         case Some(v) =>
           var opp := OppositeDirection(v);
           var w := cells[them];
           && WallPlayerExistence(cells, v, cells[me].name, opponent)
           && cells[t].occupant.None?
           && ((d.HasLeft() && !Wall(w, opp) && !w.left) || (d.HasRight() && !Wall(w, opp) && !w.right))
         // a DIAGONAL move always goes up or down
         case None => false)
      case _ => false
  }

  /** What up_or_down gives for a looked-up heading: "up" or "down", False for a sideways
      direction, or the TypeError that testing `"up" in False` raises when there is no heading. */
  datatype VerticalSense = Goes(v: Direction) | Level | TypeErrorRaised

  /** up_or_down applied to the result of the direction lookup. */
  function UpOrDownOf(h: Heading): (r: VerticalSense)
    requires h.Toward? || h == NoHeading
    ensures r == TypeErrorRaised <==> h == NoHeading
    ensures r.Goes? ==> h.Toward? && UpOrDown(h.dir) == Some(r.v)
    ensures r == Level ==> h.Toward? && Offset(h.dir).1 == 0
  {
    match h
    case Toward(d) => (match UpOrDown(d) case Some(v) => Goes(v) case None => Level)
    case _ => TypeErrorRaised
  }

  /** The outcome of a validator that may raise: True, False, or an exception that escapes. */
  datatype CheckOutcome = Accepted | Rejected | Crashed

  /** is_valid_comp_move: the mover's own cell is refused (the error is caught); a lookup that
      raises the KeyError escapes; a move with no heading is refused (the TypeError of up_or_down
      is caught); a sideways heading makes False a key of the neighbour table and raises; otherwise
      the jump check runs: the cell straight ahead must be on the board (else asking the
      "does not exist" string for its player raises) and hold the opponent (else False), and if
      the node beyond the opponent (cell index them) is the target, the missing get_nearby_walls
      raises, so False is the only answer this validator ever gives. */
  function IsValidCompMove(cells: seq<Node>, me: nat, them: nat, target: Coord, opponent: int): (r: CheckOutcome)
    requires me < |cells| && them < |cells|
    ensures r != Accepted
    ensures MoveType(cells[me].name, target) in {SameCell, Complicated} ==> r == Rejected
  {
    var cur := cells[me].name;
    var h := LcdDirection(cur, target);
    if h == AlreadyHere then Rejected
    else if h == Unmapped then Crashed
    else
      match UpOrDownOf(h)
      case TypeErrorRaised => Rejected
      case Level => Crashed
      case Goes(v) =>
        match FindBoardNode(cells, Nearby(cur, v), 0)
        case None => Crashed
        case Some(a) =>
          if cells[a].occupant != Some(opponent) then Rejected
          else if FindBoardNode(cells, Nearby(cells[them].name, v), 0) == FindBoardNode(cells, target, 0) then Crashed
          else Rejected
  }

  /** On a row-major board a SIMPLE move is valid exactly when the mover's cell is open on the
      side of travel and the target cell is empty. */
  lemma SimpleMoveValidity(cells: seq<Node>, me: nat, target: Coord)
    requires Named(cells) && me < CellCount && IsOnBoard(target)
    requires MoveType(cells[me].name, target) == Simple
    ensures IsValidSimpleMove(cells, me, target) <==>
      !Wall(cells[me], StepSide(cells[me].name, target)) && cells[Index(target)].occupant == None
  {
    FindBoardNodeNamed(cells, target);
  }

  /** On a row-major board a DIAGONAL move is valid exactly when the cell straight ahead (up or
      down) holds the opponent and is walled on its far side, the opponent's cell is open on its
      near side and on the side toward the target, and the target is empty. */
  lemma DiagonalMoveValidity(cells: seq<Node>, me: nat, them: nat, target: Coord, opponent: int)
    requires Named(cells) && me < CellCount && them < CellCount && IsOnBoard(target)
    requires MoveType(cells[me].name, target) == Diagonal
    ensures var cur := cells[me].name;
      var v := if target.y < cur.y then Up else Down;
      IsOnBoard(Nearby(cur, v))
    ensures var cur := cells[me].name;
      var v := if target.y < cur.y then Up else Down;
      var side := if target.x < cur.x then Left else Right;
      var ahead := cells[Index(Nearby(cur, v))];
      IsValidDiagMove(cells, me, them, target, opponent) <==>
        && ahead.occupant == Some(opponent) && Wall(ahead, v)
        && !Wall(cells[them], OppositeDirection(v)) && !Wall(cells[them], side)
        && cells[Index(target)].occupant == None
  {
    var cur := cells[me].name;
    CoordOfIndex(me);
    var v := if target.y < cur.y then Up else Down;
    FindBoardNodeNamed(cells, target);
    FindBoardNodeNamed(cells, Nearby(cur, v));
  }
}

/** Fence segments and each player's fence budget and ledger. */
module Fences {
  import opened Grid

  /** The two fence tags: "v" (vertical) and "h" (horizontal). */
  datatype Orientation = Vertical | Horizontal

  /** A segment as the ledger records it: [[x, x'], [y, y']], in grid-line coordinates. */
  datatype Segment = Segment(x0: int, x1: int, y0: int, y1: int)

  /** A fence: its orientation and the coordinate it is created at. */
  datatype Fence = Fence(direction: Orientation, creationPoint: Coord)
  {
    /** The far end of the unit-long fence: one row down for "v", one column right for "h". */
    function FindEnd(): (e: Coord)
      ensures e == Nearby(creationPoint, if direction == Vertical then Down else Right)
    {
      match direction
      case Vertical => Coord(creationPoint.x, creationPoint.y + 1)
      case Horizontal => Coord(creationPoint.x + 1, creationPoint.y)
    }

    /** The ledger entry for this fence: start and end, x coordinates first. */
    function Entry(): Segment {
      var e := FindEnd();
      Segment(creationPoint.x, e.x, creationPoint.y, e.y)
    }
  }

  /** The grid-line segment that is side d of the cell at c (the cell spans c to c + (1, 1)). */
  function EdgeSegment(c: Coord, d: Direction): Segment
    requires d.Orthogonal()
  {
    match d
    case Left => Segment(c.x, c.x, c.y, c.y + 1)
    case Right => Segment(c.x + 1, c.x + 1, c.y, c.y + 1)
    case Up => Segment(c.x, c.x + 1, c.y, c.y)
    case Down => Segment(c.x, c.x + 1, c.y + 1, c.y + 1)
  }

  /** The ledger entry of a fence is the edge its wall flags stand for: a "v" fence at a is the
      left side of a and the right side of the cell to its left; an "h" fence at a is the top
      side of a and the bottom side of the cell above. */
  lemma EntryIsWalledEdge(f: Fence)
    ensures f.direction == Vertical ==>
      f.Entry() == EdgeSegment(f.creationPoint, Left) &&
      f.Entry() == EdgeSegment(Nearby(f.creationPoint, Left), Right)
    ensures f.direction == Horizontal ==>
      f.Entry() == EdgeSegment(f.creationPoint, Up) &&
      f.Entry() == EdgeSegment(Nearby(f.creationPoint, Up), Down)
    ensures f.FindEnd() != f.creationPoint
  {
  }

  /** The number of fences each player starts with. */
  const FenceBudget: int := 10

  /** A player: name, home, current position, remaining fences and the ledger of placed ones. */
  class Player {
    const name: int
    const homePosition: Coord
    var currentPosition: Coord
    var fences: seq<Segment>
    var fenceCount: int

    /** A player at home with the full budget and an empty ledger. */
    constructor (name: int, home: Coord)
      ensures this.name == name && homePosition == home && currentPosition == home
      ensures fences == [] && fenceCount == FenceBudget
    {
      this.name := name;
      homePosition := home;
      currentPosition := home;
      fences := [];
      fenceCount := FenceBudget;
    }

    /** The ledger and the budget agree and the budget lies in 0..10. */
    ghost predicate LedgerValid()
      reads this
    {
      0 <= fenceCount <= FenceBudget && |fences| + fenceCount == FenceBudget
    }

    /** Whether the player has a fence left. */
    predicate IsFenceAvailable()
      reads this
      ensures LedgerValid() ==> (IsFenceAvailable() <==> |fences| < FenceBudget)
    {
      fenceCount > 0
    }

    /** Deducts one fence from the budget and returns what is left. */
    method RemoveFence() returns (left: int)
      modifies this
      ensures fenceCount == old(fenceCount) - 1 && left == fenceCount
      ensures fences == old(fences) && currentPosition == old(currentPosition)
    {
      fenceCount := fenceCount - 1;
      left := fenceCount;
    }

    /** With a fence left, appends the fence's segment to the ledger and spends one fence;
        with none left, reports failure and changes nothing. */
    method AddNewFence(direction: Orientation, pos: Coord) returns (ok: bool)
      modifies this
      ensures ok == (old(fenceCount) > 0)
      ensures ok ==> fences == old(fences) + [Fence(direction, pos).Entry()] && fenceCount == old(fenceCount) - 1
      ensures !ok ==> fences == old(fences) && fenceCount == old(fenceCount)
      ensures currentPosition == old(currentPosition)
      ensures old(LedgerValid()) ==> LedgerValid()
    {
      if IsFenceAvailable() {
        var newFence := Fence(direction, pos);
        fences := fences + [newFence.Entry()];
        var _ := RemoveFence();
        ok := true;
      } else {
        ok := false;
      }
    }
  }
}

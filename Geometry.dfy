/** Neighbourhoods of a cell and the per-type move offsets. */
module Geometry {
  import opened Model

  function Abs(x: int): nat {
    if x < 0 then -x else x
  }

  /** 8-neighbourhood: a different cell at most one step away in each direction. */
  predicate Adjacent(a: Position, b: Position) {
    a != b && Abs(a.row - b.row) <= 1 && Abs(a.col - b.col) <= 1
  }

  /** 4-neighbourhood: one orthogonal step. */
  predicate OrthogonallyAdjacent(a: Position, b: Position) {
    Abs(a.row - b.row) + Abs(a.col - b.col) == 1
  }

  /** getAdjacentPositions, in the source's order. */
  function AdjacentPositions(p: Position): (ns: seq<Position>)
    ensures |ns| == 8
    ensures forall q :: q in ns <==> Adjacent(p, q)
  {
    [ Position(p.row - 1, p.col), Position(p.row + 1, p.col),
      Position(p.row, p.col - 1), Position(p.row, p.col + 1),
      Position(p.row - 1, p.col - 1), Position(p.row - 1, p.col + 1),
      Position(p.row + 1, p.col - 1), Position(p.row + 1, p.col + 1) ]
  }

  /** The four orthogonal neighbours that isPlacementValid and checkWinCondition list inline. */
  function DirectAdjacentPositions(p: Position): (ns: seq<Position>)
    ensures |ns| == 4
    ensures forall q :: q in ns <==> OrthogonallyAdjacent(p, q)
    ensures forall i, j :: 0 <= i < j < |ns| ==> ns[i] != ns[j]
  {
    [ Position(p.row - 1, p.col), Position(p.row + 1, p.col),
      Position(p.row, p.col - 1), Position(p.row, p.col + 1) ]
  }

  /** allowedMovesMap: the offsets a piece of each type may move by. Every type
      has an entry, of four or eight distinct offsets, none of them staying put. */
  function AllowedMoves(t: BirdType): (ms: seq<Position>)
    ensures |ms| == if t in {REGULAR, AGENT, SHOOTER} then 4 else 8
    ensures forall i, j :: 0 <= i < j < |ms| ==> ms[i] != ms[j]
    ensures Position(0, 0) !in ms
  {
    match t
    case REGULAR | AGENT =>
      [Position(-1, 0), Position(1, 0), Position(0, -1), Position(0, 1)]
    case SHOOTER =>
      [Position(-1, -1), Position(-1, 1), Position(1, -1), Position(1, 1)]
    case HIT_MAN | BOSS =>
      [ Position(-1, -1), Position(-1, 0), Position(-1, 1),
        Position(0, -1), Position(0, 1),
        Position(1, -1), Position(1, 0), Position(1, 1) ]
    case BOMBER =>
      [ Position(-2, -1), Position(-2, 1), Position(-1, -2), Position(-1, 2),
        Position(1, -2), Position(1, 2), Position(2, -1), Position(2, 1) ]
  }

  /** The geometric reading of each offset table. */
  predicate MoveShape(t: BirdType, dr: int, dc: int) {
    match t
    case REGULAR | AGENT => Abs(dr) + Abs(dc) == 1
    case SHOOTER => Abs(dr) == 1 && Abs(dc) == 1
    case HIT_MAN | BOSS => Abs(dr) <= 1 && Abs(dc) <= 1 && (dr, dc) != (0, 0)
    case BOMBER => (Abs(dr) == 2 && Abs(dc) == 1) || (Abs(dr) == 1 && Abs(dc) == 2)
  }

  /** Each offset table lists exactly the offsets of its shape: one orthogonal step
      (AGENT included: there is no sliding), one diagonal step, a king step, a knight jump. */
  lemma AllowedMovesShape(t: BirdType, dr: int, dc: int)
    ensures Position(dr, dc) in AllowedMoves(t) <==> MoveShape(t, dr, dc)
  {
  }
}

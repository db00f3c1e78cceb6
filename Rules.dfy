/** Legality of placements and moves, the structural re-check, and win detection. */
module Rules {
  import opened Model
  import opened Geometry
  import opened Connectivity

  function Opponent(p: Player): (q: Player)
    ensures q != p
  {
    if p == PLAYER1 then PLAYER2 else PLAYER1
  }

  /** The check isMoveValid and isPlacementValid make: at most four distinct
      occupied rows and at most four distinct occupied columns. */
  predicate FourLinesOrFewer(cells: set<Position>) {
    |Rows(cells)| <= 4 && |Cols(cells)| <= 4
  }

  /** The check isValidMoveAndGetUpdatedBoard makes on the bounding box. */
  predicate WithinFootprint(b: BoardBounds) {
    b.maxRow - b.minRow + 1 <= MaxBoardHeight && b.maxCol - b.minCol + 1 <= MaxBoardWidth
  }

  /** The integers from `lo` to `hi`. */
  function Interval(lo: int, hi: int): (r: set<int>)
    ensures forall x :: x in r <==> lo <= x <= hi
    ensures lo <= hi + 1 ==> |r| == hi - lo + 1
    decreases hi - lo
  {
    if lo > hi then {} else Interval(lo, hi - 1) + {hi}
  }

  /** Fewer cells never occupy more rows or columns. */
  lemma FewerCellsFewerLines(a: set<Position>, b: set<Position>)
    requires a <= b
    ensures FourLinesOrFewer(b) ==> FourLinesOrFewer(a)
  {
    assert Rows(a) <= Rows(b) && Cols(a) <= Cols(b);
    SubsetCard(Rows(a), Rows(b));
    SubsetCard(Cols(a), Cols(b));
  }

  /** Cells confined to rows `lo`..`hi` occupy at most `hi - lo + 1` distinct rows. */
  lemma RowsBetween(cells: set<Position>, lo: int, hi: int)
    requires lo <= hi + 1
    requires forall p :: p in cells ==> lo <= p.row <= hi
    ensures |Rows(cells)| <= hi - lo + 1
  {
    assert Rows(cells) <= Interval(lo, hi);
    SubsetCard(Rows(cells), Interval(lo, hi));
  }

  lemma ColsBetween(cells: set<Position>, lo: int, hi: int)
    requires lo <= hi + 1
    requires forall p :: p in cells ==> lo <= p.col <= hi
    ensures |Cols(cells)| <= hi - lo + 1
  {
    assert Cols(cells) <= Interval(lo, hi);
    SubsetCard(Cols(cells), Interval(lo, hi));
  }

  /** Along a walk the row changes by at most one per step, so every row between
      the first cell's and the last cell's is met. */
  lemma {:induction false} WalkMeetsEveryRow(cells: set<Position>, w: seq<Position>, r: int)
    requires IsWalk(cells, w) && w[0].row <= r <= w[|w| - 1].row
    ensures r in Rows(cells)
    decreases |w|
  {
    var last := w[|w| - 1];
    if r == last.row {
      assert last in cells;
    } else {
      var w' := w[..|w| - 1];
      assert IsWalk(cells, w');
      assert Adjacent(w[|w| - 2], last);
      WalkMeetsEveryRow(cells, w', r);
    }
  }

  lemma {:induction false} WalkMeetsEveryCol(cells: set<Position>, w: seq<Position>, c: int)
    requires IsWalk(cells, w) && w[0].col <= c <= w[|w| - 1].col
    ensures c in Cols(cells)
    decreases |w|
  {
    var last := w[|w| - 1];
    if c == last.col {
      assert last in cells;
    } else {
      var w' := w[..|w| - 1];
      assert IsWalk(cells, w');
      assert Adjacent(w[|w| - 2], last);
      WalkMeetsEveryCol(cells, w', c);
    }
  }

  /** On a connected board the occupied rows and columns have no gaps, so the
      distinct-count check and the bounding-box check agree. */
  lemma ConnectedLinesAreContiguous(board: Board)
    requires Connected(board.Keys) && |board| > 0
    ensures var b := CalculateBoardBounds(board, None);
      Rows(board.Keys) == Interval(b.minRow, b.maxRow) &&
      Cols(board.Keys) == Interval(b.minCol, b.maxCol)
  {
    var cells := board.Keys;
    var b := CalculateBoardBounds(board, None);
    var top :| top in board && top.row == b.minRow;
    var bottom :| bottom in board && bottom.row == b.maxRow;
    var left :| left in board && left.col == b.minCol;
    var right :| right in board && right.col == b.maxCol;
    assert Reachable(cells, top, bottom) && Reachable(cells, left, right);
    var wr :| IsWalk(cells, wr) && wr[0] == top && wr[|wr| - 1] == bottom;
    var wc :| IsWalk(cells, wc) && wc[0] == left && wc[|wc| - 1] == right;
    forall r | r in Interval(b.minRow, b.maxRow) ensures r in Rows(cells) {
      WalkMeetsEveryRow(cells, wr, r);
    }
    forall c | c in Interval(b.minCol, b.maxCol) ensures c in Cols(cells) {
      WalkMeetsEveryCol(cells, wc, c);
    }
  }

  lemma ConnectedFootprintIsFourLines(board: Board)
    requires Connected(board.Keys)
    ensures WithinFootprint(CalculateBoardBounds(board, None)) <==> FourLinesOrFewer(board.Keys)
  {
    if |board| == 0 {
      assert Rows(board.Keys) == {} && Cols(board.Keys) == {};
    } else {
      var b := CalculateBoardBounds(board, None);
      ConnectedLinesAreContiguous(board);
    }
  }

  // ---------------------------------------------------------------- moves

  /** The board isMoveValid simulates: write the piece at `to`, then drop `from`.
      In this order a "move" onto `from` itself takes the piece off the board. */
  function SimulatedMove(board: Board, from: Position, to: Position): (simulated: Board)
    requires from in board
    ensures simulated.Keys == board.Keys + {to} - {from}
    ensures forall q :: q in simulated ==> simulated[q] == if q == to then board[from] else board[q]
  {
    board[to := board[from]] - {from}
  }

  predicate TouchesHive(board: Board, to: Position) {
    exists n :: n in AdjacentPositions(to) && n in board
  }

  /** isMoveValid: `to` touches an occupied cell of the board as it is before the
      move (possibly `from` itself), the simulated board has at most four distinct
      rows and columns, and `to - from` is in the piece's offset table. It does
      not look at the cells in between, at connectivity, or at whether `to` is free. */
  function IsMoveValid(from: Position, to: Position, birdType: BirdType, board: Board): (valid: bool)
    requires from in board
    ensures valid <==>
      (exists n :: n in board && Adjacent(to, n)) &&
      FourLinesOrFewer(SimulatedMove(board, from, to).Keys) &&
      MoveShape(birdType, to.row - from.row, to.col - from.col)
    ensures valid ==> to != from
  {
    AllowedMovesShape(birdType, to.row - from.row, to.col - from.col);
    if !TouchesHive(board, to) then
      false
    else
      var simulatedBoard := SimulatedMove(board, from, to);
      if |Rows(simulatedBoard.Keys)| > 4 || |Cols(simulatedBoard.Keys)| > 4 then
        false
      else
        exists m | m in AllowedMoves(birdType) :: Position(from.row + m.row, from.col + m.col) == to
  }

  // ----------------------------------------------------------- placements

  predicate HoldsOwnBird(board: Board, q: Position, player: Player) {
    q in board && board[q].player == player
  }

  predicate HoldsEnemyBoss(board: Board, q: Position, player: Player) {
    q in board && board[q].player != player && board[q].birdType == BOSS
  }

  /** The placement rule: some 8-neighbour holds one of `player`'s pieces, no
      orthogonal neighbour holds the other side's BOSS, and with the cell added
      the board still has at most four distinct rows and columns. */
  ghost predicate PlacementAllowed(position: Position, board: Board, player: Player) {
    (exists n :: Adjacent(position, n) && HoldsOwnBird(board, n, player)) &&
    (forall n :: OrthogonallyAdjacent(position, n) ==> !HoldsEnemyBoss(board, n, player)) &&
    FourLinesOrFewer(board.Keys + {position})
  }

  /** isPlacementValid: a flag loop over the 8-neighbours, an early return on an
      orthogonal enemy BOSS, then the four-lines check on the board with a
      placeholder piece added. Occupancy of `position` is not checked here. */
  method IsPlacementValid(position: Position, board: Board, player: Player) returns (valid: bool)
    ensures valid == PlacementAllowed(position, board, player)
  {
    var adjacentPositions := AdjacentPositions(position);
    var hasAdjacentOwnBird := false;
    var i := 0;
    while i < |adjacentPositions|
      invariant 0 <= i <= |adjacentPositions|
      invariant !hasAdjacentOwnBird
      invariant forall k :: 0 <= k < i ==> !HoldsOwnBird(board, adjacentPositions[k], player)
    {
      if HoldsOwnBird(board, adjacentPositions[i], player) {
        hasAdjacentOwnBird := true;
        break;
      }
      i := i + 1;
    }
    assert hasAdjacentOwnBird <==> exists n :: Adjacent(position, n) && HoldsOwnBird(board, n, player) by {
      if hasAdjacentOwnBird {
        assert Adjacent(position, adjacentPositions[i]);
      } else {
        forall n | Adjacent(position, n) ensures !HoldsOwnBird(board, n, player) {
          var k :| 0 <= k < |adjacentPositions| && adjacentPositions[k] == n;
        }
      }
    }

    var directAdjacentPositions := DirectAdjacentPositions(position);
    var j := 0;
    while j < |directAdjacentPositions|
      invariant 0 <= j <= |directAdjacentPositions|
      invariant forall k :: 0 <= k < j ==> !HoldsEnemyBoss(board, directAdjacentPositions[k], player)
    {
      if HoldsEnemyBoss(board, directAdjacentPositions[j], player) {
        assert OrthogonallyAdjacent(position, directAdjacentPositions[j]);
        return false;
      }
      j := j + 1;
    }
    assert forall n :: OrthogonallyAdjacent(position, n) ==> !HoldsEnemyBoss(board, n, player) by {
      forall n | OrthogonallyAdjacent(position, n) ensures !HoldsEnemyBoss(board, n, player) {
        var k :| 0 <= k < |directAdjacentPositions| && directAdjacentPositions[k] == n;
      }
    }

    if !hasAdjacentOwnBird {
      return false;
    }

    var simulatedBoard := board[position := Bird(REGULAR, player, 0)];
    assert simulatedBoard.Keys == board.Keys + {position};
    valid := |Rows(simulatedBoard.Keys)| <= 4 && |Cols(simulatedBoard.Keys)| <= 4;
  }

  // ------------------------------------------------- structural re-check

  /** isValidMoveAndGetUpdatedBoard: the candidate is accepted when it is connected
      and its bounding box is at most 4 by 4; the board is returned as given. */
  method IsValidMoveAndGetUpdatedBoard(newBoard: Board) returns (isValid: bool, finalBoard: Board)
    ensures finalBoard == newBoard
    ensures isValid == (Connected(newBoard.Keys) && WithinFootprint(CalculateBoardBounds(newBoard, None)))
  {
    var newBounds := CalculateBoardBounds(newBoard, None);
    var connected := IsMoveValidBoardState(newBoard);
    isValid := connected &&
      newBounds.maxRow - newBounds.minRow + 1 <= 4 &&
      newBounds.maxCol - newBounds.minCol + 1 <= 4;
    finalBoard := newBoard;
  }

  // ------------------------------------------------------------------ win

  /** isEdgePositionForBoss: a cell counts as edge when exactly four distinct rows
      are occupied and its row lies outside them, or likewise for columns. */
  function IsEdgePositionForBoss(position: Position, board: Board): (edge: bool)
    ensures edge ==> position !in board
    ensures edge <==>
      var b := CalculateBoardBounds(board, None);
      (|Rows(board.Keys)| == 4 && (position.row < b.minRow || position.row > b.maxRow)) ||
      (|Cols(board.Keys)| == 4 && (position.col < b.minCol || position.col > b.maxCol))
  {
    var occupiedRows := Rows(board.Keys);
    var occupiedCols := Cols(board.Keys);
    var rowEdge := |occupiedRows| == 4 && (position.row < Least(occupiedRows) || position.row > Greatest(occupiedRows));
    var colEdge := |occupiedCols| == 4 && (position.col < Least(occupiedCols) || position.col > Greatest(occupiedCols));
    assert rowEdge || colEdge ==> position !in board by {
      if position in board {
        assert position.row in occupiedRows && position.col in occupiedCols;
      }
    }
    rowEdge || colEdge
  }

  predicate Blocking(q: Position, board: Board) {
    q in board || IsEdgePositionForBoss(q, board)
  }

  /** The `count` of blocking cells among `cells`. */
  function CountBlocking(cells: seq<Position>, board: Board): (n: nat)
    ensures n <= |cells|
    ensures n == |cells| <==> forall i :: 0 <= i < |cells| ==> Blocking(cells[i], board)
  {
    if cells == [] then 0
    else (if Blocking(cells[0], board) then 1 else 0) + CountBlocking(cells[1..], board)
  }

  predicate BossSurrounded(board: Board, p: Position) {
    CountBlocking(DirectAdjacentPositions(p), board) == 4
  }

  /** A boss is surrounded exactly when each of its four orthogonal neighbours is
      occupied or counts as edge. */
  lemma SurroundedMeansFourSidesBlocked(board: Board, p: Position)
    ensures BossSurrounded(board, p) <==> forall q :: OrthogonallyAdjacent(p, q) ==> Blocking(q, board)
  {
    var ns := DirectAdjacentPositions(p);
    if forall q :: OrthogonallyAdjacent(p, q) ==> Blocking(q, board) {
      assert forall i :: 0 <= i < |ns| ==> Blocking(ns[i], board) by {
        forall i | 0 <= i < |ns| ensures Blocking(ns[i], board) {
          assert ns[i] in ns;
        }
      }
    }
  }

  ghost predicate WinnerIs(board: Board, w: Player) {
    exists p :: p in board && board[p].birdType == BOSS && BossSurrounded(board, p) && Opponent(board[p].player) == w
  }

  ghost predicate HasWinner(board: Board) {
    exists p :: p in board && board[p].birdType == BOSS && BossSurrounded(board, p)
  }

  /** checkWinCondition: looks at the BOSS cells one by one and reports the
      opponent of the owner of the first one found surrounded, or None. */
  method CheckWinCondition(gameState: GameState) returns (winner: Option<Player>)
    ensures winner.None? <==> !HasWinner(gameState.board)
    ensures winner.Some? ==> WinnerIs(gameState.board, winner.value)
  {
    var board := gameState.board;
    var bossPositions := set p | p in board && board[p].birdType == BOSS;
    var remaining := bossPositions;
    while remaining != {}
      invariant remaining <= bossPositions
      invariant forall p :: p in bossPositions && p !in remaining ==> !BossSurrounded(board, p)
      decreases remaining
    {
      var position :| position in remaining;
      var boss := board[position];
      var surroundingBirds := CountBlocking(DirectAdjacentPositions(position), board);
      if surroundingBirds == 4 {
        return Some(if boss.player == PLAYER1 then PLAYER2 else PLAYER1);
      }
      remaining := remaining - {position};
    }
    return None;
  }
}

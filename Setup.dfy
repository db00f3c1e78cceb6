/** The starting position and the reserves, and a few concrete positions that
    show how the rules read on small boards. */
module Setup {
  import opened Model
  import opened Geometry
  import opened Connectivity
  import opened Rules

  /** A BOSS of `player` stands somewhere on the board. */
  ghost predicate BossOnBoard(board: Board, player: Player) {
    exists p :: p in board && board[p].birdType == BOSS && board[p].player == player
  }

  /** What every published board satisfies: one connected group inside a 4 by 4
      box, with both bosses still on it. */
  ghost predicate HiveInvariant(board: Board) {
    Connected(board.Keys) &&
    FourLinesOrFewer(board.Keys) &&
    BossOnBoard(board, PLAYER1) && BossOnBoard(board, PLAYER2)
  }

  /** A board with the invariant also passes the bounding-box check: at most
      `MaxBoardHeight` rows from top to bottom and `MaxBoardWidth` columns across. */
  lemma HiveFitsFootprint(board: Board)
    requires HiveInvariant(board)
    ensures WithinFootprint(CalculateBoardBounds(board, None))
  {
    ConnectedFootprintIsFourLines(board);
  }

  /** initializeGame: the two bosses stacked in column 1, PLAYER1 to move.
      `ids` holds the drawable resource ids. */
  function InitializeGame(ids: Drawables): (gs: GameState)
    ensures gs.currentPlayer == PLAYER1 && gs.boardWidth == 3 && gs.boardHeight == 4
    ensures gs.board.Keys == {Position(2, 1), Position(1, 1)}
    ensures gs.board[Position(2, 1)] == Bird(BOSS, PLAYER1, GetBirdDrawableResId(ids, BOSS, PLAYER1))
    ensures gs.board[Position(1, 1)] == Bird(BOSS, PLAYER2, GetBirdDrawableResId(ids, BOSS, PLAYER2))
  {
    var board := map[Position(2, 1) := Bird(BOSS, PLAYER1, GetBirdDrawableResId(ids, BOSS, PLAYER1))];
    var board := board[Position(1, 1) := Bird(BOSS, PLAYER2, GetBirdDrawableResId(ids, BOSS, PLAYER2))];
    GameState(board, 3, 4, PLAYER1)
  }

  /** The starting board already satisfies the invariant the handlers keep. */
  lemma InitialHiveInvariant(ids: Drawables)
    ensures HiveInvariant(InitializeGame(ids).board)
    ensures CalculateBoardBounds(InitializeGame(ids).board, None) == BoardBounds(1, 2, 1, 1)
  {
    var board := InitializeGame(ids).board;
    var a, b := Position(2, 1), Position(1, 1);
    assert Adjacent(a, b) && Adjacent(b, a);
    assert IsWalk(board.Keys, [a, b]) && IsWalk(board.Keys, [b, a]);
    ReachableRefl(board.Keys, a);
    ReachableRefl(board.Keys, b);
    assert Reachable(board.Keys, a, b) && Reachable(board.Keys, b, a);
    assert Rows(board.Keys) == {1, 2} && Cols(board.Keys) == {1};
    assert board[a].birdType == BOSS && board[a].player == PLAYER1;
    assert board[b].birdType == BOSS && board[b].player == PLAYER2;
  }

  predicate HasBirdOfType(birds: seq<Bird>, t: BirdType) {
    exists b :: b in birds && b.birdType == t
  }

  /** createPlayerBirds: one piece of each non-BOSS type, in this order. */
  function CreatePlayerBirds(player: Player, ids: Drawables): (birds: seq<Bird>)
    ensures |birds| == 5
    ensures forall b :: b in birds ==> b.player == player && b.birdType != BOSS && b.drawableResId == GetBirdDrawableResId(ids, b.birdType, player)
    ensures forall t :: t != BOSS ==> HasBirdOfType(birds, t)
    ensures forall i, j :: 0 <= i < j < |birds| ==> birds[i].birdType != birds[j].birdType
  {
    var birds := [
      Bird(REGULAR, player, GetBirdDrawableResId(ids, REGULAR, player)),
      Bird(SHOOTER, player, GetBirdDrawableResId(ids, SHOOTER, player)),
      Bird(HIT_MAN, player, GetBirdDrawableResId(ids, HIT_MAN, player)),
      Bird(AGENT, player, GetBirdDrawableResId(ids, AGENT, player)),
      Bird(BOMBER, player, GetBirdDrawableResId(ids, BOMBER, player))];
    assert forall t :: t != BOSS ==> HasBirdOfType(birds, t) by {
      forall t | t != BOSS ensures HasBirdOfType(birds, t) {
        var i := match t case REGULAR => 0 case SHOOTER => 1 case HIT_MAN => 2 case AGENT => 3 case _ => 4;
        assert birds[i] in birds && birds[i].birdType == t;
      }
    }
    birds
  }

  // ------------------------------------------------------ concrete positions

  /** The orthogonal-neighbour clause of the placement rule, read off the four listed cells. */
  lemma NoEnemyBossAround(position: Position, board: Board, player: Player)
    requires forall n :: n in DirectAdjacentPositions(position) ==> !HoldsEnemyBoss(board, n, player)
    ensures forall n :: OrthogonallyAdjacent(position, n) ==> !HoldsEnemyBoss(board, n, player)
  {
  }

  /** The own-piece clause of the placement rule, read off the eight listed cells. */
  lemma NoOwnBirdAround(position: Position, board: Board, player: Player)
    requires forall n :: n in AdjacentPositions(position) ==> !HoldsOwnBird(board, n, player)
    ensures forall n :: Adjacent(position, n) ==> !HoldsOwnBird(board, n, player)
  {
  }

  lemma EnemyBossBlocksPlacement(position: Position, board: Board, player: Player, n: Position)
    requires OrthogonallyAdjacent(position, n) && HoldsEnemyBoss(board, n, player)
    ensures !PlacementAllowed(position, board, player)
  {
  }

  /** On the starting board PLAYER1 may place directly below its own boss ... */
  lemma OpeningPlacementBelowBoss(ids: Drawables)
    ensures PlacementAllowed(Position(3, 1), InitializeGame(ids).board, PLAYER1)
  {
    var board := InitializeGame(ids).board;
    var p := Position(3, 1);
    assert Adjacent(p, Position(2, 1)) && HoldsOwnBird(board, Position(2, 1), PLAYER1);
    BelowBossNotNextToEnemy(ids);
    BelowBossFourLines(ids);
  }

  lemma BelowBossNotNextToEnemy(ids: Drawables)
    ensures forall n :: OrthogonallyAdjacent(Position(3, 1), n) ==> !HoldsEnemyBoss(InitializeGame(ids).board, n, PLAYER1)
  {
    var p := Position(3, 1);
    assert DirectAdjacentPositions(p) == [Position(2, 1), Position(4, 1), Position(3, 0), Position(3, 2)];
    NoEnemyBossAround(p, InitializeGame(ids).board, PLAYER1);
  }

  lemma BelowBossFourLines(ids: Drawables)
    ensures FourLinesOrFewer(InitializeGame(ids).board.Keys + {Position(3, 1)})
  {
    var cells := InitializeGame(ids).board.Keys + {Position(3, 1)};
    RowsBetween(cells, 1, 3);
    ColsBetween(cells, 1, 1);
  }

  /** ... but not above the enemy boss, though that cell touches its own boss too ... */
  lemma OpeningPlacementNextToEnemyBoss(ids: Drawables)
    ensures !PlacementAllowed(Position(0, 1), InitializeGame(ids).board, PLAYER1)
  {
    EnemyBossBlocksPlacement(Position(0, 1), InitializeGame(ids).board, PLAYER1, Position(1, 1));
  }

  /** ... and not on a cell that touches none of its pieces. */
  lemma OpeningPlacementDetached(ids: Drawables)
    ensures !PlacementAllowed(Position(3, 3), InitializeGame(ids).board, PLAYER1)
  {
    var board := InitializeGame(ids).board;
    var p := Position(3, 3);
    assert AdjacentPositions(p) == [ Position(2, 3), Position(4, 3), Position(3, 2), Position(3, 4),
      Position(2, 2), Position(2, 4), Position(4, 2), Position(4, 4) ];
    NoOwnBirdAround(p, board, PLAYER1);
  }

  /** A position in which the PLAYER2 boss at (1, 1) is boxed in on all four sides
      while the PLAYER1 boss below it has a free cell. */
  function SurroundedBoard(ids: Drawables): (board: Board)
    ensures board.Keys == {Position(1, 1), Position(2, 1), Position(0, 1), Position(1, 0), Position(1, 2)}
    ensures forall p :: p in board && board[p].birdType == BOSS ==>
      (p == Position(1, 1) && board[p].player == PLAYER2) || (p == Position(2, 1) && board[p].player == PLAYER1)
  {
    map[Position(1, 1) := Bird(BOSS, PLAYER2, GetBirdDrawableResId(ids, BOSS, PLAYER2)),
        Position(2, 1) := Bird(BOSS, PLAYER1, GetBirdDrawableResId(ids, BOSS, PLAYER1)),
        Position(0, 1) := Bird(REGULAR, PLAYER1, GetBirdDrawableResId(ids, REGULAR, PLAYER1)),
        Position(1, 0) := Bird(SHOOTER, PLAYER1, GetBirdDrawableResId(ids, SHOOTER, PLAYER1)),
        Position(1, 2) := Bird(AGENT, PLAYER1, GetBirdDrawableResId(ids, AGENT, PLAYER1))]
  }

  /** All four sides occupied: PLAYER1 wins. */
  lemma SurroundedBossLoses(ids: Drawables)
    ensures WinnerIs(SurroundedBoard(ids), PLAYER1)
  {
    var board := SurroundedBoard(ids);
    var boss2 := Position(1, 1);
    var ns := DirectAdjacentPositions(boss2);
    assert ns == [Position(0, 1), Position(2, 1), Position(1, 0), Position(1, 2)];
    assert forall i :: 0 <= i < |ns| ==> Blocking(ns[i], board);
    assert BossSurrounded(board, boss2);
    assert board[boss2].birdType == BOSS && board[boss2].player == PLAYER2;
  }

  /** Only three rows and three columns are occupied, so the free cell below the
      PLAYER1 boss is no edge ... */
  lemma Player1BossHasFreeSide(ids: Drawables)
    ensures !BossSurrounded(SurroundedBoard(ids), Position(2, 1))
  {
    var board := SurroundedBoard(ids);
    var cells := board.Keys;
    RowsBetween(cells, 0, 2);
    ColsBetween(cells, 0, 2);
    var ns := DirectAdjacentPositions(Position(2, 1));
    assert ns[1] == Position(3, 1) && !Blocking(ns[1], board);
  }

  /** ... so PLAYER2 does not win. */
  lemma FreeSideIsNoEdge(ids: Drawables)
    ensures !WinnerIs(SurroundedBoard(ids), PLAYER2)
  {
    Player1BossHasFreeSide(ids);
  }

  /** With exactly four rows occupied, the cell above the top row counts as
      blocking: the PLAYER2 boss at (1, 1) is surrounded by three pieces and the edge. */
  function EdgeBoard(ids: Drawables): (board: Board)
    ensures board.Keys == {Position(1, 1), Position(2, 1), Position(3, 1), Position(4, 1), Position(1, 0), Position(1, 2)}
  {
    map[Position(1, 1) := Bird(BOSS, PLAYER2, GetBirdDrawableResId(ids, BOSS, PLAYER2)),
        Position(2, 1) := Bird(BOSS, PLAYER1, GetBirdDrawableResId(ids, BOSS, PLAYER1)),
        Position(3, 1) := Bird(REGULAR, PLAYER1, GetBirdDrawableResId(ids, REGULAR, PLAYER1)),
        Position(4, 1) := Bird(HIT_MAN, PLAYER1, GetBirdDrawableResId(ids, HIT_MAN, PLAYER1)),
        Position(1, 0) := Bird(SHOOTER, PLAYER1, GetBirdDrawableResId(ids, SHOOTER, PLAYER1)),
        Position(1, 2) := Bird(AGENT, PLAYER1, GetBirdDrawableResId(ids, AGENT, PLAYER1))]
  }

  /** Rows 1 to 4 are occupied ... */
  lemma EdgeBoardRows(ids: Drawables)
    ensures |Rows(EdgeBoard(ids).Keys)| == 4
  {
    var cells := EdgeBoard(ids).Keys;
    RowsBetween(cells, 1, 4);
    assert Position(1, 1).row in Rows(cells) && Position(2, 1).row in Rows(cells);
    assert Position(3, 1).row in Rows(cells) && Position(4, 1).row in Rows(cells);
    SubsetCard({1, 2, 3, 4}, Rows(cells));
  }

  /** ... and without the piece at (4, 1) only rows 1 to 3 and columns 0 to 2. */
  lemma ThreeRowBoardLines(ids: Drawables)
    ensures |Rows(EdgeBoard(ids).Keys - {Position(4, 1)})| == 3
    ensures |Cols(EdgeBoard(ids).Keys - {Position(4, 1)})| == 3
  {
    var rest := EdgeBoard(ids).Keys - {Position(4, 1)};
    assert rest == {Position(1, 1), Position(2, 1), Position(3, 1), Position(1, 0), Position(1, 2)};
    RowsBetween(rest, 1, 3);
    ColsBetween(rest, 0, 2);
    assert Position(1, 1).row in Rows(rest) && Position(2, 1).row in Rows(rest) && Position(3, 1).row in Rows(rest);
    assert Position(1, 0).col in Cols(rest) && Position(1, 1).col in Cols(rest) && Position(1, 2).col in Cols(rest);
    SubsetCard({1, 2, 3}, Rows(rest));
    SubsetCard({0, 1, 2}, Cols(rest));
  }

  lemma EdgeCountsAsBlocking(ids: Drawables)
    ensures IsEdgePositionForBoss(Position(0, 1), EdgeBoard(ids))
  {
    EdgeBoardRows(ids);
  }

  lemma EdgeSurroundedBossLoses(ids: Drawables)
    ensures WinnerIs(EdgeBoard(ids), PLAYER1)
  {
    var board := EdgeBoard(ids);
    var boss2 := Position(1, 1);
    EdgeCountsAsBlocking(ids);
    var ns := DirectAdjacentPositions(boss2);
    assert ns == [Position(0, 1), Position(2, 1), Position(1, 0), Position(1, 2)];
    assert forall i :: 0 <= i < |ns| ==> Blocking(ns[i], board);
    assert BossSurrounded(board, boss2);
    assert board[boss2].birdType == BOSS && board[boss2].player == PLAYER2;
  }

  /** The same position with only three rows occupied: the cell above the boss is
      free and no longer counts as edge, so the boss is not surrounded. */
  lemma ThreeRowsAreNoEdge(ids: Drawables)
    ensures var board := EdgeBoard(ids) - {Position(4, 1)};
      !IsEdgePositionForBoss(Position(0, 1), board) && !BossSurrounded(board, Position(1, 1))
  {
    var board := EdgeBoard(ids) - {Position(4, 1)};
    ThreeRowBoardLines(ids);
    assert !IsEdgePositionForBoss(Position(0, 1), board);
    var ns := DirectAdjacentPositions(Position(1, 1));
    assert ns[0] == Position(0, 1) && !Blocking(ns[0], board);
  }
}

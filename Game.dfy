/** The three action handlers, the state they update, and the tap dispatcher of the
    board screen. The screen's state cells become the fields of one object. */
module Game {
  import opened Model
  import opened Geometry
  import opened Connectivity
  import opened Rules
  import opened Setup

  // ------------------------------------------------- transitions on values

  /** The board handleMoveSelection builds: drop `from`, then write the piece at `to`. */
  function MovedBoard(board: Board, from: Position, to: Position): (moved: Board)
    requires from in board
    ensures to != from ==> moved.Keys == board.Keys - {from} + {to}
    ensures to in moved && moved[to] == board[from]
    ensures forall q :: q in board && q != from && q != to ==> q in moved && moved[q] == board[q]
  {
    (board - {from})[to := board[from]]
  }

  /** Who moves after an accepted move: a boss move always hands the turn to PLAYER2. */
  function NextPlayerAfterMove(current: Player, isBossMove: bool): (next: Player)
    ensures !isBossMove ==> next == Opponent(current)
    ensures isBossMove ==> next == PLAYER2
  {
    if current == PLAYER1 || isBossMove then PLAYER2 else PLAYER1
  }

  /** handleTap takes effect: an empty cell, a reserve bird of the player to move,
      the placement rule, and the structural re-check of the resulting board. */
  ghost predicate PlacementAccepted(gs: GameState, selectedBird: Option<Bird>, position: Position) {
    position !in gs.board && selectedBird.Some? && selectedBird.value.player == gs.currentPlayer &&
    PlacementAllowed(position, gs.board, gs.currentPlayer) &&
    var placed := gs.board[position := selectedBird.value];
    Connected(placed.Keys) && WithinFootprint(CalculateBoardBounds(placed, None))
  }

  /** The game state after handleTap: at most the cell `position` is added, every
      piece already on the board stays where it is, and the dimensions are kept. */
  ghost function AfterPlacement(gs: GameState, selectedBird: Option<Bird>, position: Position): (r: GameState)
    ensures r.boardWidth == gs.boardWidth && r.boardHeight == gs.boardHeight
    ensures r.board.Keys <= gs.board.Keys + {position}
    ensures forall q :: q in gs.board ==> q in r.board && r.board[q] == gs.board[q]
  {
    if PlacementAccepted(gs, selectedBird, position) then
      gs.(board := gs.board[position := selectedBird.value], currentPlayer := Opponent(gs.currentPlayer))
    else
      gs
  }

  /** handleMoveSelection takes effect: a piece at `from`, isMoveValid, a free
      destination, and the structural re-check of the moved board. */
  ghost predicate MoveAccepted(gs: GameState, from: Position, to: Position) {
    from in gs.board && IsMoveValid(from, to, gs.board[from].birdType, gs.board) && to !in gs.board &&
    var moved := MovedBoard(gs.board, from, to);
    Connected(moved.Keys) && WithinFootprint(CalculateBoardBounds(moved, None))
  }

  /** A move attempt has a piece to move: something is selected and the cell is occupied. */
  predicate MoveSelected(gs: GameState, selectedPosition: Option<Position>) {
    selectedPosition.Some? && selectedPosition.value in gs.board
  }

  ghost predicate MoveTaken(gs: GameState, selectedPosition: Option<Position>, to: Position) {
    selectedPosition.Some? && MoveAccepted(gs, selectedPosition.value, to)
  }

  /** The game state after handleMoveSelection: the number of pieces is kept, and
      every piece other than the moved one stays where it is. */
  ghost function AfterMove(gs: GameState, selectedPosition: Option<Position>, to: Position, isBossMove: bool): (r: GameState)
    ensures r.boardWidth == gs.boardWidth && r.boardHeight == gs.boardHeight
    ensures |r.board| == |gs.board|
    ensures forall q :: q in gs.board && Some(q) != selectedPosition ==> q in r.board && r.board[q] == gs.board[q]
  {
    if MoveTaken(gs, selectedPosition, to) then
      gs.(board := MovedBoard(gs.board, selectedPosition.value, to),
          currentPlayer := NextPlayerAfterMove(gs.currentPlayer, isBossMove))
    else
      gs
  }

  /** handleRemove looks further only at a non-BOSS piece of the player to move ... */
  predicate RemovalAttempted(gs: GameState, position: Position) {
    position in gs.board && gs.board[position].player == gs.currentPlayer && gs.board[position].birdType != BOSS
  }

  /** ... and takes effect when the rest of the board stays connected. */
  ghost predicate RemovalAccepted(gs: GameState, position: Position) {
    RemovalAttempted(gs, position) && Connected((gs.board - {position}).Keys)
  }

  /** The game state after handleRemove: at most the cell `position` is emptied,
      and every other piece stays where it is. */
  ghost function AfterRemoval(gs: GameState, position: Position): (r: GameState)
    ensures r.boardWidth == gs.boardWidth && r.boardHeight == gs.boardHeight
    ensures r.board.Keys <= gs.board.Keys
    ensures forall q :: q in gs.board && q != position ==> q in r.board && r.board[q] == gs.board[q]
  {
    if RemovalAccepted(gs, position) then
      gs.(board := gs.board - {position}, currentPlayer := Opponent(gs.currentPlayer))
    else
      gs
  }

  /** The guard of the Remove button: the selected cell holds no BOSS and the board
      without it is connected. */
  ghost predicate RemoveOfferedFor(gs: GameState, position: Position) {
    !(position in gs.board && gs.board[position].birdType == BOSS) &&
    Connected((gs.board - {position}).Keys)
  }

  // ------------------------------------------------- properties of the rules

  /** The structural re-check after an allowed placement never rejects on a
      connected board: the new cell touches an own piece, and on a connected board
      the four-lines check and the 4 by 4 box check coincide. */
  lemma PlacementRecheckPasses(board: Board, position: Position, bird: Bird)
    requires Connected(board.Keys)
    requires PlacementAllowed(position, board, bird.player)
    ensures var placed := board[position := bird];
      Connected(placed.Keys) && WithinFootprint(CalculateBoardBounds(placed, None))
  {
    var placed := board[position := bird];
    var n :| Adjacent(position, n) && HoldsOwnBird(board, n, bird.player);
    assert Adjacent(n, position);
    AddingNeighbourKeepsConnected(board.Keys, position, n);
    assert placed.Keys == board.Keys + {position};
    ConnectedFootprintIsFourLines(placed);
  }

  /** Hence a placement on a valid board is accepted exactly when the cell is empty,
      the selected bird belongs to the player to move, and the placement rule holds. */
  lemma PlacementAcceptedIff(gs: GameState, selectedBird: Option<Bird>, position: Position)
    requires HiveInvariant(gs.board)
    ensures PlacementAccepted(gs, selectedBird, position) <==>
      position !in gs.board && selectedBird.Some? && selectedBird.value.player == gs.currentPlayer &&
      PlacementAllowed(position, gs.board, gs.currentPlayer)
  {
    if position !in gs.board && selectedBird.Some? && selectedBird.value.player == gs.currentPlayer &&
       PlacementAllowed(position, gs.board, gs.currentPlayer) {
      PlacementRecheckPasses(gs.board, position, selectedBird.value);
    }
  }

  /** After a move that passed isMoveValid onto a free cell, the re-check reduces to
      connectivity: isMoveValid has already bounded the rows and columns. */
  lemma MoveRecheckIsConnectivity(gs: GameState, from: Position, to: Position)
    requires from in gs.board && to !in gs.board
    requires IsMoveValid(from, to, gs.board[from].birdType, gs.board)
    ensures MoveAccepted(gs, from, to) <==> Connected(MovedBoard(gs.board, from, to).Keys)
  {
    var moved := MovedBoard(gs.board, from, to);
    assert SimulatedMove(gs.board, from, to).Keys == moved.Keys;
    if Connected(moved.Keys) {
      ConnectedFootprintIsFourLines(moved);
    }
  }

  lemma BossSurvivesPlacement(board: Board, position: Position, bird: Bird, player: Player)
    requires position !in board && BossOnBoard(board, player)
    ensures BossOnBoard(board[position := bird], player)
  {
    var p :| p in board && board[p].birdType == BOSS && board[p].player == player;
    assert p != position && board[position := bird][p] == board[p];
  }

  lemma BossSurvivesMove(board: Board, from: Position, to: Position, player: Player)
    requires from in board && to !in board && BossOnBoard(board, player)
    ensures BossOnBoard(MovedBoard(board, from, to), player)
  {
    var moved := MovedBoard(board, from, to);
    var p :| p in board && board[p].birdType == BOSS && board[p].player == player;
    if p == from {
      assert moved[to] == board[p];
    } else {
      assert p != to && moved[p] == board[p];
    }
  }

  lemma BossSurvivesRemoval(board: Board, position: Position, player: Player)
    requires BossOnBoard(board, player) && !(position in board && board[position].birdType == BOSS)
    ensures BossOnBoard(board - {position}, player)
  {
    var p :| p in board && board[p].birdType == BOSS && board[p].player == player;
    assert p != position && p in board - {position};
  }

  lemma PlacementPreservesHive(gs: GameState, selectedBird: Option<Bird>, position: Position)
    requires HiveInvariant(gs.board)
    ensures HiveInvariant(AfterPlacement(gs, selectedBird, position).board)
  {
    if PlacementAccepted(gs, selectedBird, position) {
      var placed := gs.board[position := selectedBird.value];
      assert placed.Keys == gs.board.Keys + {position};
      BossSurvivesPlacement(gs.board, position, selectedBird.value, PLAYER1);
      BossSurvivesPlacement(gs.board, position, selectedBird.value, PLAYER2);
    }
  }

  /** A move onto a free cell that keeps the four-lines bound and connectivity keeps
      the whole hive invariant: both BOSSes are still on the board. */
  lemma MovedBoardKeepsHive(board: Board, from: Position, to: Position)
    requires HiveInvariant(board) && from in board && to !in board
    requires FourLinesOrFewer(SimulatedMove(board, from, to).Keys)
    requires Connected(MovedBoard(board, from, to).Keys)
    ensures HiveInvariant(MovedBoard(board, from, to))
  {
    assert SimulatedMove(board, from, to).Keys == MovedBoard(board, from, to).Keys;
    BossSurvivesMove(board, from, to, PLAYER1);
    BossSurvivesMove(board, from, to, PLAYER2);
  }

  lemma MovePreservesHive(gs: GameState, selectedPosition: Option<Position>, to: Position, isBossMove: bool)
    requires HiveInvariant(gs.board)
    ensures HiveInvariant(AfterMove(gs, selectedPosition, to, isBossMove).board)
  {
    if MoveTaken(gs, selectedPosition, to) {
      MovedBoardKeepsHive(gs.board, selectedPosition.value, to);
    }
  }

  lemma RemovalPreservesHive(gs: GameState, position: Position)
    requires HiveInvariant(gs.board)
    ensures HiveInvariant(AfterRemoval(gs, position).board)
  {
    if RemovalAccepted(gs, position) {
      FewerCellsFewerLines((gs.board - {position}).Keys, gs.board.Keys);
      BossSurvivesRemoval(gs.board, position, PLAYER1);
      BossSurvivesRemoval(gs.board, position, PLAYER2);
    }
  }

  /** isMoveValid lets the moving piece count as its own neighbour. When the
      destination touches no other occupied cell and some piece stays behind, the
      moved board is split, so the re-check always rejects such a move. */
  lemma SelfTouchingMoveDisconnects(board: Board, from: Position, to: Position, other: Position)
    requires from in board && other in board && other != from && to !in board
    requires forall n :: n in board && Adjacent(to, n) ==> n == from
    ensures !Connected(MovedBoard(board, from, to).Keys)
  {
    var moved := MovedBoard(board, from, to).Keys;
    assert to != from && other in moved;
    assert ClosedIn(moved, {to});
    if Connected(moved) {
      assert Reachable(moved, to, other);
      var w :| IsWalk(moved, w) && w[0] == to && w[|w| - 1] == other;
      WalkStaysInClosed(moved, {to}, w);
    }
  }

  /** An instance: on the starting board the PLAYER1 boss may step from (2, 1) to
      (3, 1), which touches only (2, 1) itself; the re-check then rejects the move. */
  lemma SelfTouchingMoveIsRechecked(ids: Drawables)
    ensures IsMoveValid(Position(2, 1), Position(3, 1), BOSS, InitializeGame(ids).board)
    ensures !MoveAccepted(InitializeGame(ids), Position(2, 1), Position(3, 1))
  {
    var board := InitializeGame(ids).board;
    var from, to := Position(2, 1), Position(3, 1);
    assert Adjacent(to, from);
    var simulated := SimulatedMove(board, from, to).Keys;
    assert simulated == {Position(1, 1), to};
    RowsBetween(simulated, 1, 3);
    ColsBetween(simulated, 1, 1);
    SelfTouchingMoveDisconnects(board, from, to, Position(1, 1));
  }

  /** An action changes the game state exactly when it is accepted, and an accepted
      placement or removal hands the turn to the other player. */
  lemma PlacementTakesEffect(gs: GameState, selectedBird: Option<Bird>, position: Position)
    ensures AfterPlacement(gs, selectedBird, position) != gs <==> PlacementAccepted(gs, selectedBird, position)
    ensures PlacementAccepted(gs, selectedBird, position) ==>
      AfterPlacement(gs, selectedBird, position).currentPlayer == Opponent(gs.currentPlayer)
  {
    if PlacementAccepted(gs, selectedBird, position) {
      assert position in AfterPlacement(gs, selectedBird, position).board;
    }
  }

  lemma MoveTakesEffect(gs: GameState, selectedPosition: Option<Position>, to: Position, isBossMove: bool)
    ensures AfterMove(gs, selectedPosition, to, isBossMove) != gs <==> MoveTaken(gs, selectedPosition, to)
  {
    if MoveTaken(gs, selectedPosition, to) {
      var from := selectedPosition.value;
      assert from != to;
      assert from !in AfterMove(gs, selectedPosition, to, isBossMove).board;
    }
  }

  lemma RemovalTakesEffect(gs: GameState, position: Position)
    ensures AfterRemoval(gs, position) != gs <==> RemovalAccepted(gs, position)
    ensures RemovalAccepted(gs, position) ==> AfterRemoval(gs, position).currentPlayer == Opponent(gs.currentPlayer)
  {
    if RemovalAccepted(gs, position) {
      assert position !in AfterRemoval(gs, position).board;
    }
  }

  /** The Remove button is shown on a cell of the player to move only when the
      removal it triggers will be accepted. */
  lemma OfferedRemovalIsAccepted(gs: GameState, position: Position)
    requires HoldsOwnBird(gs.board, position, gs.currentPlayer)
    requires RemoveOfferedFor(gs, position)
    ensures RemovalAccepted(gs, position)
  {
  }

  // ------------------------------------------------------------- reserves

  /** MutableList.remove: drops the first element equal to `x`, if there is one. */
  function RemoveFirst(s: seq<Bird>, x: Bird): (r: seq<Bird>)
    ensures x !in s ==> r == s
    ensures x in s ==> |r| == |s| - 1
  {
    if s == [] then []
    else if s[0] == x then s[1..]
    else [s[0]] + RemoveFirst(s[1..], x)
  }

  /** The element removed is the first occurrence of `x`, at index `i`; the others
      keep their order. */
  lemma {:induction false} RemoveFirstDropsFirstOccurrence(s: seq<Bird>, x: Bird, i: nat)
    requires i < |s| && s[i] == x && x !in s[..i]
    ensures RemoveFirst(s, x) == s[..i] + s[i + 1..]
  {
    if i > 0 {
      assert s[0] == s[..i][0];
      assert s[1..][..i - 1] == s[1..i];
      RemoveFirstDropsFirstOccurrence(s[1..], x, i - 1);
      assert s[..i] == [s[0]] + s[1..i];
      assert s[i + 1..] == s[1..][i..];
    }
  }

  /** As multisets, the result is the input with one copy of `x` taken away. */
  lemma {:induction false} RemoveFirstMultiset(s: seq<Bird>, x: Bird)
    ensures multiset(RemoveFirst(s, x)) == multiset(s) - multiset{x}
  {
    if s != [] {
      assert s == [s[0]] + s[1..];
      if s[0] != x {
        RemoveFirstMultiset(s[1..], x);
        assert multiset(RemoveFirst(s, x)) == multiset{s[0]} + multiset(RemoveFirst(s[1..], x));
      }
    }
  }

  /** The two reserve lists of the screen, PLAYER1's and PLAYER2's. */
  datatype Reserves = Reserves(player1Birds: seq<Bird>, player2Birds: seq<Bird>) {
    function Of(player: Player): seq<Bird> {
      if player == PLAYER1 then player1Birds else player2Birds
    }
  }

  /** The reserves after updatePlayerBirds: only the list of `player` changes, by
      appending `bird` or by removing its first occurrence. */
  function UpdatedReserves(rs: Reserves, player: Player, bird: Bird, isAdding: bool): (r: Reserves)
    ensures r.Of(player) == if isAdding then rs.Of(player) + [bird] else RemoveFirst(rs.Of(player), bird)
    ensures r.Of(Opponent(player)) == rs.Of(Opponent(player))
  {
    if player == PLAYER1 then
      rs.(player1Birds := if isAdding then rs.player1Birds + [bird] else RemoveFirst(rs.player1Birds, bird))
    else
      rs.(player2Birds := if isAdding then rs.player2Birds + [bird] else RemoveFirst(rs.player2Birds, bird))
  }

  /** Every bird of a reserve belongs to its owner and none is a BOSS. */
  ghost predicate ReserveWellFormed(birds: seq<Bird>, owner: Player) {
    forall b :: b in birds ==> b.player == owner && b.birdType != BOSS
  }

  lemma RemoveFirstKeepsReserveWellFormed(birds: seq<Bird>, owner: Player, x: Bird)
    requires ReserveWellFormed(birds, owner)
    ensures ReserveWellFormed(RemoveFirst(birds, x), owner)
  {
    var r := RemoveFirst(birds, x);
    RemoveFirstMultiset(birds, x);
    forall b | b in r ensures b in birds {
      assert b in multiset(r);
    }
  }

  lemma InitialReservesWellFormed(ids: Drawables)
    ensures ReserveWellFormed(CreatePlayerBirds(PLAYER1, ids), PLAYER1)
    ensures ReserveWellFormed(CreatePlayerBirds(PLAYER2, ids), PLAYER2)
  {
  }

  /** The reserves after handleTap: the placed bird leaves the reserve of the
      player who placed it. */
  ghost function ReservesAfterPlacement(gs: GameState, rs: Reserves, selectedBird: Option<Bird>, position: Position): (r: Reserves)
    ensures r.Of(Opponent(gs.currentPlayer)) == rs.Of(Opponent(gs.currentPlayer))
    ensures |r.Of(gs.currentPlayer)| <= |rs.Of(gs.currentPlayer)|
  {
    if PlacementAccepted(gs, selectedBird, position) then UpdatedReserves(rs, gs.currentPlayer, selectedBird.value, false) else rs
  }

  /** The selected reserve bird after handleTap: cleared by an accepted placement. */
  ghost function SelectionAfterPlacement(gs: GameState, selectedBird: Option<Bird>, position: Position): (r: Option<Bird>)
    ensures r == None || r == selectedBird
  {
    if PlacementAccepted(gs, selectedBird, position) then None else selectedBird
  }

  /** The reserves after handleRemove: the removed piece goes back to its owner. */
  ghost function ReservesAfterRemoval(gs: GameState, rs: Reserves, position: Position): (r: Reserves)
    ensures r.Of(Opponent(gs.currentPlayer)) == rs.Of(Opponent(gs.currentPlayer))
    ensures rs.Of(gs.currentPlayer) <= r.Of(gs.currentPlayer)
  {
    if RemovalAccepted(gs, position) then UpdatedReserves(rs, gs.currentPlayer, gs.board[position], true) else rs
  }

  /** The invariant of the screen state: the board keeps the hive invariant, each
      reserve holds only its owner's non-BOSS pieces, and a selected bird is in its
      owner's reserve. */
  ghost predicate ValidState(gs: GameState, rs: Reserves, selectedBird: Option<Bird>) {
    HiveInvariant(gs.board) &&
    ReserveWellFormed(rs.player1Birds, PLAYER1) && ReserveWellFormed(rs.player2Birds, PLAYER2) &&
    (selectedBird.Some? ==> selectedBird.value in rs.Of(selectedBird.value.player))
  }

  lemma InitialStateValid(ids: Drawables)
    ensures ValidState(InitializeGame(ids), Reserves(CreatePlayerBirds(PLAYER1, ids), CreatePlayerBirds(PLAYER2, ids)), None)
  {
    InitialHiveInvariant(ids);
    InitialReservesWellFormed(ids);
  }

  /** An accepted placement spends exactly the selected bird from the reserve of
      the player to move; the other reserve is untouched. */
  lemma PlacementSpendsBird(gs: GameState, rs: Reserves, selectedBird: Option<Bird>, position: Position)
    requires ValidState(gs, rs, selectedBird) && PlacementAccepted(gs, selectedBird, position)
    ensures var after := ReservesAfterPlacement(gs, rs, selectedBird, position).Of(gs.currentPlayer);
      multiset(after) == multiset(rs.Of(gs.currentPlayer)) - multiset{selectedBird.value} &&
      |after| == |rs.Of(gs.currentPlayer)| - 1
    ensures ReservesAfterPlacement(gs, rs, selectedBird, position).Of(Opponent(gs.currentPlayer)) == rs.Of(Opponent(gs.currentPlayer))
  {
    RemoveFirstMultiset(rs.Of(gs.currentPlayer), selectedBird.value);
  }

  lemma PlacementKeepsValid(gs: GameState, rs: Reserves, selectedBird: Option<Bird>, position: Position)
    requires ValidState(gs, rs, selectedBird)
    ensures ValidState(AfterPlacement(gs, selectedBird, position), ReservesAfterPlacement(gs, rs, selectedBird, position),
                       SelectionAfterPlacement(gs, selectedBird, position))
  {
    PlacementPreservesHive(gs, selectedBird, position);
    if PlacementAccepted(gs, selectedBird, position) {
      RemoveFirstKeepsReserveWellFormed(rs.Of(gs.currentPlayer), gs.currentPlayer, selectedBird.value);
      var after := ReservesAfterPlacement(gs, rs, selectedBird, position);
      assert after.Of(Opponent(gs.currentPlayer)) == rs.Of(Opponent(gs.currentPlayer));
    }
  }

  lemma RemovalKeepsValid(gs: GameState, rs: Reserves, selectedBird: Option<Bird>, position: Position)
    requires ValidState(gs, rs, selectedBird)
    ensures ValidState(AfterRemoval(gs, position), ReservesAfterRemoval(gs, rs, position), selectedBird)
  {
    RemovalPreservesHive(gs, position);
    if RemovalAccepted(gs, position) {
      var after := ReservesAfterRemoval(gs, rs, position);
      var player := gs.currentPlayer;
      assert after.Of(player) == rs.Of(player) + [gs.board[position]];
      assert after.Of(Opponent(player)) == rs.Of(Opponent(player));
      assert forall b :: b in rs.Of(player) ==> b in after.Of(player);
    }
  }

  lemma MoveKeepsValid(gs: GameState, rs: Reserves, selectedBird: Option<Bird>, selectedPosition: Option<Position>,
                       to: Position, isBossMove: bool)
    requires ValidState(gs, rs, selectedBird)
    ensures ValidState(AfterMove(gs, selectedPosition, to, isBossMove), rs, selectedBird)
  {
    MovePreservesHive(gs, selectedPosition, to, isBossMove);
  }

  /** What updateBoardAndCheckWin reports through onWin. */
  ghost predicate WinReported(won: Option<Player>, board: Board) {
    (won.None? <==> !HasWinner(board)) && (won.Some? ==> WinnerIs(board, won.value))
  }

  /** The win dialog after an action: set to the winner when the action took
      effect and the new board has one, otherwise as before. */
  ghost predicate WinDialogFollows(tookEffect: bool, board: Board, dialogBefore: Option<Player>, dialogAfter: Option<Player>) {
    if tookEffect && HasWinner(board) then dialogAfter.Some? && WinnerIs(board, dialogAfter.value)
    else dialogAfter == dialogBefore
  }

  // ------------------------------------------------------------ the handlers

  /** updateBoardAndCheckWin: the published state carries the new board and the
      next player; the winner of that state, if any, is reported. */
  method UpdateBoardAndCheckWin(gs: GameState, updatedBoard: Board, nextPlayer: Player)
    returns (gs': GameState, won: Option<Player>)
    ensures gs' == gs.(board := updatedBoard, currentPlayer := nextPlayer)
    ensures WinReported(won, updatedBoard)
  {
    gs' := gs.(board := updatedBoard, currentPlayer := nextPlayer);
    won := CheckWinCondition(gs');
  }

  /** handleTap: places the selected reserve bird on an empty cell. The results are
      the values written to the game state, the reserves, the selected cell and the
      selected bird; every path clears the selected cell. */
  method HandleTap(position: Position, gs: GameState, rs: Reserves, selectedBird: Option<Bird>)
    returns (gs': GameState, rs': Reserves, selectedPosition': Option<Position>, selectedBird': Option<Bird>, won: Option<Player>)
    ensures gs' == AfterPlacement(gs, selectedBird, position)
    ensures rs' == ReservesAfterPlacement(gs, rs, selectedBird, position)
    ensures selectedBird' == SelectionAfterPlacement(gs, selectedBird, position)
    ensures selectedPosition' == None
    ensures PlacementAccepted(gs, selectedBird, position) ==> WinReported(won, gs'.board)
    ensures !PlacementAccepted(gs, selectedBird, position) ==> won == None
  {
    gs', rs', selectedPosition', selectedBird', won := gs, rs, None, selectedBird, None;
    var player := gs.currentPlayer;
    if position !in gs.board && selectedBird.Some? && selectedBird.value.player == player {
      var placementValid := IsPlacementValid(position, gs.board, player);
      if placementValid {
        var updatedBoard := gs.board[position := selectedBird.value];
        var isValid, finalBoard := IsValidMoveAndGetUpdatedBoard(updatedBoard);
        if isValid {
          gs', won := UpdateBoardAndCheckWin(gs, finalBoard, if player == PLAYER1 then PLAYER2 else PLAYER1);
          rs' := UpdatedReserves(rs, player, selectedBird.value, false);
          selectedBird' := None;
        }
      }
    }
  }

  /** handleRemove: takes a non-BOSS piece of the player to move back into its
      reserve when the rest of the board stays connected. A cell that does not
      hold such a piece is ignored outright, selection included. */
  method HandleRemove(position: Position, gs: GameState, rs: Reserves, selectedPosition: Option<Position>)
    returns (gs': GameState, rs': Reserves, selectedPosition': Option<Position>, won: Option<Player>)
    ensures gs' == AfterRemoval(gs, position)
    ensures rs' == ReservesAfterRemoval(gs, rs, position)
    ensures selectedPosition' == if RemovalAttempted(gs, position) then None else selectedPosition
    ensures RemovalAccepted(gs, position) ==> WinReported(won, gs'.board)
    ensures !RemovalAccepted(gs, position) ==> won == None
  {
    gs', rs', selectedPosition', won := gs, rs, selectedPosition, None;
    var player := gs.currentPlayer;
    if position in gs.board && gs.board[position].player == player && gs.board[position].birdType != BOSS {
      var bird := gs.board[position];
      var updatedBoard := gs.board - {position};
      var connected := IsMoveValidBoardState(updatedBoard);
      if connected {
        gs', won := UpdateBoardAndCheckWin(gs, updatedBoard, if player == PLAYER1 then PLAYER2 else PLAYER1);
        rs' := UpdatedReserves(rs, player, bird, true);
      }
      selectedPosition' := None;
    }
  }

  /** handleMoveSelection: moves the piece on the selected cell to `to`. Without a
      selected piece nothing happens; otherwise the selection and move mode end,
      whether or not the move is accepted. */
  method HandleMoveSelection(to: Position, gs: GameState, selectedPosition: Option<Position>, moveMode: bool, isBossMove: bool)
    returns (gs': GameState, selectedPosition': Option<Position>, moveMode': bool, won: Option<Player>)
    ensures gs' == AfterMove(gs, selectedPosition, to, isBossMove)
    ensures MoveSelected(gs, selectedPosition) ==> selectedPosition' == None && !moveMode'
    ensures !MoveSelected(gs, selectedPosition) ==> selectedPosition' == selectedPosition && moveMode' == moveMode
    ensures MoveTaken(gs, selectedPosition, to) ==> WinReported(won, gs'.board)
    ensures !MoveTaken(gs, selectedPosition, to) ==> won == None
  {
    gs', selectedPosition', moveMode', won := gs, selectedPosition, moveMode, None;
    if selectedPosition.None? {
      return;
    }
    var from := selectedPosition.value;
    if from !in gs.board {
      return;
    }
    var bird := gs.board[from];
    if IsMoveValid(from, to, bird.birdType, gs.board) && to !in gs.board {
      var updatedBoard := (gs.board - {from})[to := bird];
      var isValid, finalBoard := IsValidMoveAndGetUpdatedBoard(updatedBoard);
      if isValid {
        gs', won := UpdateBoardAndCheckWin(gs, finalBoard,
          if gs.currentPlayer == PLAYER1 || isBossMove then PLAYER2 else PLAYER1);
      }
    }
    selectedPosition', moveMode' := None, false;
  }

  // ---------------------------------------------------------------- the game

  /** The state cells of the board screen. */
  class KakawGame {
    var gameState: GameState
    var player1Birds: seq<Bird>
    var player2Birds: seq<Bird>
    var selectedBird: Option<Bird>
    var selectedPosition: Option<Position>
    var showDialog: bool
    var moveMode: bool
    var showWinDialog: Option<Player>

    function Birds(): Reserves
      reads this`player1Birds, this`player2Birds
    {
      Reserves(player1Birds, player2Birds)
    }

    ghost predicate Valid()
      reads this`gameState, this`player1Birds, this`player2Birds, this`selectedBird
    {
      ValidState(gameState, Birds(), selectedBird)
    }

    /** The screen's initial state, with its start-up effect that fills both reserves. */
    constructor (ids: Drawables)
      ensures Valid()
      ensures gameState == InitializeGame(ids)
      ensures player1Birds == CreatePlayerBirds(PLAYER1, ids) && player2Birds == CreatePlayerBirds(PLAYER2, ids)
      ensures selectedBird == None && selectedPosition == None
      ensures !showDialog && !moveMode && showWinDialog == None
    {
      gameState := InitializeGame(ids);
      player1Birds := CreatePlayerBirds(PLAYER1, ids);
      player2Birds := CreatePlayerBirds(PLAYER2, ids);
      selectedBird := None;
      selectedPosition := None;
      showDialog := false;
      moveMode := false;
      showWinDialog := None;
      InitialStateValid(ids);
    }

    /** The tap dispatcher of the board: in move mode a tap is a destination; a tap
        on a piece of the player to move selects it and opens the action dialog;
        any other tap is a placement attempt. */
    method Tap(position: Position)
      requires Valid()
      modifies this
      ensures Valid()
      ensures old(moveMode) ==>
        gameState == AfterMove(old(gameState), old(selectedPosition), position, false) &&
        WinDialogFollows(old(MoveTaken(gameState, selectedPosition, position)), gameState.board, old(showWinDialog), showWinDialog) &&
        (if old(MoveSelected(gameState, selectedPosition)) then selectedPosition == None && !moveMode
         else selectedPosition == old(selectedPosition) && moveMode) &&
        selectedBird == old(selectedBird) && Birds() == old(Birds()) && showDialog == old(showDialog)
      ensures !old(moveMode) && old(HoldsOwnBird(gameState.board, position, gameState.currentPlayer)) ==>
        gameState == old(gameState) && selectedPosition == Some(position) && showDialog &&
        selectedBird == old(selectedBird) && Birds() == old(Birds()) &&
        !moveMode && showWinDialog == old(showWinDialog)
      ensures !old(moveMode) && !old(HoldsOwnBird(gameState.board, position, gameState.currentPlayer)) ==>
        gameState == AfterPlacement(old(gameState), old(selectedBird), position) &&
        Birds() == ReservesAfterPlacement(old(gameState), old(Birds()), old(selectedBird), position) &&
        selectedBird == SelectionAfterPlacement(old(gameState), old(selectedBird), position) &&
        selectedPosition == None && showDialog == old(showDialog) && !moveMode &&
        WinDialogFollows(old(PlacementAccepted(gameState, selectedBird, position)), gameState.board, old(showWinDialog), showWinDialog)
    {
      if moveMode {
        MoveTo(position);
      } else if position in gameState.board && gameState.board[position].player == gameState.currentPlayer {
        SelectOnBoard(position);
      } else {
        PlaceSelected(position);
      }
    }

    /** A tap in move mode: the selected piece moves to `position`; a reported winner is shown. */
    method MoveTo(position: Position)
      requires Valid()
      modifies this
      ensures Valid()
      ensures gameState == AfterMove(old(gameState), old(selectedPosition), position, false)
      ensures WinDialogFollows(old(MoveTaken(gameState, selectedPosition, position)), gameState.board, old(showWinDialog), showWinDialog)
      ensures if old(MoveSelected(gameState, selectedPosition)) then selectedPosition == None && !moveMode
              else selectedPosition == old(selectedPosition) && moveMode == old(moveMode)
      ensures selectedBird == old(selectedBird) && Birds() == old(Birds()) && showDialog == old(showDialog)
    {
      MoveKeepsValid(gameState, Birds(), selectedBird, selectedPosition, position, false);
      var gs, sp, mode, won := HandleMoveSelection(position, gameState, selectedPosition, moveMode, false);
      gameState, selectedPosition, moveMode, showWinDialog := gs, sp, mode, if won.Some? then won else showWinDialog;
    }

    /** A tap on a piece of the player to move: select it and open the action dialog. */
    method SelectOnBoard(position: Position)
      requires Valid()
      modifies this
      ensures Valid()
      ensures selectedPosition == Some(position) && showDialog && moveMode == old(moveMode)
      ensures gameState == old(gameState) && selectedBird == old(selectedBird) && Birds() == old(Birds())
      ensures showWinDialog == old(showWinDialog)
    {
      selectedPosition, showDialog := Some(position), true;
    }

    /** Any other tap: try to place the selected reserve bird on `position`; a reported
        winner is shown. */
    method PlaceSelected(position: Position)
      requires Valid()
      modifies this
      ensures Valid()
      ensures gameState == AfterPlacement(old(gameState), old(selectedBird), position)
      ensures Birds() == ReservesAfterPlacement(old(gameState), old(Birds()), old(selectedBird), position)
      ensures selectedBird == SelectionAfterPlacement(old(gameState), old(selectedBird), position)
      ensures selectedPosition == None && showDialog == old(showDialog) && moveMode == old(moveMode)
      ensures WinDialogFollows(old(PlacementAccepted(gameState, selectedBird, position)), gameState.board, old(showWinDialog), showWinDialog)
    {
      PlacementKeepsValid(gameState, Birds(), selectedBird, position);
      var gs, rs, sp, sb, won := HandleTap(position, gameState, Birds(), selectedBird);
      gameState, player1Birds, player2Birds, selectedBird, selectedPosition, showWinDialog :=
        gs, rs.player1Birds, rs.player2Birds, sb, sp, if won.Some? then won else showWinDialog;
    }

    /** The Remove button's guard: the dialog is open on a cell that holds no BOSS
        and whose removal leaves the board connected. */
    method RemoveOffered() returns (offered: bool)
      ensures offered == (showDialog && selectedPosition.Some? && RemoveOfferedFor(gameState, selectedPosition.value))
    {
      if !showDialog || selectedPosition.None? {
        return false;
      }
      var position := selectedPosition.value;
      if position in gameState.board && gameState.board[position].birdType == BOSS {
        return false;
      }
      offered := IsMoveValidBoardState(gameState.board - {position});
    }

    /** The dialog's Move button: close the dialog and enter move mode. */
    method ChooseMove()
      modifies this`showDialog, this`moveMode
      ensures !showDialog && moveMode
    {
      showDialog := false;
      moveMode := true;
    }

    /** The dialog's Remove button, shown only when RemoveOffered holds: close the
        dialog and, when a cell is selected, remove its piece. */
    method ChooseRemove()
      requires Valid()
      modifies this
      ensures Valid()
      ensures !showDialog
      ensures old(selectedPosition).None? ==>
        gameState == old(gameState) && Birds() == old(Birds()) && selectedPosition == None &&
        showWinDialog == old(showWinDialog)
      ensures old(selectedPosition).Some? ==>
        gameState == AfterRemoval(old(gameState), old(selectedPosition).value) &&
        Birds() == ReservesAfterRemoval(old(gameState), old(Birds()), old(selectedPosition).value) &&
        selectedPosition == (if old(RemovalAttempted(gameState, selectedPosition.value)) then None else old(selectedPosition)) &&
        WinDialogFollows(old(RemovalAccepted(gameState, selectedPosition.value)), gameState.board, old(showWinDialog), showWinDialog)
      ensures selectedBird == old(selectedBird) && moveMode == old(moveMode)
    {
      if selectedPosition.None? {
        showDialog := false;
      } else {
        RemoveSelected(selectedPosition.value);
      }
    }

    /** The Remove button on the selected cell `position`. */
    method RemoveSelected(position: Position)
      requires Valid() && selectedPosition == Some(position)
      modifies this
      ensures Valid()
      ensures !showDialog
      ensures gameState == AfterRemoval(old(gameState), position)
      ensures Birds() == ReservesAfterRemoval(old(gameState), old(Birds()), position)
      ensures selectedPosition == if old(RemovalAttempted(gameState, position)) then None else old(selectedPosition)
      ensures WinDialogFollows(old(RemovalAccepted(gameState, position)), gameState.board, old(showWinDialog), showWinDialog)
      ensures selectedBird == old(selectedBird) && moveMode == old(moveMode)
    {
      RemovalKeepsValid(gameState, Birds(), selectedBird, position);
      var gs, rs, sp, won := HandleRemove(position, gameState, Birds(), selectedPosition);
      showDialog, gameState, player1Birds, player2Birds, selectedPosition, showWinDialog :=
        false, gs, rs.player1Birds, rs.player2Birds, sp, if won.Some? then won else showWinDialog;
    }

    /** Dismissing the action dialog only closes it. */
    method DismissDialog()
      modifies this`showDialog
      ensures !showDialog
    {
      showDialog := false;
    }

    /** Dismissing the win dialog, or its OK button, hides it; the game state is kept. */
    method DismissWinDialog()
      modifies this`showWinDialog
      ensures showWinDialog == None
    {
      showWinDialog := None;
    }

    /** A click on a bird of a reserve selects it. */
    method SelectBird(bird: Bird)
      requires Valid()
      requires bird in player1Birds || bird in player2Birds
      modifies this`selectedBird
      ensures Valid()
      ensures selectedBird == Some(bird)
    {
      selectedBird := Some(bird);
    }

    /** A tap that reaches the screen's outer column clears the selected reserve bird. */
    method ClearBirdSelection()
      requires Valid()
      modifies this`selectedBird
      ensures Valid()
      ensures selectedBird == None
    {
      selectedBird := None;
    }
  }
}

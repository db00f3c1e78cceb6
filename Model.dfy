/** The value types of the game and the bounding box of the occupied cells. */
module Model {

  datatype Option<T> = None | Some(value: T)

  /** A cell of the unbounded grid. The source also reuses it for move offsets. */
  datatype Position = Position(row: int, col: int)

  datatype Player = PLAYER1 | PLAYER2

  datatype BirdType = REGULAR | SHOOTER | HIT_MAN | AGENT | BOMBER | BOSS

  /** A piece. `drawableResId` is an Android resource id, kept as an opaque int;
      it takes part in equality like the other two fields. */
  datatype Bird = Bird(birdType: BirdType, player: Player, drawableResId: int)

  /** The Android drawable resource ids the game refers to, one per piece type
      and colour; their values are fixed when the app is built. */
  datatype Drawables = Drawables(
    regular: int, regularRed: int, shooter: int, shooterRed: int,
    hitman: int, hitmanRed: int, agent: int, agentRed: int,
    bomber: int, bomberRed: int, boss: int, bossRed: int)

  /** getBirdDrawableResId: the picture of a piece; PLAYER2's are the red ones. */
  function GetBirdDrawableResId(ids: Drawables, t: BirdType, player: Player): int {
    match t
    case REGULAR => if player == PLAYER1 then ids.regular else ids.regularRed
    case SHOOTER => if player == PLAYER1 then ids.shooter else ids.shooterRed
    case HIT_MAN => if player == PLAYER1 then ids.hitman else ids.hitmanRed
    case AGENT => if player == PLAYER1 then ids.agent else ids.agentRed
    case BOMBER => if player == PLAYER1 then ids.bomber else ids.bomberRed
    case BOSS => if player == PLAYER1 then ids.boss else ids.bossRed
  }

  /** The twelve ids as a sequence, in the order they are declared. */
  function DrawableList(ids: Drawables): seq<int> {
    [ids.regular, ids.regularRed, ids.shooter, ids.shooterRed,
     ids.hitman, ids.hitmanRed, ids.agent, ids.agentRed,
     ids.bomber, ids.bomberRed, ids.boss, ids.bossRed]
  }

  /** Android gives every drawable its own resource id. */
  predicate DistinctDrawables(ids: Drawables) {
    forall i, j :: 0 <= i < j < |DrawableList(ids)| ==> DrawableList(ids)[i] != DrawableList(ids)[j]
  }

  /** With distinct resource ids the picture tells the type and the owner of a piece. */
  lemma PictureIdentifiesPiece(ids: Drawables, t1: BirdType, p1: Player, t2: BirdType, p2: Player)
    requires DistinctDrawables(ids)
    ensures GetBirdDrawableResId(ids, t1, p1) == GetBirdDrawableResId(ids, t2, p2) <==> t1 == t2 && p1 == p2
  {
    var l := DrawableList(ids);
    assert l[0] == ids.regular && l[1] == ids.regularRed && l[2] == ids.shooter && l[3] == ids.shooterRed;
    assert l[4] == ids.hitman && l[5] == ids.hitmanRed && l[6] == ids.agent && l[7] == ids.agentRed;
    assert l[8] == ids.bomber && l[9] == ids.bomberRed && l[10] == ids.boss && l[11] == ids.bossRed;
  }

  type Board = map<Position, Bird>

  datatype GameState = GameState(board: Board, boardWidth: int, boardHeight: int, currentPlayer: Player)

  const MaxBoardWidth: int := 4
  const MaxBoardHeight: int := 4

  datatype BoardBounds = BoardBounds(minRow: int, maxRow: int, minCol: int, maxCol: int)

  /** The distinct rows, and the distinct columns, of a set of cells. */
  function Rows(cells: set<Position>): set<int> {
    set p | p in cells :: p.row
  }

  function Cols(cells: set<Position>): set<int> {
    set p | p in cells :: p.col
  }

  /** A subset is no larger, and a proper subset is smaller. */
  lemma SubsetCard<T>(a: set<T>, b: set<T>)
    requires a <= b
    ensures |a| <= |b|
    ensures a < b ==> |a| < |b|
  {
    var d := b - a;
    assert b == a + d;
    assert a * d == {};
    if a < b {
      assert d != {};
    }
  }

  /** An element of a non-empty set. */
  lemma PickElement<T>(s: set<T>) returns (x: T)
    requires s != {}
    ensures x in s
  {
    x :| x in s;
  }

  lemma {:induction false} HasLeast(s: set<int>)
    requires s != {}
    ensures exists m :: m in s && forall x :: x in s ==> m <= x
    decreases s
  {
    var y := PickElement(s);
    if s == {y} {
      assert forall x :: x in s ==> y <= x;
    } else {
      HasLeast(s - {y});
      var m :| m in s - {y} && forall x :: x in s - {y} ==> m <= x;
      var least := if y < m then y else m;
      forall x | x in s ensures least <= x {
        if x != y { assert x in s - {y}; }
      }
    }
  }

  lemma {:induction false} HasGreatest(s: set<int>)
    requires s != {}
    ensures exists m :: m in s && forall x :: x in s ==> x <= m
    decreases s
  {
    var y := PickElement(s);
    if s == {y} {
      assert forall x :: x in s ==> x <= y;
    } else {
      HasGreatest(s - {y});
      var m :| m in s - {y} && forall x :: x in s - {y} ==> x <= m;
      var greatest := if y > m then y else m;
      forall x | x in s ensures x <= greatest {
        if x != y { assert x in s - {y}; }
      }
    }
  }

  /** `minOrNull` and `maxOrNull` of a non-empty collection of ints. */
  function Least(s: set<int>): (m: int)
    requires s != {}
    ensures m in s && forall x :: x in s ==> m <= x
  {
    HasLeast(s);
    var m :| m in s && forall x :: x in s ==> m <= x; m
  }

  function Greatest(s: set<int>): (m: int)
    requires s != {}
    ensures m in s && forall x :: x in s ==> x <= m
  {
    HasGreatest(s);
    var m :| m in s && forall x :: x in s ==> x <= m; m
  }

  /** calculateBoardBounds: the smallest box holding every occupied cell,
      (0, 0, 0, 0) for an empty board. `selectedPosition` is not used. */
  function CalculateBoardBounds(board: Board, selectedPosition: Option<Position>): (b: BoardBounds)
    ensures |board| == 0 ==> b == BoardBounds(0, 0, 0, 0)
    ensures forall p :: p in board ==> b.minRow <= p.row <= b.maxRow && b.minCol <= p.col <= b.maxCol
    ensures |board| > 0 ==> exists p :: p in board && p.row == b.minRow
    ensures |board| > 0 ==> exists p :: p in board && p.row == b.maxRow
    ensures |board| > 0 ==> exists p :: p in board && p.col == b.minCol
    ensures |board| > 0 ==> exists p :: p in board && p.col == b.maxCol
  {
    if |board| == 0 then
      BoardBounds(0, 0, 0, 0)
    else
      var rows := Rows(board.Keys);
      var cols := Cols(board.Keys);
      assert forall p :: p in board ==> p.row in rows && p.col in cols;
      var p :| p in board;
      assert p.row in rows && p.col in cols;
      BoardBounds(Least(rows), Greatest(rows), Least(cols), Greatest(cols))
  }

  /** The unused argument has no influence on the result. */
  lemma BoundsIgnoreSelection(board: Board, s: Option<Position>, t: Option<Position>)
    ensures CalculateBoardBounds(board, s) == CalculateBoardBounds(board, t)
  {
  }

  /** Structural equality of birds, which reserve removal relies on. */
  lemma BirdEquality(a: Bird, b: Bird)
    ensures a == b <==> a.birdType == b.birdType && a.player == b.player && a.drawableResId == b.drawableResId
  {
  }

  predicate Within(inner: BoardBounds, outer: BoardBounds) {
    outer.minRow <= inner.minRow && inner.maxRow <= outer.maxRow &&
    outer.minCol <= inner.minCol && inner.maxCol <= outer.maxCol
  }

  /** Removing a key never widens the bounds of what remains. */
  lemma RemovalNeverWidens(board: Board, p: Position)
    requires |board - {p}| > 0
    ensures Within(CalculateBoardBounds(board - {p}, None), CalculateBoardBounds(board, None))
  {
    var b := CalculateBoardBounds(board, None);
    var b' := CalculateBoardBounds(board - {p}, None);
    var q1 :| q1 in board - {p} && q1.row == b'.minRow;
    var q2 :| q2 in board - {p} && q2.row == b'.maxRow;
    var q3 :| q3 in board - {p} && q3.col == b'.minCol;
    var q4 :| q4 in board - {p} && q4.col == b'.maxCol;
    assert q1 in board && q2 in board && q3 in board && q4 in board;
  }

  /** Adding a key inside the bounds of a non-empty board leaves them unchanged. */
  lemma AddInsideUnchanged(board: Board, p: Position, bird: Bird)
    requires |board| > 0
    requires var b := CalculateBoardBounds(board, None);
      b.minRow <= p.row <= b.maxRow && b.minCol <= p.col <= b.maxCol
    ensures CalculateBoardBounds(board[p := bird], None) == CalculateBoardBounds(board, None)
  {
    var b := CalculateBoardBounds(board, None);
    var b' := CalculateBoardBounds(board[p := bird], None);
    var q1 :| q1 in board && q1.row == b.minRow;
    var q2 :| q2 in board && q2.row == b.maxRow;
    var q3 :| q3 in board && q3.col == b.minCol;
    var q4 :| q4 in board && q4.col == b.maxCol;
    assert q1 in board[p := bird] && q2 in board[p := bird] && q3 in board[p := bird] && q4 in board[p := bird];
    var r1 :| r1 in board[p := bird] && r1.row == b'.minRow;
    var r2 :| r2 in board[p := bird] && r2.row == b'.maxRow;
    var r3 :| r3 in board[p := bird] && r3.col == b'.minCol;
    var r4 :| r4 in board[p := bird] && r4.col == b'.maxCol;
  }
}

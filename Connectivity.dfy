/** The "one hive" rule: the occupied cells form one 8-connected group. */
module Connectivity {
  import opened Model
  import opened Geometry

  /** A walk through occupied cells, each step to an 8-neighbour. */
  ghost predicate IsWalk(cells: set<Position>, w: seq<Position>) {
    |w| > 0 &&
    (forall i :: 0 <= i < |w| ==> w[i] in cells) &&
    (forall i :: 0 <= i < |w| - 1 ==> Adjacent(w[i], w[i + 1]))
  }

  ghost predicate Reachable(cells: set<Position>, a: Position, b: Position) {
    exists w :: IsWalk(cells, w) && w[0] == a && w[|w| - 1] == b
  }

  /** Every occupied cell reaches every other one; the empty board is connected. */
  ghost predicate Connected(cells: set<Position>) {
    forall a, b :: a in cells && b in cells ==> Reachable(cells, a, b)
  }

  /** A set that no step leaves. */
  ghost predicate ClosedIn(cells: set<Position>, s: set<Position>) {
    forall v, n :: v in s && n in cells && Adjacent(v, n) ==> n in s
  }

  lemma ReachableRefl(cells: set<Position>, a: Position)
    requires a in cells
    ensures Reachable(cells, a, a)
  {
    assert IsWalk(cells, [a]);
  }

  lemma ReachableStep(cells: set<Position>, a: Position, b: Position, c: Position)
    requires Reachable(cells, a, b) && c in cells && Adjacent(b, c)
    ensures Reachable(cells, a, c)
  {
    var w :| IsWalk(cells, w) && w[0] == a && w[|w| - 1] == b;
    var w' := w + [c];
    assert IsWalk(cells, w');
  }

  function Reverse(w: seq<Position>): (r: seq<Position>)
    ensures |r| == |w|
    ensures forall i :: 0 <= i < |w| ==> r[i] == w[|w| - 1 - i]
  {
    if w == [] then [] else Reverse(w[1..]) + [w[0]]
  }

  lemma ReachableSymmetric(cells: set<Position>, a: Position, b: Position)
    requires Reachable(cells, a, b)
    ensures Reachable(cells, b, a)
  {
    var w :| IsWalk(cells, w) && w[0] == a && w[|w| - 1] == b;
    var r := Reverse(w);
    forall i | 0 <= i < |r| - 1
      ensures Adjacent(r[i], r[i + 1])
    {
      assert r[i] == w[|w| - 1 - i] && r[i + 1] == w[|w| - 2 - i];
      assert Adjacent(w[|w| - 2 - i], w[|w| - 1 - i]);
    }
    assert IsWalk(cells, r);
  }

  lemma ReachableTransitive(cells: set<Position>, a: Position, b: Position, c: Position)
    requires Reachable(cells, a, b) && Reachable(cells, b, c)
    ensures Reachable(cells, a, c)
  {
    var w1 :| IsWalk(cells, w1) && w1[0] == a && w1[|w1| - 1] == b;
    var w2 :| IsWalk(cells, w2) && w2[0] == b && w2[|w2| - 1] == c;
    var w := w1 + w2[1..];
    forall i | 0 <= i < |w| - 1
      ensures Adjacent(w[i], w[i + 1])
    {
      if i < |w1| - 1 {
        assert w[i] == w1[i] && w[i + 1] == w1[i + 1];
      } else {
        var k := i - (|w1| - 1);
        assert w[i] == w2[k] && w[i + 1] == w2[k + 1];
      }
    }
    assert IsWalk(cells, w);
  }

  /** A walk that starts in a closed set never leaves it. */
  lemma {:induction false} WalkStaysInClosed(cells: set<Position>, s: set<Position>, w: seq<Position>)
    requires IsWalk(cells, w) && w[0] in s && ClosedIn(cells, s)
    ensures w[|w| - 1] in s
    decreases |w|
  {
    if |w| > 1 {
      var w' := w[..|w| - 1];
      assert IsWalk(cells, w');
      WalkStaysInClosed(cells, s, w');
      assert Adjacent(w[|w| - 2], w[|w| - 1]);
    }
  }

  lemma ReachableInLarger(cells: set<Position>, larger: set<Position>, a: Position, b: Position)
    requires cells <= larger && Reachable(cells, a, b)
    ensures Reachable(larger, a, b)
  {
    var w :| IsWalk(cells, w) && w[0] == a && w[|w| - 1] == b;
    assert IsWalk(larger, w);
  }

  /** Adding a cell next to a connected group keeps it connected. */
  lemma AddingNeighbourKeepsConnected(cells: set<Position>, p: Position, n: Position)
    requires Connected(cells) && n in cells && Adjacent(n, p)
    ensures Connected(cells + {p})
  {
    var larger := cells + {p};
    forall b | b in larger
      ensures Reachable(larger, n, b)
    {
      if b == p {
        ReachableRefl(larger, n);
        ReachableStep(larger, n, n, p);
      } else {
        ReachableInLarger(cells, larger, n, b);
      }
    }
    ConnectedFromOne(larger, n);
  }

  /** Connectivity is the same as "everything is reachable from one cell". */
  lemma ConnectedFromOne(cells: set<Position>, start: Position)
    requires start in cells
    ensures Connected(cells) <==> forall b :: b in cells ==> Reachable(cells, start, b)
  {
    if forall b :: b in cells ==> Reachable(cells, start, b) {
      forall a, b | a in cells && b in cells
        ensures Reachable(cells, a, b)
      {
        ReachableSymmetric(cells, start, a);
        ReachableTransitive(cells, a, start, b);
      }
    }
  }

  /** What the search knows when its queue runs empty: the visited cells are exactly
      the component of `start`, so they are all the cells iff the board is connected. */
  lemma SearchResult(cells: set<Position>, start: Position, visited: set<Position>)
    requires start in visited && visited <= cells
    requires ClosedIn(cells, visited)
    requires forall v :: v in visited ==> Reachable(cells, start, v)
    ensures (|visited| == |cells|) == Connected(cells)
  {
    forall b | b in cells && Reachable(cells, start, b)
      ensures b in visited
    {
      var w :| IsWalk(cells, w) && w[0] == start && w[|w| - 1] == b;
      WalkStaysInClosed(cells, visited, w);
    }
    ConnectedFromOne(cells, start);
    if visited != cells {
      SubsetCard(visited, cells);
    }
  }

  /** The body of the search loop: every occupied 8-neighbour of `current` that is not
      yet visited is marked visited and appended to the queue, in the source's order. */
  method VisitNeighbours(cells: set<Position>, ghost start: Position, current: Position,
                         visited: set<Position>, queue: seq<Position>)
    returns (visited': set<Position>, queue': seq<Position>)
    requires visited <= cells && current in visited
    requires forall q :: q in queue ==> q in visited
    requires forall v :: v in visited ==> Reachable(cells, start, v)
    ensures visited <= visited' <= cells
    ensures forall q :: q in queue' ==> q in visited'
    ensures forall n :: n in cells && Adjacent(current, n) ==> n in visited'
    ensures forall v :: v in visited' ==> Reachable(cells, start, v)
    ensures forall v :: v in visited' && v !in visited ==> v in queue'
    ensures forall q :: q in queue ==> q in queue'
    ensures visited' == visited ==> queue' == queue
  {
    var adjacent := AdjacentPositions(current);
    visited', queue' := visited, queue;
    var j := 0;
    while j < |adjacent|
      invariant 0 <= j <= |adjacent|
      invariant visited <= visited' <= cells
      invariant forall v :: v in visited' ==> Reachable(cells, start, v)
      invariant forall v :: v in visited' && v !in visited ==> v in queue'
      invariant forall q :: q in queue' ==> q in visited'
      invariant forall q :: q in queue ==> q in queue'
      invariant forall k :: 0 <= k < j && adjacent[k] in cells ==> adjacent[k] in visited'
      invariant visited' == visited ==> queue' == queue
    {
      var n := adjacent[j];
      if n in cells && n !in visited' {
        ReachableStep(cells, start, current, n);
        visited' := visited' + {n};
        queue' := queue' + [n];
      }
      j := j + 1;
    }
    forall n | n in cells && Adjacent(current, n)
      ensures n in visited'
    {
      var k :| 0 <= k < |adjacent| && adjacent[k] == n;
    }
  }

  /** isMoveValidBoardState: breadth-first search over 8-neighbours from one
      occupied cell, then compares the number of visited cells with the board size. */
  method IsMoveValidBoardState(board: Board) returns (valid: bool)
    ensures valid == Connected(board.Keys)
    ensures |board| == 0 ==> valid
  {
    if |board| == 0 {
      return true;
    }
    var cells := board.Keys;
    var start :| start in cells;
    ReachableRefl(cells, start);
    var visited := {start};
    var queue := [start];
    while |queue| > 0
      invariant visited <= cells && start in visited
      invariant forall q :: q in queue ==> q in visited
      invariant forall v :: v in visited ==> Reachable(cells, start, v)
      invariant forall v, n :: v in visited && v !in queue && n in cells && Adjacent(v, n) ==> n in visited
      decreases |cells - visited|, |queue|
    {
      var current := queue[0];
      ghost var visited0, queue0 := visited, queue;
      visited, queue := VisitNeighbours(cells, start, current, visited, queue[1..]);
      forall v, n | v in visited && v !in queue && n in cells && Adjacent(v, n)
        ensures n in visited
      {
        if v != current {
          assert v in visited0 && v !in queue0;
        }
      }
      if visited != visited0 {
        var n :| n in visited && n !in visited0;
        assert n in cells - visited0 && n !in cells - visited;
        SubsetCard(cells - visited, cells - visited0);
      }
    }
    SearchResult(cells, start, visited);
    valid := |visited| == |board|;
  }
}

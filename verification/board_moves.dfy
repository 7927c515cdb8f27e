/** A move in one direction: every line the direction defines is processed in turn,
    and a line that changes is written back and adds its score. */
module BoardMoves {
  import opened GameTypes
  import opened GameStates
  import opened Lines
  import opened BoardGeometry

  datatype Sweep = Sweep(board: seq<int>, moved: bool, gained: int)

  /** The processed form of line l of the board. */
  function Processed(b: seq<int>, n: int, d: Direction, l: int): LineResult
    requires ValidBoard(b, n) && 0 <= l < n
  {
    ProcessLine(ExtractLine(b, n, d, l))
  }

  /** The total score of lines 0 .. k-1 processed on the original board. */
  function LineScores(b: seq<int>, n: int, d: Direction, k: int): int
    requires ValidBoard(b, n) && 0 <= k <= n
  {
    if k == 0 then 0 else LineScores(b, n, d, k - 1) + Processed(b, n, d, k - 1).score
  }

  /** Lines 0 .. k-1 of r hold their processed forms, and the later lines of r are the
      lines of b. */
  predicate LinesDone(b: seq<int>, n: int, d: Direction, k: int, r: seq<int>)
    requires ValidBoard(b, n) && ValidBoard(r, n) && 0 <= k <= n
  {
    && (forall l, j :: 0 <= l < k && 0 <= j < n ==> At(r, n, d, l, j) == Processed(b, n, d, l).newLine[j])
    && (forall l, j :: k <= l < n && 0 <= j < n ==> At(r, n, d, l, j) == At(b, n, d, l, j))
  }

  /** What a sweep of lines 0 .. k-1 achieves: those lines hold their processed forms
      and later lines are as they were, the sweep moved exactly when some line moved,
      it gained the sum of the lines' scores, and a sweep that moved nothing left the
      board alone. */
  predicate Swept(b: seq<int>, n: int, d: Direction, k: int, r: Sweep)
    requires ValidBoard(b, n) && 0 <= k <= n
  {
    && ValidBoard(r.board, n)
    && LinesDone(b, n, d, k, r.board)
    && (r.moved <==> exists l :: 0 <= l < k && Processed(b, n, d, l).moved)
    && r.gained == LineScores(b, n, d, k)
    && (!r.moved ==> r.board == b)
  }

  /** Lines 0 .. k-1, in order, each read from the board as the earlier lines left it. */
  function SweepLines(b: seq<int>, n: int, d: Direction, k: int): (r: Sweep)
    requires ValidBoard(b, n) && 0 <= k <= n
    ensures Swept(b, n, d, k, r)
  {
    if k == 0 then Sweep(b, false, 0)
    else SweepStep(b, n, d, k, SweepLines(b, n, d, k - 1))
  }

  /** Processing line k-1 after lines 0 .. k-2 have been swept: a line that moved is
      written back and adds its score. */
  function SweepStep(b: seq<int>, n: int, d: Direction, k: int, prev: Sweep): (r: Sweep)
    requires ValidBoard(b, n) && 0 < k <= n && Swept(b, n, d, k - 1, prev)
    ensures Swept(b, n, d, k, r)
  {
    SweepStepLines(b, n, d, k, prev.board);
    var p := ProcessLine(ExtractLine(prev.board, n, d, k - 1));
    if p.moved then
      Sweep(WriteLine(prev.board, n, d, k - 1, p.newLine), true, prev.gained + p.score)
    else
      prev
  }

  /** Line k-1 is still as b had it, and processing it (writing it back when it moved)
      extends the finished lines by one. */
  lemma SweepStepLines(b: seq<int>, n: int, d: Direction, k: int, prev: seq<int>)
    requires ValidBoard(b, n) && 0 < k <= n
    requires ValidBoard(prev, n) && LinesDone(b, n, d, k - 1, prev)
    ensures ExtractLine(prev, n, d, k - 1) == ExtractLine(b, n, d, k - 1)
    ensures LinesDone(b, n, d, k, WriteLine(prev, n, d, k - 1, Processed(b, n, d, k - 1).newLine))
    ensures !Processed(b, n, d, k - 1).moved ==> LinesDone(b, n, d, k, prev)
  {
    NextLineUntouched(b, n, d, k, prev);
    WrittenLineDone(b, n, d, k, prev);
    if !Processed(b, n, d, k - 1).moved {
      UnmovedLineDone(b, n, d, k, prev);
    }
  }

  lemma NextLineUntouched(b: seq<int>, n: int, d: Direction, k: int, prev: seq<int>)
    requires ValidBoard(b, n) && 0 < k <= n
    requires ValidBoard(prev, n) && LinesDone(b, n, d, k - 1, prev)
    ensures ExtractLine(prev, n, d, k - 1) == ExtractLine(b, n, d, k - 1)
  {
  }

  lemma WrittenLineDone(b: seq<int>, n: int, d: Direction, k: int, prev: seq<int>)
    requires ValidBoard(b, n) && 0 < k <= n
    requires ValidBoard(prev, n) && LinesDone(b, n, d, k - 1, prev)
    ensures LinesDone(b, n, d, k, WriteLine(prev, n, d, k - 1, Processed(b, n, d, k - 1).newLine))
  {
    var p := Processed(b, n, d, k - 1);
    var w := WriteLine(prev, n, d, k - 1, p.newLine);
    forall l, j | 0 <= l < n && 0 <= j < n
      ensures At(w, n, d, l, j) == if l < k then Processed(b, n, d, l).newLine[j] else At(b, n, d, l, j)
    {
      if l != k - 1 {
        assert At(w, n, d, l, j) == At(prev, n, d, l, j);
      }
    }
  }

  lemma UnmovedLineDone(b: seq<int>, n: int, d: Direction, k: int, prev: seq<int>)
    requires ValidBoard(b, n) && 0 < k <= n
    requires ValidBoard(prev, n) && LinesDone(b, n, d, k - 1, prev)
    requires !Processed(b, n, d, k - 1).moved
    ensures LinesDone(b, n, d, k, prev)
  {
    var line := ExtractLine(b, n, d, k - 1);
    forall l, j | 0 <= l < n && 0 <= j < n
      ensures At(prev, n, d, l, j) == if l < k then Processed(b, n, d, l).newLine[j] else At(b, n, d, l, j)
    {
      if l == k - 1 {
        assert At(prev, n, d, l, j) == line[j];
      }
    }
  }

  /** All lines of the board in direction d: each line ends up in its processed form,
      the move counts as made exactly when some line moved, it gains the sum of the
      lines' scores, and a move that changes no line leaves the board as it was. */
  function MoveBoard(b: seq<int>, n: int, d: Direction): (r: Sweep)
    requires ValidBoard(b, n)
    ensures ValidBoard(r.board, n)
    ensures forall l, j :: 0 <= l < n && 0 <= j < n ==> At(r.board, n, d, l, j) == Processed(b, n, d, l).newLine[j]
    ensures r.moved <==> exists l :: 0 <= l < n && Processed(b, n, d, l).moved
    ensures r.gained == LineScores(b, n, d, n)
    ensures !r.moved ==> r.board == b
  {
    SweepLines(b, n, d, n)
  }

  /** A move reports a change exactly when the board changed. */
  lemma {:induction false} MovedIffChanged(b: seq<int>, n: int, d: Direction)
    requires ValidBoard(b, n)
    ensures MoveBoard(b, n, d).moved <==> MoveBoard(b, n, d).board != b
  {
    var r := MoveBoard(b, n, d);
    if r.moved {
      var l :| 0 <= l < n && Processed(b, n, d, l).moved;
      var line := ExtractLine(b, n, d, l);
      var j :| 0 <= j < n && Processed(b, n, d, l).newLine[j] != line[j];
      assert At(r.board, n, d, l, j) != At(b, n, d, l, j);
    }
  }

  datatype Shifted = Shifted(state: GameState, moved: bool)

  /** A move of the tiles of a state in direction d. The score grows by the gain only
      when something moved; the board is the swept board; nothing else changes. */
  function MoveState(s: GameState, d: Direction): (r: Shifted)
    requires Valid(s)
    ensures Valid(r.state)
    ensures r.moved <==> r.state.board != s.board
    ensures r.state == s.(board := r.state.board, score := r.state.score)
    ensures r.state.score == s.score + if r.moved then LineScores(s.board, s.size, d, s.size) else 0
  {
    var sweep := MoveBoard(s.board, s.size, d);
    MovedIffChanged(s.board, s.size, d);
    if sweep.moved then
      Shifted(s.(board := sweep.board, score := s.score + sweep.gained), true)
    else
      Shifted(s, false)
  }

  /** Every cell holds a tile. */
  predicate NoEmptyCell(b: seq<int>)
  {
    forall i :: 0 <= i < |b| ==> b[i] != 0
  }

  /** No tile equals its right-hand or lower neighbour. */
  predicate NoEqualNeighbours(b: seq<int>, n: int)
    requires ValidBoard(b, n)
  {
    forall r, c :: 0 <= r < n && 0 <= c < n ==> NeighboursDiffer(b, n, r, c)
  }

  /** The end of the game: the board is full and no two neighbouring tiles can merge. */
  predicate GameOverCondition(b: seq<int>, n: int)
    requires ValidBoard(b, n)
  {
    NoEmptyCell(b) && NoEqualNeighbours(b, n)
  }

  /** Scans for an empty cell, then for a cell equal to its right or lower neighbour;
      either ends the scan with false, and a board with neither is over. */
  method IsGameOverCondition(b: seq<int>, n: int) returns (over: bool)
    requires ValidBoard(b, n)
    ensures over == GameOverCondition(b, n)
  {
    var i := 0;
    while i < |b|
      invariant 0 <= i <= |b|
      invariant forall k :: 0 <= k < i ==> b[k] != 0
    {
      if b[i] == 0 {
        return false;
      }
      i := i + 1;
    }
    var row := 0;
    while row < n
      invariant 0 <= row <= n
      invariant forall r, c :: 0 <= r < row && 0 <= c < n ==> NeighboursDiffer(b, n, r, c)
    {
      var col := 0;
      while col < n
        invariant 0 <= col <= n
        invariant forall r, c :: 0 <= r < row && 0 <= c < n ==> NeighboursDiffer(b, n, r, c)
        invariant forall c :: 0 <= c < col ==> NeighboursDiffer(b, n, row, c)
      {
        var value := Tile(b, n, row, col);
        if col + 1 < n && Tile(b, n, row, col + 1) == value {
          assert !NeighboursDiffer(b, n, row, col);
          return false;
        }
        if row + 1 < n && Tile(b, n, row + 1, col) == value {
          assert !NeighboursDiffer(b, n, row, col);
          return false;
        }
        col := col + 1;
      }
      row := row + 1;
    }
    return true;
  }

  /** The tile at (r, c) differs from its right-hand and lower neighbours. */
  predicate NeighboursDiffer(b: seq<int>, n: int, r: int, c: int)
    requires ValidBoard(b, n) && 0 <= r < n && 0 <= c < n
  {
    && (c + 1 < n ==> Tile(b, n, r, c) != Tile(b, n, r, c + 1))
    && (r + 1 < n ==> Tile(b, n, r, c) != Tile(b, n, r + 1, c))
  }

  /** Some tile is at least `value`. */
  predicate HasTileAtLeast(b: seq<int>, value: int)
  {
    exists i :: 0 <= i < |b| && b[i] >= value
  }

  /** Scans the board for a tile of at least `value`. */
  method HasTileWithValue(b: seq<int>, value: int) returns (found: bool)
    ensures found == HasTileAtLeast(b, value)
  {
    var i := 0;
    while i < |b|
      invariant 0 <= i <= |b|
      invariant forall k :: 0 <= k < i ==> b[k] < value
    {
      if b[i] >= value {
        return true;
      }
      i := i + 1;
    }
    return false;
  }

  /** On a finished board every line, in every direction, is already settled. */
  lemma GameOverLineSettled(b: seq<int>, n: int, d: Direction, l: int)
    requires ValidBoard(b, n) && GameOverCondition(b, n) && 0 <= l < n
    ensures Settled(ExtractLine(b, n, d, l))
  {
    var line := ExtractLine(b, n, d, l);
    forall j | 0 <= j < n
      ensures line[j] != 0
    {
      CellInRange(n, d, l, j);
    }
    forall j | 0 <= j < n - 1
      ensures line[j] != line[j + 1]
    {
      match d
      case Left => assert NeighboursDiffer(b, n, l, j);
      case Right => assert NeighboursDiffer(b, n, l, n - 2 - j);
      case Up => assert NeighboursDiffer(b, n, j, l);
      case Down => assert NeighboursDiffer(b, n, n - 2 - j, l);
    }
  }

  /** A finished board cannot move in any direction. */
  lemma GameOverStuck(b: seq<int>, n: int, d: Direction)
    requires ValidBoard(b, n) && GameOverCondition(b, n)
    ensures !MoveBoard(b, n, d).moved
  {
    forall l | 0 <= l < n
      ensures !Processed(b, n, d, l).moved
    {
      GameOverLineSettled(b, n, d, l);
      ProcessLineFacts(ExtractLine(b, n, d, l));
    }
  }

  /** A full board on which neither Left nor Up moves anything is finished. */
  lemma StuckGameOver(b: seq<int>, n: int)
    requires ValidBoard(b, n) && NoEmptyCell(b)
    requires !MoveBoard(b, n, Left).moved && !MoveBoard(b, n, Up).moved
    ensures GameOverCondition(b, n)
  {
    forall r, c | 0 <= r < n && 0 <= c < n
      ensures NeighboursDiffer(b, n, r, c)
    {
      UnmovedLineSettled(b, n, Left, r);
      UnmovedLineSettled(b, n, Up, c);
      SettledNeighbours(b, n, r, c);
    }
  }

  /** When a direction moves nothing, each of its lines was settled. */
  lemma UnmovedLineSettled(b: seq<int>, n: int, d: Direction, l: int)
    requires ValidBoard(b, n) && !MoveBoard(b, n, d).moved && 0 <= l < n
    ensures Settled(ExtractLine(b, n, d, l))
  {
    ProcessLineFacts(ExtractLine(b, n, d, l));
    assert !Processed(b, n, d, l).moved;
  }

  lemma SettledNeighbours(b: seq<int>, n: int, r: int, c: int)
    requires ValidBoard(b, n) && NoEmptyCell(b) && 0 <= r < n && 0 <= c < n
    requires Settled(ExtractLine(b, n, Left, r)) && Settled(ExtractLine(b, n, Up, c))
    ensures NeighboursDiffer(b, n, r, c)
  {
    var row, column := ExtractLine(b, n, Left, r), ExtractLine(b, n, Up, c);
    RowMajorInRange(n, r, c);
    assert row[c] == Tile(b, n, r, c) == column[r] != 0;
    if c + 1 < n {
      assert row[c] != row[c + 1];
      assert row[c + 1] == Tile(b, n, r, c + 1);
    }
    if r + 1 < n {
      assert column[r] != column[r + 1];
      assert column[r + 1] == Tile(b, n, r + 1, c);
    }
  }

  /** The game-over test holds exactly when the board is full and no direction moves
      anything. */
  lemma GameOverIffStuck(b: seq<int>, n: int)
    requires ValidBoard(b, n)
    ensures GameOverCondition(b, n) <==> NoEmptyCell(b) && forall d :: !MoveBoard(b, n, d).moved
  {
    if GameOverCondition(b, n) {
      forall d {
        GameOverStuck(b, n, d);
      }
    }
    if NoEmptyCell(b) && forall d :: !MoveBoard(b, n, d).moved {
      assert !MoveBoard(b, n, Left).moved && !MoveBoard(b, n, Up).moved;
      StuckGameOver(b, n);
    }
  }
}

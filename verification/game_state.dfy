/** A 2048 position: a square board stored as one flat row-major sequence, plus the
    score, the move counter and the win and game-over flags. Tile value 0 is an empty
    cell. States are immutable values, so a copy never shares its board with the
    original. */
module GameStates {
  datatype GameState = GameState(
    size: int,
    board: seq<int>,
    score: int,
    moveCount: int,
    isWon: bool,
    isGameOver: bool)

  /** The board holds exactly size × size cells. */
  predicate Valid(s: GameState)
  {
    0 <= s.size && |s.board| == s.size * s.size
  }

  /** The flat position of (row, col) in row-major order. */
  function Index(size: int, row: int, col: int): int
  {
    row * size + col
  }

  /** A fresh state: size × size empty cells, nothing scored, no moves, no flags. */
  function NewState(size: int): (s: GameState)
    ensures s.size == size && |s.board| == size * size
    ensures forall i :: 0 <= i < |s.board| ==> s.board[i] == 0
    ensures s.score == 0 && s.moveCount == 0 && !s.isWon && !s.isGameOver
    ensures 0 <= size ==> Valid(s)
  {
    SquareNonNegative(size);
    GameState(size, seq(size * size, _ => 0), 0, 0, false, false)
  }

  lemma SquareNonNegative(n: int)
    ensures 0 <= n * n
  {
    if n < 0 {
      assert n * n == (-n) * (-n);
    }
  }

  /** The tile at (row, col). The array access is the only guard: on a well-shaped
      board a readable cell whose column is in range lies in a row that is in range. */
  function GetTile(s: GameState, row: int, col: int): (v: int)
    requires 0 <= Index(s.size, row, col) < |s.board|
    ensures v in s.board
    ensures Valid(s) && 0 <= col < s.size ==> 0 <= row < s.size
  {
    if Valid(s) && 0 <= col < s.size then
      RowInRange(s.size, row, col);
      s.board[Index(s.size, row, col)]
    else
      s.board[Index(s.size, row, col)]
  }

  /** A flat position inside a size × size board with its column in range has its row in range. */
  lemma {:induction false} RowInRange(size: int, row: int, col: int)
    requires 0 <= col < size && 0 <= Index(size, row, col) < size * size
    ensures 0 <= row < size
  {
    if row < 0 {
      MulMono(row, -1, size);
    } else if row >= size {
      MulMono(size, row, size);
    }
  }

  /** The state with the tile at (row, col) replaced by value. */
  function SetTile(s: GameState, row: int, col: int, value: int): (t: GameState)
    requires 0 <= Index(s.size, row, col) < |s.board|
    ensures |t.board| == |s.board| && Valid(t) == Valid(s)
    ensures t.size == s.size && t.score == s.score && t.moveCount == s.moveCount
    ensures t.isWon == s.isWon && t.isGameOver == s.isGameOver
  {
    s.(board := s.board[Index(s.size, row, col) := value])
  }

  /** Row-major order is a bijection between the coordinates of a size × size board and
      its flat positions: every in-range pair lands inside the board, distinct pairs land
      on distinct positions, and every position is reached by its quotient and remainder. */
  lemma {:induction false} RowMajorInRange(size: int, row: int, col: int)
    requires 0 <= row < size && 0 <= col < size
    ensures 0 <= Index(size, row, col) < size * size
  {
    MulMono(row, size - 1, size);
    assert row * size <= (size - 1) * size;
    assert (size - 1) * size == size * size - size;
  }

  lemma {:induction false} RowMajorInjective(size: int, r1: int, c1: int, r2: int, c2: int)
    requires 0 <= r1 < size && 0 <= c1 < size && 0 <= r2 < size && 0 <= c2 < size
    requires Index(size, r1, c1) == Index(size, r2, c2)
    ensures r1 == r2 && c1 == c2
  {
    if r1 < r2 {
      IndexOrdered(size, r1, c1, r2, c2);
    } else if r2 < r1 {
      IndexOrdered(size, r2, c2, r1, c1);
    }
  }

  /** A cell in an earlier row comes earlier in row-major order. */
  lemma {:induction false} IndexOrdered(size: int, r1: int, c1: int, r2: int, c2: int)
    requires 0 <= r1 < r2 && 0 <= c1 < size && 0 <= c2
    ensures Index(size, r1, c1) < Index(size, r2, c2)
  {
    MulMono(r1 + 1, r2, size);
    assert (r1 + 1) * size == r1 * size + size;
  }

  lemma {:induction false} RowMajorSurjective(size: int, i: int)
    requires 0 <= size && 0 <= i < size * size
    ensures 0 < size
    ensures 0 <= i / size < size && 0 <= i % size < size
    ensures Index(size, i / size, i % size) == i
  {
    if size == 0 {
      assert false;
    }
    var q := i / size;
    assert q * size + i % size == i;
    if q >= size {
      MulMono(size, q, size);
      assert false;
    }
  }

  lemma {:induction false} MulMono(a: int, b: int, n: int)
    requires a <= b && 0 <= n
    ensures a * n <= b * n
  {
    assert b * n - a * n == (b - a) * n;
  }

  /** Reading a cell after writing one: the written cell holds the new value, and every
      other in-range cell keeps its old tile. */
  lemma GetAfterSet(s: GameState, row: int, col: int, value: int, r: int, c: int)
    requires Valid(s)
    requires 0 <= row < s.size && 0 <= col < s.size && 0 <= r < s.size && 0 <= c < s.size
    ensures 0 <= Index(s.size, row, col) < |s.board| && 0 <= Index(s.size, r, c) < |s.board|
    ensures 0 <= Index(s.size, row, col) < |s.board| && 0 <= Index(s.size, r, c) < |s.board| &&
      GetTile(SetTile(s, row, col, value), r, c) == if r == row && c == col then value else GetTile(s, r, c)
  {
    RowMajorInRange(s.size, row, col);
    RowMajorInRange(s.size, r, c);
    if r != row || c != col {
      if Index(s.size, r, c) == Index(s.size, row, col) {
        RowMajorInjective(s.size, r, c, row, col);
      }
    }
  }
}

/** How the four move directions see a row-major board as lines. A move towards a
    side processes one line per row (Left, Right) or column (Up, Down), reading each
    line from the side the tiles slide towards. */
module BoardGeometry {
  import opened GameTypes
  import opened GameStates

  /** A square board of side n held as n × n row-major cells. */
  predicate ValidBoard(b: seq<int>, n: int)
  {
    0 <= n && |b| == n * n
  }

  /** The flat position of the j-th cell of line l for a move in direction d. */
  function Cell(n: int, d: Direction, l: int, j: int): int
  {
    match d
    case Left => Index(n, l, j)
    case Right => Index(n, l, n - 1 - j)
    case Up => Index(n, j, l)
    case Down => Index(n, n - 1 - j, l)
  }

  /** The line a flat position belongs to for direction d. */
  function LineOf(n: int, d: Direction, i: int): int
    requires 0 < n
  {
    match d
    case Left => i / n
    case Right => i / n
    case Up => i % n
    case Down => i % n
  }

  /** The position within its line of a flat position for direction d. */
  function PosOf(n: int, d: Direction, i: int): int
    requires 0 < n
  {
    match d
    case Left => i % n
    case Right => n - 1 - i % n
    case Up => i / n
    case Down => n - 1 - i / n
  }

  /** Every direction's lines partition the board: each (line, position) pair names a
      cell inside the board, and each cell is named by exactly the pair LineOf/PosOf. */
  lemma {:induction false} CellInRange(n: int, d: Direction, l: int, j: int)
    requires 0 <= l < n && 0 <= j < n
    ensures 0 <= Cell(n, d, l, j) < n * n
    ensures LineOf(n, d, Cell(n, d, l, j)) == l && PosOf(n, d, Cell(n, d, l, j)) == j
  {
    var i := Cell(n, d, l, j);
    var r, c := if d.Left? || d.Right? then l else (if d.Up? then j else n - 1 - j),
                if d.Up? || d.Down? then l else (if d.Left? then j else n - 1 - j);
    assert i == Index(n, r, c);
    RowMajorInRange(n, r, c);
    RowMajorSurjective(n, i);
    RowMajorInjective(n, r, c, i / n, i % n);
  }

  lemma {:induction false} CellOfPosition(n: int, d: Direction, i: int)
    requires 0 <= n && 0 <= i < n * n
    ensures 0 < n
    ensures 0 <= LineOf(n, d, i) < n && 0 <= PosOf(n, d, i) < n
    ensures Cell(n, d, LineOf(n, d, i), PosOf(n, d, i)) == i
  {
    RowMajorSurjective(n, i);
  }

  /** The tile at position j of line l. */
  function At(b: seq<int>, n: int, d: Direction, l: int, j: int): int
    requires ValidBoard(b, n) && 0 <= l < n && 0 <= j < n
  {
    CellInRange(n, d, l, j);
    b[Cell(n, d, l, j)]
  }

  /** Line l of the board as direction d reads it. */
  function ExtractLine(b: seq<int>, n: int, d: Direction, l: int): (line: seq<int>)
    requires ValidBoard(b, n) && 0 <= l < n
    ensures |line| == n
    ensures forall j :: 0 <= j < n ==> line[j] == At(b, n, d, l, j)
  {
    seq(n, j requires 0 <= j < n => At(b, n, d, l, j))
  }

  /** The board with line l, as direction d reads it, replaced by `line`; every cell of
      every other line keeps its tile. */
  function WriteLine(b: seq<int>, n: int, d: Direction, l: int, line: seq<int>): (r: seq<int>)
    requires ValidBoard(b, n) && 0 <= l < n && |line| == n
    ensures ValidBoard(r, n)
    ensures forall j :: 0 <= j < n ==> At(r, n, d, l, j) == line[j]
    ensures forall l2, j :: 0 <= l2 < n && l2 != l && 0 <= j < n ==> At(r, n, d, l2, j) == At(b, n, d, l2, j)
  {
    var r := seq(|b|, i requires 0 <= i < |b| => if LineOf(n, d, i) == l then (CellOfPosition(n, d, i); line[PosOf(n, d, i)]) else b[i]);
    forall l2, j | 0 <= l2 < n && 0 <= j < n
      ensures At(r, n, d, l2, j) == if l2 == l then line[j] else At(b, n, d, l2, j)
    {
      CellInRange(n, d, l2, j);
    }
    r
  }

  /** The tile in row r, column c. */
  function Tile(b: seq<int>, n: int, r: int, c: int): int
    requires ValidBoard(b, n) && 0 <= r < n && 0 <= c < n
  {
    RowMajorInRange(n, r, c);
    b[Index(n, r, c)]
  }

  function Reverse(s: seq<int>): (r: seq<int>)
    ensures |r| == |s| && forall i :: 0 <= i < |s| ==> r[i] == s[|s| - 1 - i]
  {
    seq(|s|, i requires 0 <= i < |s| => s[|s| - 1 - i])
  }

  /** Row r, left to right: the n consecutive cells starting at r * n. */
  function GetRow(b: seq<int>, n: int, r: int): (row: seq<int>)
    requires ValidBoard(b, n) && 0 <= r < n
    ensures 0 <= r * n && r * n + n <= |b| && row == b[r * n..r * n + n]
  {
    RowMajorInRange(n, r, n - 1);
    seq(n, c requires 0 <= c < n => Tile(b, n, r, c))
  }

  /** Column c, top to bottom: entry r is entry c of row r. */
  function GetColumn(b: seq<int>, n: int, c: int): (col: seq<int>)
    requires ValidBoard(b, n) && 0 <= c < n
    ensures |col| == n && forall r :: 0 <= r < n ==> col[r] == GetRow(b, n, r)[c]
  {
    seq(n, r requires 0 <= r < n => Tile(b, n, r, c))
  }

  /** The board after writing values[c] into each cell (r, c) of row r: row r reads
      back as the values, and every other row is unchanged. */
  function SetRow(b: seq<int>, n: int, r: int, values: seq<int>): (nb: seq<int>)
    requires ValidBoard(b, n) && 0 <= r < n && |values| == n
    ensures ValidBoard(nb, n) && GetRow(nb, n, r) == values
    ensures forall r2 :: 0 <= r2 < n && r2 != r ==> GetRow(nb, n, r2) == GetRow(b, n, r2)
  {
    var nb := seq(|b|, i requires 0 <= i < |b| => if i / n == r then values[i % n] else b[i]);
    forall r2, c | 0 <= r2 < n && 0 <= c < n
      ensures Tile(nb, n, r2, c) == if r2 == r then values[c] else Tile(b, n, r2, c)
    {
      CellInRange(n, Left, r2, c);
    }
    assert GetRow(nb, n, r) == values;
    assert forall r2 :: 0 <= r2 < n && r2 != r ==> GetRow(nb, n, r2) == GetRow(b, n, r2);
    nb
  }

  /** The board after writing values[r] into each cell (r, c) of column c: column c
      reads back as the values, and every other column is unchanged. */
  function SetColumn(b: seq<int>, n: int, c: int, values: seq<int>): (nb: seq<int>)
    requires ValidBoard(b, n) && 0 <= c < n && |values| == n
    ensures ValidBoard(nb, n) && GetColumn(nb, n, c) == values
    ensures forall c2 :: 0 <= c2 < n && c2 != c ==> GetColumn(nb, n, c2) == GetColumn(b, n, c2)
  {
    var nb := seq(|b|, i requires 0 <= i < |b| => if i % n == c then values[i / n] else b[i]);
    forall c2, r | 0 <= c2 < n && 0 <= r < n
      ensures Tile(nb, n, r, c2) == if c2 == c then values[r] else Tile(b, n, r, c2)
    {
      CellInRange(n, Up, c2, r);
    }
    assert GetColumn(nb, n, c) == values;
    assert forall c2 :: 0 <= c2 < n && c2 != c ==> GetColumn(nb, n, c2) == GetColumn(b, n, c2);
    nb
  }

  /** The four directions read and write lines exactly as rows and columns are read and
      written: Left and Up take rows and columns as they are, Right and Down take them
      reversed and reverse the result back before writing it. */
  lemma ReadLinesAsRowsAndColumns(b: seq<int>, n: int, l: int)
    requires ValidBoard(b, n) && 0 <= l < n
    ensures ExtractLine(b, n, Left, l) == GetRow(b, n, l)
    ensures ExtractLine(b, n, Right, l) == Reverse(GetRow(b, n, l))
    ensures ExtractLine(b, n, Up, l) == GetColumn(b, n, l)
    ensures ExtractLine(b, n, Down, l) == Reverse(GetColumn(b, n, l))
  {
    var row, col := GetRow(b, n, l), GetColumn(b, n, l);
    assert ExtractLine(b, n, Left, l) == row;
    assert ExtractLine(b, n, Right, l) == Reverse(row);
    assert ExtractLine(b, n, Up, l) == col;
    assert ExtractLine(b, n, Down, l) == Reverse(col);
  }

  lemma WriteLinesAsRowsAndColumns(b: seq<int>, n: int, l: int, line: seq<int>)
    requires ValidBoard(b, n) && 0 <= l < n && |line| == n
    ensures WriteLine(b, n, Left, l, line) == SetRow(b, n, l, line)
    ensures WriteLine(b, n, Right, l, line) == SetRow(b, n, l, Reverse(line))
    ensures WriteLine(b, n, Up, l, line) == SetColumn(b, n, l, line)
    ensures WriteLine(b, n, Down, l, line) == SetColumn(b, n, l, Reverse(line))
  {
    WriteRowReversed(b, n, l, line);
    WriteColumnReversed(b, n, l, line);
  }

  lemma WriteRowReversed(b: seq<int>, n: int, l: int, line: seq<int>)
    requires ValidBoard(b, n) && 0 <= l < n && |line| == n
    ensures WriteLine(b, n, Right, l, line) == SetRow(b, n, l, Reverse(line))
  {
    var w, s := WriteLine(b, n, Right, l, line), SetRow(b, n, l, Reverse(line));
    forall i | 0 <= i < |b|
      ensures w[i] == s[i]
    {
      if i / n == l {
        assert Reverse(line)[i % n] == line[n - 1 - i % n];
      }
    }
  }

  lemma WriteColumnReversed(b: seq<int>, n: int, l: int, line: seq<int>)
    requires ValidBoard(b, n) && 0 <= l < n && |line| == n
    ensures WriteLine(b, n, Down, l, line) == SetColumn(b, n, l, Reverse(line))
  {
    var w, s := WriteLine(b, n, Down, l, line), SetColumn(b, n, l, Reverse(line));
    forall i | 0 <= i < |b|
      ensures w[i] == s[i]
    {
      if i % n == l {
        CellOfPosition(n, Down, i);
        assert Reverse(line)[i / n] == line[n - 1 - i / n];
      }
    }
  }
}

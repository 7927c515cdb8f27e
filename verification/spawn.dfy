/** Placing a new tile: the empty cells are listed in row-major order, the random
    source picks one of them, and a second draw decides between a 2 and a 4. */
module Spawn {
  import opened GameStates

  /** One use of the random source by a spawn: `pick` stands for the index drawn below
      the number of empty cells, `isFour` for the uniform draw landing at or above 0.9. */
  datatype SpawnDraw = SpawnDraw(pick: nat, isFour: bool)

  /** The positions from i on that hold no tile, in increasing order. */
  function EmptyFrom(b: seq<int>, i: nat): (e: seq<nat>)
    requires i <= |b|
    ensures forall k :: 0 <= k < |e| ==> i <= e[k] < |b| && b[e[k]] == 0
    ensures forall j :: i <= j < |b| && b[j] == 0 ==> j in e
    ensures forall k, m :: 0 <= k < m < |e| ==> e[k] < e[m]
    ensures |e| + TileCountFrom(b, i) == |b| - i
    decreases |b| - i
  {
    if i == |b| then []
    else if b[i] == 0 then [i] + EmptyFrom(b, i + 1)
    else EmptyFrom(b, i + 1)
  }

  /** The number of tiles from position i on. */
  function TileCountFrom(b: seq<int>, i: nat): nat
    requires i <= |b|
    decreases |b| - i
  {
    if i == |b| then 0 else (if b[i] != 0 then 1 else 0) + TileCountFrom(b, i + 1)
  }

  function EmptyCells(b: seq<int>): seq<nat>
  {
    EmptyFrom(b, 0)
  }

  function TileCount(b: seq<int>): nat
  {
    TileCountFrom(b, 0)
  }

  function SpawnValue(draw: SpawnDraw): int
  {
    if draw.isFour then 4 else 2
  }

  /** Place a 2 or a 4 on the drawn empty cell; a full board is left as it is. Only the
      board changes, and only at that one previously empty cell. On a well-shaped board
      the flat positions in increasing order are the (row, col) cells in row-major order. */
  function SpawnTile(s: GameState, draw: SpawnDraw): (t: GameState)
    requires Valid(s)
    ensures t == s.(board := t.board) && |t.board| == |s.board|
    ensures EmptyCells(s.board) == [] ==> t == s
    ensures EmptyCells(s.board) != [] ==>
      var i := EmptyCells(s.board)[draw.pick % |EmptyCells(s.board)|];
      s.board[i] == 0 && t.board == s.board[i := SpawnValue(draw)]
    ensures TileCount(t.board) == if EmptyCells(s.board) == [] then TileCount(s.board) else TileCount(s.board) + 1
  {
    var empties := EmptyCells(s.board);
    if empties == [] then s
    else
      var i := empties[draw.pick % |empties|];
      TileCountAfterFill(s.board, 0, i, SpawnValue(draw));
      s.(board := s.board[i := SpawnValue(draw)])
  }

  /** Filling an empty cell with a tile adds one to the tile count. */
  lemma {:induction false} TileCountAfterFill(b: seq<int>, from: nat, i: nat, v: int)
    requires from <= i < |b| && b[i] == 0 && v != 0
    ensures TileCountFrom(b[i := v], from) == TileCountFrom(b, from) + 1
    decreases |b| - from
  {
    if from < i {
      TileCountAfterFill(b, from + 1, i, v);
    } else {
      TileCountUnchanged(b, b[i := v], from + 1);
    }
  }

  lemma {:induction false} TileCountUnchanged(b: seq<int>, c: seq<int>, from: nat)
    requires |b| == |c| && from <= |b|
    requires forall j :: from <= j < |b| ==> b[j] == c[j]
    ensures TileCountFrom(b, from) == TileCountFrom(c, from)
    decreases |b| - from
  {
    if from < |b| {
      TileCountUnchanged(b, c, from + 1);
    }
  }

  /** Every empty cell and both values are reachable: for each empty cell and each of 2
      and 4 there is a draw that places that value there. */
  lemma SpawnReachesEveryCell(s: GameState, i: int, four: bool)
    requires Valid(s) && 0 <= i < |s.board| && s.board[i] == 0
    ensures exists draw :: SpawnTile(s, draw).board == s.board[i := if four then 4 else 2]
  {
    var e := EmptyCells(s.board);
    var k := PositionOf(e, i, s.board);
    var draw := SpawnDraw(k, four);
    ModSmall(k, |e|);
    var t := SpawnTile(s, draw);
    assert t.board == s.board[i := SpawnValue(draw)];
  }

  lemma PositionOf(e: seq<nat>, i: int, b: seq<int>) returns (k: nat)
    requires e == EmptyCells(b) && 0 <= i < |b| && b[i] == 0
    ensures k < |e| && e[k] == i
  {
    assert i in e;
    k :| 0 <= k < |e| && e[k] == i;
  }

  lemma ModSmall(k: nat, n: nat)
    requires k < n
    ensures k % n == k
  {
  }

  /** A board without tiles has tile count zero, so every cell is empty. */
  lemma {:induction false} TileCountOfEmptyBoard(b: seq<int>, from: nat)
    requires from <= |b|
    requires forall j :: from <= j < |b| ==> b[j] == 0
    ensures TileCountFrom(b, from) == 0
    decreases |b| - from
  {
    if from < |b| {
      TileCountOfEmptyBoard(b, from + 1);
    }
  }
}

/** The game engine: the current state, the undo and redo histories, and the
    operations a player drives — a new game, a move, undo, redo, load and save.
    The random source is passed in as the draws each spawn consumes. */
module GameEngine {
  import opened GameTypes
  import opened GameStates
  import opened GameStateDtos
  import opened BoardGeometry
  import opened BoardMoves
  import opened Lines
  import opened Spawn
  import opened History

  datatype Engine = Engine(config: GameConfig, current: GameState, undo: seq<GameState>, redo: seq<GameState>)

  predicate AllValid(st: seq<GameState>)
  {
    forall i :: 0 <= i < |st| ==> Valid(st[i])
  }

  /** The engine's invariant: every state it holds is well-shaped and both histories
      are within the cap. */
  predicate WellFormed(e: Engine)
  {
    && Valid(e.current) && AllValid(e.undo) && AllValid(e.redo)
    && |e.undo| <= MaxHistorySize && |e.redo| <= MaxHistorySize
  }

  predicate CanUndo(e: Engine)
  {
    e.undo != []
  }

  predicate CanRedo(e: Engine)
  {
    e.redo != []
  }

  /** A spawned value: an empty cell, a 2 or a 4. */
  predicate FreshValue(v: int)
  {
    v == 0 || v == 2 || v == 4
  }

  /** The state of a new game: an empty board of the configured size with two tiles
      spawned on it, each a 2 or a 4 (fewer only when the board has fewer than two cells). */
  function InitialState(config: GameConfig, first: SpawnDraw, second: SpawnDraw): (s: GameState)
    requires 0 <= config.size
    ensures Valid(s) && s.size == config.size && s.score == 0 && s.moveCount == 0
    ensures !s.isWon && !s.isGameOver
    ensures TileCount(s.board) == if config.size * config.size < 2 then config.size * config.size else 2
    ensures forall i :: 0 <= i < |s.board| ==> FreshValue(s.board[i])
  {
    var empty := NewState(config.size);
    TileCountOfEmptyBoard(empty.board, 0);
    SpawnTile(SpawnTile(empty, first), second)
  }

  /** A freshly constructed engine: no history, and the initial state of a new game. */
  function NewEngine(config: GameConfig, first: SpawnDraw, second: SpawnDraw): (e: Engine)
    requires 0 <= config.size
    ensures WellFormed(e) && e.config == config && e.undo == [] && e.redo == []
    ensures e.current.size == config.size && e.current.score == 0 && e.current.moveCount == 0
    ensures !e.current.isWon && !e.current.isGameOver
    ensures TileCount(e.current.board) == if config.size * config.size < 2 then config.size * config.size else 2
    ensures forall i :: 0 <= i < |e.current.board| ==> FreshValue(e.current.board[i])
  {
    Engine(config, InitialState(config, first, second), [], [])
  }

  /** Starting over keeps only the configuration: the result is the engine a fresh
      construction with the same draws would give. */
  function NewGame(e: Engine, first: SpawnDraw, second: SpawnDraw): (r: Engine)
    requires 0 <= e.config.size
    ensures r == NewEngine(e.config, first, second)
  {
    var blank := NewState(e.config.size);
    Engine(e.config, SpawnTile(SpawnTile(blank, first), second), [], [])
  }

  /** What a move does after its shift changed the board: count it, spawn a tile, then
      raise the win flag if the winning tile is present and the game-over flag if a win
      must end the game or no move remains. Both flags are judged on the board after the
      spawn, and neither is ever lowered. */
  function AfterShift(config: GameConfig, shifted: GameState, draw: SpawnDraw): (s: GameState)
    requires Valid(shifted)
    ensures Valid(s) && s.size == shifted.size && s.score == shifted.score
    ensures s.moveCount == shifted.moveCount + 1
    ensures s.board == SpawnTile(shifted, draw).board
    ensures s.isWon <==> shifted.isWon || HasTileAtLeast(s.board, config.winTile)
    ensures s.isGameOver <==>
      shifted.isGameOver || (!config.allowContinueAfterWin && s.isWon) || GameOverCondition(s.board, s.size)
  {
    var counted := shifted.(moveCount := shifted.moveCount + 1);
    var spawned := SpawnTile(counted, draw);
    var won := spawned.isWon || HasTileAtLeast(spawned.board, config.winTile);
    var over := spawned.isGameOver || (!config.allowContinueAfterWin && won) || GameOverCondition(spawned.board, spawned.size);
    spawned.(isWon := won, isGameOver := over)
  }

  datatype MoveOutcome = MoveOutcome(engine: Engine, moved: bool)

  /** A player's move. A finished game ignores it. A move that leaves the board as it is
      changes nothing but may discover that the game is over. A move that changes the
      board records the previous state for undo, forgets the redo history, counts the
      move, spawns a tile and settles the win and game-over flags. */
  function Move(e: Engine, d: Direction, draw: SpawnDraw): (r: MoveOutcome)
    requires Valid(e.current)
    ensures e.current.isGameOver ==> r == MoveOutcome(e, false)
    ensures r.moved <==> !e.current.isGameOver && MoveState(e.current, d).state.board != e.current.board
    ensures r.engine.config == e.config && Valid(r.engine.current) && r.engine.current.size == e.current.size
    ensures r.engine.current.moveCount == e.current.moveCount + if r.moved then 1 else 0
    ensures e.current.isWon ==> r.engine.current.isWon
    ensures !r.moved ==>
      r.engine == e.(current := e.current.(isGameOver := e.current.isGameOver || GameOverCondition(e.current.board, e.current.size)))
    ensures r.moved ==> r.engine.undo == BoundedPush(e.undo, e.current) && r.engine.redo == []
    ensures r.moved ==> r.engine.current.board == SpawnTile(MoveState(e.current, d).state, draw).board
    ensures r.moved ==> r.engine.current.score == MoveState(e.current, d).state.score
    ensures r.moved ==>
      (r.engine.current.isWon <==> e.current.isWon || HasTileAtLeast(r.engine.current.board, e.config.winTile))
    ensures r.moved ==>
      (r.engine.current.isGameOver <==>
        (!e.config.allowContinueAfterWin && r.engine.current.isWon) ||
        GameOverCondition(r.engine.current.board, r.engine.current.size))
  {
    if e.current.isGameOver then MoveOutcome(e, false)
    else
      var shift := MoveState(e.current, d);
      if shift.moved then
        MoveOutcome(Engine(e.config, AfterShift(e.config, shift.state, draw), BoundedPush(e.undo, e.current), []), true)
      else
        var over := e.current.isGameOver || GameOverCondition(e.current.board, e.current.size);
        MoveOutcome(e.(current := e.current.(isGameOver := over)), false)
  }

  datatype Step = Step(engine: Engine, ok: bool)

  /** Step back: with an empty undo history nothing happens; otherwise the state on top
      of it becomes current and the current state goes onto the redo history. */
  function Undo(e: Engine): (r: Step)
    ensures r.ok <==> CanUndo(e)
    ensures !r.ok ==> r.engine == e
    ensures r.ok ==> r.engine.config == e.config && r.engine.current == e.undo[|e.undo| - 1]
    ensures r.ok ==> r.engine.undo == e.undo[..|e.undo| - 1] && r.engine.redo == BoundedPush(e.redo, e.current)
  {
    if e.undo == [] then Step(e, false)
    else
      var previous := e.undo[|e.undo| - 1];
      Step(Engine(e.config, previous, e.undo[..|e.undo| - 1], BoundedPush(e.redo, e.current)), true)
  }

  /** Step forward again: the mirror image of Undo with the two histories swapped. */
  function Redo(e: Engine): (r: Step)
    ensures r.ok <==> CanRedo(e)
    ensures !r.ok ==> r.engine == e
    ensures r.ok ==> r.engine.config == e.config && r.engine.current == e.redo[|e.redo| - 1]
    ensures r.ok ==> r.engine.redo == e.redo[..|e.redo| - 1] && r.engine.undo == BoundedPush(e.undo, e.current)
  {
    if e.redo == [] then Step(e, false)
    else
      var next := e.redo[|e.redo| - 1];
      Step(Engine(e.config, next, BoundedPush(e.undo, e.current), e.redo[..|e.redo| - 1]), true)
  }

  /** Replace the current state by a saved one and forget both histories. */
  function LoadState(e: Engine, dto: GameStateDto): (r: Engine)
    ensures r.config == e.config && r.undo == [] && r.redo == []
    ensures FromGameState(r.current) == dto.(version := CurrentVersion)
    ensures Valid(r.current) <==> 0 <= dto.size && |dto.board| == dto.size * dto.size
  {
    Engine(e.config, ToGameState(dto), [], [])
  }

  /** A snapshot of the current state, stamped with the current format version. */
  function SaveState(e: Engine): (dto: GameStateDto)
    ensures dto.version == CurrentVersion && ToGameState(dto) == e.current
  {
    StateRoundTrip(e.current);
    FromGameState(e.current)
  }

  /** Pushing a well-shaped state keeps a history of well-shaped states. */
  lemma BoundedPushAllValid(st: seq<GameState>, x: GameState)
    requires AllValid(st) && Valid(x)
    ensures AllValid(BoundedPush(st, x))
  {
    var r := BoundedPush(st, x);
    forall i | 0 <= i < |r|
      ensures Valid(r[i])
    {
      if i < |r| - 1 {
        assert r[i] == st[i];
      }
    }
  }

  /** Moves keep the engine's invariant. */
  lemma MovePreservesWellFormed(e: Engine, d: Direction, draw: SpawnDraw)
    requires WellFormed(e)
    ensures WellFormed(Move(e, d, draw).engine)
  {
    if Move(e, d, draw).moved {
      BoundedPushAllValid(e.undo, e.current);
    }
  }

  /** Undo keeps the engine's invariant. */
  lemma UndoPreservesWellFormed(e: Engine)
    requires WellFormed(e)
    ensures WellFormed(Undo(e).engine)
  {
    if CanUndo(e) {
      BoundedPushAllValid(e.redo, e.current);
      var u := e.undo[..|e.undo| - 1];
      assert forall i :: 0 <= i < |u| ==> u[i] == e.undo[i];
    }
  }

  /** Redo keeps the engine's invariant. */
  lemma RedoPreservesWellFormed(e: Engine)
    requires WellFormed(e)
    ensures WellFormed(Redo(e).engine)
  {
    if CanRedo(e) {
      BoundedPushAllValid(e.undo, e.current);
      var u := e.redo[..|e.redo| - 1];
      assert forall i :: 0 <= i < |u| ==> u[i] == e.redo[i];
    }
  }

  /** Undo right after a move restores the state before it; the state the move produced
      is then the only thing that can be redone. */
  lemma UndoAfterMove(e: Engine, d: Direction, draw: SpawnDraw)
    requires Valid(e.current) && Move(e, d, draw).moved
    ensures Undo(Move(e, d, draw).engine).ok
    ensures Undo(Move(e, d, draw).engine).engine.current == e.current
    ensures Undo(Move(e, d, draw).engine).engine.redo == [Move(e, d, draw).engine.current]
    ensures |e.undo| < MaxHistorySize ==> Undo(Move(e, d, draw).engine).engine.undo == e.undo
  {
    var m := Move(e, d, draw).engine;
    assert m.undo == BoundedPush(e.undo, e.current);
  }

  /** Redo right after an undo gives back the engine as it was, unless the redo history
      was already full. */
  lemma RedoAfterUndo(e: Engine)
    requires CanUndo(e) && |e.undo| <= MaxHistorySize && |e.redo| < MaxHistorySize
    ensures Redo(Undo(e).engine) == Step(e, true)
  {
    var u := Undo(e).engine;
    assert u.redo == e.redo + [e.current];
    assert u.redo[..|u.redo| - 1] == e.redo;
    assert u.undo + [e.undo[|e.undo| - 1]] == e.undo;
  }

  /** With a full redo history the undo evicts the most recent redo entry, so undo then
      redo comes back to the same state but loses that entry. */
  lemma RedoAfterUndoAtCap(e: Engine)
    requires CanUndo(e) && |e.undo| <= MaxHistorySize && |e.redo| == MaxHistorySize
    ensures Redo(Undo(e).engine) == Step(e.(redo := e.redo[..|e.redo| - 1]), true)
  {
    var u := Undo(e).engine;
    assert u.redo == e.redo[..|e.redo| - 1] + [e.current];
    assert u.redo[..|u.redo| - 1] == e.redo[..|e.redo| - 1];
    assert u.undo + [e.undo[|e.undo| - 1]] == e.undo;
  }

  /** Undo right after a redo gives back the engine as it was, unless the undo history
      was already full. */
  lemma UndoAfterRedo(e: Engine)
    requires CanRedo(e) && |e.redo| <= MaxHistorySize && |e.undo| < MaxHistorySize
    ensures Undo(Redo(e).engine) == Step(e, true)
  {
    var r := Redo(e).engine;
    assert r.undo == e.undo + [e.current];
    assert r.undo[..|r.undo| - 1] == e.undo;
    assert r.redo + [e.redo[|e.redo| - 1]] == e.redo;
  }

  /** Loading what was just saved gives back the current state, with the histories cleared. */
  lemma SaveThenLoad(e: Engine)
    ensures LoadState(e, SaveState(e)) == e.(undo := [], redo := [])
  {
  }

  /** Saving right after a load reproduces the loaded snapshot, stamped with the current version. */
  lemma LoadThenSave(e: Engine, dto: GameStateDto)
    ensures SaveState(LoadState(e, dto)) == dto.(version := CurrentVersion)
  {
    var s := LoadState(e, dto).current;
    StateRoundTrip(s);
  }

  /** When play may continue after a win, a move that ends the game leaves a board on
      which no direction moves any tile. */
  lemma OverMeansStuck(e: Engine, d: Direction, draw: SpawnDraw, d2: Direction)
    requires Valid(e.current) && !e.current.isGameOver && e.config.allowContinueAfterWin
    requires Move(e, d, draw).engine.current.isGameOver
    ensures !MoveBoard(Move(e, d, draw).engine.current.board, e.current.size, d2).moved
  {
    var s := Move(e, d, draw).engine.current;
    assert GameOverCondition(s.board, s.size);
    GameOverStuck(s.board, s.size, d2);
  }

  /** On the 2 by 2 board [2, 4; 4, 2] no move is possible: a move left changes nothing
      and ends the game. */
  lemma GameOverExample(draw: SpawnDraw)
    ensures var e := Engine(GameConfig(2, 2048, true), GameState(2, [2, 4, 4, 2], 0, 0, false, false), [], []);
      var r := Move(e, Left, draw);
      !r.moved && r.engine.current.isGameOver && r.engine.current.board == [2, 4, 4, 2]
  {
    CheckerboardOver();
    GameOverStuck([2, 4, 4, 2], 2, Left);
  }

  /** The board 2 4 / 4 2 is full and has no equal neighbours. */
  lemma CheckerboardOver()
    ensures ValidBoard([2, 4, 4, 2], 2) && GameOverCondition([2, 4, 4, 2], 2)
  {
    var b := [2, 4, 4, 2];
    assert ValidBoard(b, 2);
    assert Tile(b, 2, 0, 0) == 2 && Tile(b, 2, 0, 1) == 4 && Tile(b, 2, 1, 0) == 4 && Tile(b, 2, 1, 1) == 2;
    assert NeighboursDiffer(b, 2, 0, 0) && NeighboursDiffer(b, 2, 0, 1);
    assert NeighboursDiffer(b, 2, 1, 0) && NeighboursDiffer(b, 2, 1, 1);
    assert NoEqualNeighbours(b, 2);
  }

  /** A move whose shift produces a tile of at least the winning value wins the game,
      whatever the spawn does afterwards; without play after a win it also ends the game. */
  lemma WinDetected(e: Engine, d: Direction, draw: SpawnDraw)
    requires Valid(e.current) && Move(e, d, draw).moved
    requires HasTileAtLeast(MoveState(e.current, d).state.board, e.config.winTile)
    ensures Move(e, d, draw).engine.current.isWon
    ensures !e.config.allowContinueAfterWin ==> Move(e, d, draw).engine.current.isGameOver
  {
    SpawnKeepsTileAtLeast(MoveState(e.current, d).state, draw, e.config.winTile);
  }

  /** A spawn only fills an empty cell with a positive value, so a tile of at least v survives it. */
  lemma SpawnKeepsTileAtLeast(s: GameState, draw: SpawnDraw, v: int)
    requires Valid(s) && HasTileAtLeast(s.board, v)
    ensures HasTileAtLeast(SpawnTile(s, draw).board, v)
  {
    var j :| 0 <= j < |s.board| && s.board[j] >= v;
    assert SpawnTile(s, draw).board[j] >= v;
  }

  /** Two 1024 tiles side by side on a 4 by 4 board: a move left merges them into 2048,
      which wins, and with play after a win disallowed also ends the game. */
  lemma WinExample(draw: SpawnDraw)
    ensures var b := [1024, 1024] + seq(14, _ => 0);
      var e := Engine(GameConfig(4, 2048, false), GameState(4, b, 0, 0, false, false), [], []);
      var r := Move(e, Left, draw);
      r.moved && r.engine.current.isWon && r.engine.current.isGameOver
  {
    var b := [1024, 1024] + seq(14, _ => 0);
    var e := Engine(GameConfig(4, 2048, false), GameState(4, b, 0, 0, false, false), [], []);
    assert ValidBoard(b, 4);
    var line := ExtractLine(b, 4, Left, 0);
    assert line == [1024, 1024, 0, 0] by {
      assert line[0] == b[Index(4, 0, 0)] && line[1] == b[Index(4, 0, 1)];
      assert line[2] == b[Index(4, 0, 2)] && line[3] == b[Index(4, 0, 3)];
    }
    PairExample();
    var sweep := MoveBoard(b, 4, Left);
    assert Processed(b, 4, Left, 0).moved;
    assert sweep.board[0] == 2048 by {
      assert At(sweep.board, 4, Left, 0, 0) == Processed(b, 4, Left, 0).newLine[0];
    }
    WinDetected(e, Left, draw);
  }
}

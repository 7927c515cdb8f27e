/** The serialisable snapshot of a game state: the same six fields plus a format
    version. Conversion copies the board, so neither side aliases the other. */
module GameStateDtos {
  import opened GameStates

  /** The format version a snapshot is written with. */
  const CurrentVersion: int := 1

  datatype GameStateDto = GameStateDto(
    version: int,
    size: int,
    board: seq<int>,
    score: int,
    moveCount: int,
    isWon: bool,
    isGameOver: bool)

  /** A snapshot as freshly constructed: current version, empty board, all else zero. */
  const EmptyDto: GameStateDto := GameStateDto(CurrentVersion, 0, [], 0, 0, false, false)

  /** Snapshot a state at the current version, copying all six fields. */
  function FromGameState(s: GameState): (d: GameStateDto)
    ensures d.version == CurrentVersion
    ensures d.size == s.size && d.board == s.board && d.score == s.score
    ensures d.moveCount == s.moveCount && d.isWon == s.isWon && d.isGameOver == s.isGameOver
  {
    GameStateDto(CurrentVersion, s.size, s.board, s.score, s.moveCount, s.isWon, s.isGameOver)
  }

  /** Rebuild a state from a snapshot, whatever its version; snapshotting the result
      gives the same snapshot back, stamped with the current version. */
  function ToGameState(d: GameStateDto): (s: GameState)
    ensures FromGameState(s) == d.(version := CurrentVersion)
    ensures Valid(s) <==> 0 <= d.size && |d.board| == d.size * d.size
  {
    GameState(d.size, d.board, d.score, d.moveCount, d.isWon, d.isGameOver)
  }

  /** Snapshotting a state and rebuilding it yields the state itself. */
  lemma StateRoundTrip(s: GameState)
    ensures ToGameState(FromGameState(s)) == s
  {
  }

  /** Snapshots that differ only in their version rebuild the same state. */
  lemma VersionIgnored(d: GameStateDto, e: GameStateDto)
    requires d.(version := e.version) == e
    ensures ToGameState(d) == ToGameState(e)
  {
  }
}

/** The plain value types of the 2048 engine: move directions and game settings. */
module GameTypes {
  datatype Direction = Up | Down | Left | Right

  /** Board side length, the tile value that wins, and whether play continues after a win. */
  datatype GameConfig = GameConfig(size: int, winTile: int, allowContinueAfterWin: bool)

  /** A 4 × 4 board, 2048 to win, endless play after a win. */
  const DefaultConfig: GameConfig := GameConfig(4, 2048, true)
}

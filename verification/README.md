# littlebits-r2-app core, modelled in Dafny

This project models two independent pieces of the littlebits-r2-app repository and
proves properties about them.

**The 2048 game engine** (`Game2048.Core`):
- a state is a square board stored row-major, plus score, move count and the win and game-over flags;
- a move slides and merges every line in one direction, then spawns a tile;
- the engine keeps undo and redo histories capped at 50 entries;
- a state can be saved to, and loaded from, a versioned transfer record.

**The R2-D2 command codec** (`LittleBitsR2Controller.Core`):
- pre-captured frames are written as hexadecimal text;
- a joystick value in [-1, 1] picks a drive or turn frame by scaling and rounding;
- a sound name, in any letter case, picks a sound frame.

Modules:
- `Wrappers`: `Option` and `Result`.
- `Ascii`: letter case, as far as the sound names need it.
- `Hex`: hexadecimal text and bytes.
- `Numerics`: clamping, and rounding half to even.
- `R2D2Tables`: the constant tables.
- `R2D2Protocol`: the command builders.
- `GameTypes`: directions and configuration.
- `GameStates`: the state record.
- `GameStateDtos`: the transfer record.
- `Lines`: how one line is processed.
- `BoardGeometry`: how lines map onto rows and columns.
- `BoardMoves`: whole-board moves and the end-of-game test.
- `History`: the bounded stacks.
- `Spawn`: placing a new tile.
- `GameEngine`: the engine.

The model follows the code wherever the code's own comments or the test comments say something else:
- **Rounding.** Drive and turn indices use `Math.Round`, which rounds half to even, and not floor. The comments in the edge-case tests (tests/LittleBitsR2Controller.Tests/Services/R2D2ProtocolEdgeCasesTests.cs:170-208) assume floor.
  - Speed 0.001 gives drive index 31, not 30.
  - Turn 0.001 gives index 16, not 17.
- **Turn scale.** The turn index is `(turn + 1) * 16`, so turn 0 gives index 16. The constant `TurnStraightIndex` is 15 and is never used by the code.
- **Sound names.** The names "wow!" and "scream!!" expected by one test are not in the table, so they give no command.
- **History eviction.** A full history evicts its most recent entry, not its oldest as the code's comment says. The source lists the stack from the top, removes the first element, and pushes the rest back.

Randomness is passed in. A spawn receives a `SpawnDraw`:
- `pick` stands for `Next(count)`;
- `isFour` stands for `NextDouble() >= 0.9`.

Saving and loading are modelled as synchronous functions.

## Model

| member | source | states |
|---|---|---|
| Hex.HexStringToBytes | src/LittleBitsR2Controller.Core/Services/R2D2Protocol.cs:162-171 | succeeds exactly when the text splits into pairs that `Convert.ToByte(…, 16)` accepts: two digits of either case, or '+' and one digit; byte k is the value of pair k; fails with OddLength exactly when every complete pair is accepted but one character is left over |
| Hex.DecodeEncode | src/LittleBitsR2Controller.Core/Services/R2D2Protocol.cs:162-171 | decoding the spelling of any byte sequence gives the bytes back |
| Hex.EncodeDecode | src/LittleBitsR2Controller.Core/Services/R2D2Protocol.cs:162-171 | decoding accepted text and spelling it again gives the text in upper case, with each '+' written as 0 |
| Hex.EncodeDecodeUpper | src/LittleBitsR2Controller.Core/Services/R2D2Protocol.cs:162-171 | upper-case table text survives a decode/encode round trip unchanged |
| Hex.CaseInsensitive | src/LittleBitsR2Controller.Core/Services/R2D2Protocol.cs:162-171 | upper-casing the text never changes the decode result, including the failures |
| Hex.DigitValueOfUpperDigit | src/LittleBitsR2Controller.Core/Services/R2D2Protocol.cs:168 | the digit written for a nibble reads back as that nibble |
| Hex.UpperDigitOfValue | src/LittleBitsR2Controller.Core/Services/R2D2Protocol.cs:168 | rewriting a digit from its value gives the upper-case form of the digit |
| Hex.PairValue | src/LittleBitsR2Controller.Core/Services/R2D2Protocol.cs:168 | the byte of an accepted pair is the one the encoder spells as that pair, upper-cased, with a leading '+' spelled 0 |
| Hex.UpperHexIsHex | src/LittleBitsR2Controller.Core/Services/R2D2Protocol.cs:162-171 | text the encoder writes is accepted and is already in canonical form |
| Hex.SignExample | src/LittleBitsR2Controller.Core/Services/R2D2Protocol.cs:168 | "+F" decodes to 0F and "0A+F" to 0A 0F, as the parser skips a leading '+'; "-F" and "F+" are refused |
| Hex.MixedCaseExample | tests/LittleBitsR2Controller.Tests/Services/R2D2ProtocolEdgeCasesTests.cs:245-291 | "ABCDEF", "abcdef" and "AbCdEf" all decode to AB CD EF |
| Hex.FrameExample | tests/LittleBitsR2Controller.Tests/Services/R2D2ProtocolTests.cs:9-20 | the full-forward frame text decodes to 14 02 02 FF 65 9D |
| Ascii.ToLowerChar | src/LittleBitsR2Controller.Core/Services/R2D2Protocol.cs:222 | each ASCII capital becomes its small letter and the Kelvin sign becomes 'k'; every other character is kept; the result is ASCII exactly when the input is ASCII or the Kelvin sign |
| Ascii.ToLower | src/LittleBitsR2Controller.Core/Services/R2D2Protocol.cs:222 | lower-casing a name lower-cases each character in place |
| Ascii.ToLowerIdempotent | src/LittleBitsR2Controller.Core/Services/R2D2Protocol.cs:222 | lower-casing twice is lower-casing once |
| Ascii.ToLowerOfUpper | src/LittleBitsR2Controller.Core/Services/R2D2Protocol.cs:222 | lower-casing forgets any prior upper-casing |
| Numerics.Clamp | src/LittleBitsR2Controller.Core/Services/R2D2Protocol.cs:180 | the result lies in [lo, hi], equals x inside the interval and the nearer bound outside it |
| Numerics.ClampOrder | src/LittleBitsR2Controller.Core/Services/R2D2Protocol.cs:180 | clamping keeps order and clamping twice is clamping once |
| Numerics.ClampInt | src/LittleBitsR2Controller.Core/Services/R2D2Protocol.cs:185 | the integer clamp agrees with the real clamp at every integer |
| Numerics.RoundHalfEven | src/LittleBitsR2Controller.Core/Services/R2D2Protocol.cs:184 | the result is a nearest integer to x, and the even one on a tie |
| Numerics.NearestEvenUnique | src/LittleBitsR2Controller.Core/Services/R2D2Protocol.cs:184 | that rounding has exactly one answer |
| Numerics.RoundMonotone | src/LittleBitsR2Controller.Core/Services/R2D2Protocol.cs:184 | rounding preserves order |
| Numerics.RoundOfInt | src/LittleBitsR2Controller.Core/Services/R2D2Protocol.cs:184 | whole numbers round to themselves |
| Numerics.RoundReflect | src/LittleBitsR2Controller.Core/Services/R2D2Protocol.cs:184 | reflecting x about an integer m reflects the rounded value about m |
| R2D2Tables.DriveTableShape | src/LittleBitsR2Controller.Core/Services/R2D2Protocol.cs:18-83 | 63 drive frames, each 12 upper-case hex digits behind the header 14 02 02; the stop index 31 is inside the table |
| R2D2Tables.TurnTableShape | src/LittleBitsR2Controller.Core/Services/R2D2Protocol.cs:88-127 | 33 turn frames, each 12 upper-case hex digits behind the header 14 02 01; the straight index 15 is inside the table |
| R2D2Tables.SoundTableShape | src/LittleBitsR2Controller.Core/Services/R2D2Protocol.cs:133-157 | 22 sounds, each 10 upper-case hex digits behind the header 1E 01, under names already in lower case |
| R2D2Tables.SoundNameChars | src/LittleBitsR2Controller.Core/Services/R2D2Protocol.cs:133-157 | every sound name uses only lower-case letters, digits and spaces |
| R2D2Protocol.EntryFrame | src/LittleBitsR2Controller.Core/Services/R2D2Protocol.cs:162-171 | a table entry decodes to half as many bytes as it has characters; the first bytes are its header; its spelling is the entry again |
| R2D2Protocol.DriveIndex | src/LittleBitsR2Controller.Core/Services/R2D2Protocol.cs:177-186 | the index is always inside the drive table; inside [-1, 1] it is (1 - speed) * 31 rounded half to even; speeds at or beyond full forward give 0, and at or beyond full backward give 62 |
| R2D2Protocol.TurnIndex | src/LittleBitsR2Controller.Core/Services/R2D2Protocol.cs:194-203 | the index is always inside the turn table; inside [-1, 1] it is (turn + 1) * 16 rounded half to even; full left and beyond give 0, full right and beyond give 32 |
| R2D2Protocol.GetDriveCommand | src/LittleBitsR2Controller.Core/Services/R2D2Protocol.cs:177-188 | a 6-byte frame starting 14 02 02 whose spelling is the drive table entry at the speed's index |
| R2D2Protocol.GetTurnCommand | src/LittleBitsR2Controller.Core/Services/R2D2Protocol.cs:194-205 | a 6-byte frame starting 14 02 01 whose spelling is the turn table entry at the turn's index |
| R2D2Protocol.GetStopCommand | src/LittleBitsR2Controller.Core/Services/R2D2Protocol.cs:210-213 | the stop frame is the drive table's stop entry, and it is the drive command for speed 0 |
| R2D2Protocol.GetSoundCommand | src/LittleBitsR2Controller.Core/Services/R2D2Protocol.cs:220-227 | a frame exists exactly when the lower-cased name is in the table; it is 5 bytes starting 1E 01 and spells that name's entry |
| R2D2Protocol.DriveIndexMonotone | src/LittleBitsR2Controller.Core/Services/R2D2Protocol.cs:177-186 | more forward speed never selects a later (more backward) frame |
| R2D2Protocol.TurnIndexMonotone | src/LittleBitsR2Controller.Core/Services/R2D2Protocol.cs:194-203 | turning further right never selects an earlier frame |
| R2D2Protocol.DriveIndexMirror | src/LittleBitsR2Controller.Core/Services/R2D2Protocol.cs:177-186 | negating the speed mirrors the index about the stop index: i becomes 62 - i |
| R2D2Protocol.TurnIndexMirror | src/LittleBitsR2Controller.Core/Services/R2D2Protocol.cs:194-203 | negating the turn mirrors the index about the centre: i becomes 32 - i |
| R2D2Protocol.DriveIndexExamples | tests/LittleBitsR2Controller.Tests/Services/R2D2ProtocolTests.cs:23-90 | full forward gives 0, stop gives 31 and full backward gives 62; ±2 saturate; ±0.5 give 16 and 46; ±0.001 both give 31 |
| R2D2Protocol.TurnIndexExamples | tests/LittleBitsR2Controller.Tests/Services/R2D2ProtocolTests.cs:93-159 | full left gives 0 and full right gives 32; ±2 saturate; 0 gives 16, which is not TurnStraightIndex; ±0.5 give 24 and 8; ±0.001 both give 16 |
| R2D2Protocol.SoundCaseInsensitive | src/LittleBitsR2Controller.Core/Services/R2D2Protocol.cs:220-227 | upper-casing a sound name never changes the command |
| R2D2Protocol.BeepExample | tests/LittleBitsR2Controller.Tests/Services/R2D2ProtocolTests.cs:176-205 | "beep", "BEEP" and "BeEp" all give 1E 01 15 A3 64 |
| R2D2Protocol.ForeignCharacterNoSound | src/LittleBitsR2Controller.Core/Services/R2D2Protocol.cs:220-227 | a name containing a character that no table name uses after lower-casing gives no command |
| R2D2Protocol.NonAsciiNoSound | src/LittleBitsR2Controller.Core/Services/R2D2Protocol.cs:220-227 | a name containing a non-ASCII character other than the Kelvin sign gives no command |
| R2D2Protocol.KelvinExample | src/LittleBitsR2Controller.Core/Services/R2D2Protocol.cs:220-227 | "thin\u212Aing", spelled with the Kelvin sign, gives the "thinking" frame |
| R2D2Protocol.UnknownSounds | tests/LittleBitsR2Controller.Tests/Services/R2D2ProtocolEdgeCasesTests.cs:323-338 | "nonexistent_sound", "wow!", "scream!!" and "surprise!!" give no command: the last three, which this test expects in the table, are not table names |
| GameStates.NewState | src/Game2048.Core/GameState.cs:38-46 | a fresh state has size * size empty cells, score and move count zero, and neither flag set |
| GameStates.GetTile | src/Game2048.Core/GameState.cs:66-69 | reads a tile of the board; the only guard is the array bound, and on a well-shaped board a readable cell whose column is in range has its row in range |
| GameStates.SetTile | src/Game2048.Core/GameState.cs:74-77 | setting a tile keeps the size, score, count and flags, and keeps the board's length |
| GameStates.GetAfterSet | src/Game2048.Core/GameState.cs:66-77 | reading a cell after setting a cell gives the new value at that cell and the old value everywhere else |
| GameStates.RowMajorInRange | src/Game2048.Core/GameState.cs:66-77 | each in-range (row, col) addresses a cell of the board |
| GameStates.RowMajorInjective | src/Game2048.Core/GameState.cs:66-77 | distinct coordinates address distinct cells |
| GameStates.RowMajorSurjective | src/Game2048.Core/GameState.cs:66-77 | every cell is addressed by the coordinates (i / size, i % size) |
| GameStateDtos.FromGameState | src/Game2048.Core/GameStateDto.cs:46-57 | the record carries version 1 and copies all six fields of the state |
| GameStateDtos.ToGameState | src/Game2048.Core/GameStateDto.cs:62-72 | turning the result back into a record gives the input with version 1; the state is well-shaped exactly when the record's board has size * size cells |
| GameStateDtos.StateRoundTrip | src/Game2048.Core/GameStateDto.cs:46-72 | a state converted to a record and back is unchanged |
| GameStateDtos.VersionIgnored | src/Game2048.Core/GameStateDto.cs:11-72 | records that differ only in their version give the same state |
| Lines.NonZero | src/Game2048.Core/GameEngine.cs:241 | removing the empty cells keeps the total and never lengthens the line; a line without gaps is unchanged |
| Lines.NonZeroTiles | src/Game2048.Core/GameEngine.cs:241 | removing the empty cells keeps every tile as often as it occurs and drops only the empty cells |
| Lines.NonZeroAppend | src/Game2048.Core/GameEngine.cs:241 | the tiles of two lines joined are the tiles of the first followed by those of the second, so their order is kept |
| Lines.MergeTilesFacts | src/Game2048.Core/GameEngine.cs:243-261 | merging keeps the total; it shortens the tile list exactly when two adjacent tiles are equal, and otherwise scores nothing |
| Lines.MergeRun | src/Game2048.Core/GameEngine.cs:243-261 | k equal tiles x merge into k / 2 tiles 2x followed by k % 2 tiles x, scoring (k / 2) * 2x, before the next run is merged |
| Lines.MergeTilesByRuns | src/Game2048.Core/GameEngine.cs:243-261 | the left-to-right pairing loop equals the run-by-run reference definition |
| Lines.DiffersFrom | src/Game2048.Core/GameEngine.cs:263-271 | the scan reports a change exactly when some position from i on differs |
| Lines.ProcessLine | src/Game2048.Core/GameEngine.cs:233-274 | the new line has the old length; it is marked moved exactly when it differs from the old line; an unmoved line scores nothing |
| Lines.ProcessLineFacts | src/Game2048.Core/GameEngine.cs:233-274 | the total is kept; the new line is packed to the front; it is the run-merged tiles padded with zeros; the score is the run-merged score; the line moves exactly when it is not already settled |
| Lines.SettledIffUnchanged | src/Game2048.Core/GameEngine.cs:233-274 | processing leaves a line as it is exactly when its tiles are packed and no two neighbours are equal |
| Lines.ThreeEqualExample | tests/Game2048.Core.Tests/GameEngineTests.cs:25-46 | 2 2 2 _ becomes 4 2 _ _ and scores 4 |
| Lines.FourEqualExample | tests/Game2048.Core.Tests/GameEngineTests.cs:49-70 | 2 2 2 2 becomes 4 4 _ _ and scores 8 |
| Lines.SettledExample | tests/Game2048.Core.Tests/GameEngineTests.cs:73-97 | 2 _ _ _ is left as it is, unmoved and scoring nothing |
| Lines.PairExample | tests/Game2048.Core.Tests/GameEngineTests.cs:193-210 | 1024 1024 _ _ becomes 2048 _ _ _ and scores 2048 |
| BoardGeometry.CellInRange | src/Game2048.Core/GameEngine.cs:125-227 | each position of each line in each direction is a board cell, and that cell's line and position lead back to it |
| BoardGeometry.CellOfPosition | src/Game2048.Core/GameEngine.cs:125-227 | every board cell lies on exactly one line of each direction |
| BoardGeometry.ExtractLine | src/Game2048.Core/GameEngine.cs:339-365 | line l in direction d lists the board's cells in the order that direction reads them |
| BoardGeometry.WriteLine | src/Game2048.Core/GameEngine.cs:349-373 | writing a line puts its values on that line and leaves every other line as it was |
| BoardGeometry.GetRow | src/Game2048.Core/GameEngine.cs:339-347 | row r is the n consecutive cells starting at r * n |
| BoardGeometry.GetColumn | src/Game2048.Core/GameEngine.cs:357-365 | entry r of column c is entry c of row r |
| BoardGeometry.SetRow | src/Game2048.Core/GameEngine.cs:349-355 | the written row reads back as the values, and every other row is unchanged |
| BoardGeometry.SetColumn | src/Game2048.Core/GameEngine.cs:367-373 | the written column reads back as the values, and every other column is unchanged |
| BoardGeometry.ReadLinesAsRowsAndColumns | src/Game2048.Core/GameEngine.cs:125-227 | Left reads a row, Right the reversed row, Up a column and Down the reversed column |
| BoardGeometry.WriteLinesAsRowsAndColumns | src/Game2048.Core/GameEngine.cs:125-227 | writing back in each direction is SetRow or SetColumn, of the line itself or of its reverse |
| BoardMoves.SweepLines | src/Game2048.Core/GameEngine.cs:125-148 | after k lines, those lines hold their processed form and the others are untouched; the sweep moved exactly when some line moved; the gain is the sum of the line scores |
| BoardMoves.MoveBoard | src/Game2048.Core/GameEngine.cs:125-227 | every line ends up as its processed form; the board moved exactly when some line moved; the gain is the sum of the line scores; an unmoved board is unchanged |
| BoardMoves.MovedIffChanged | src/Game2048.Core/GameEngine.cs:125-227 | a move reports movement exactly when the board changed |
| BoardMoves.MoveState | src/Game2048.Core/GameEngine.cs:125-227 | the state stays well-shaped; only board and score change; the score grows by the line scores only when the board changed |
| BoardMoves.IsGameOverCondition | src/Game2048.Core/GameEngine.cs:310-337 | the scan answers true exactly when the board is full and no tile equals its right or lower neighbour |
| BoardMoves.HasTileWithValue | src/Game2048.Core/GameEngine.cs:300-308 | the scan answers true exactly when some tile is at least the value |
| BoardMoves.GameOverStuck | src/Game2048.Core/GameEngine.cs:310-337 | on a finished board no direction moves anything |
| BoardMoves.StuckGameOver | src/Game2048.Core/GameEngine.cs:310-337 | a full board on which neither Left nor Up moves anything is finished |
| BoardMoves.GameOverIffStuck | src/Game2048.Core/GameEngine.cs:310-337 | the end-of-game test holds exactly when the board is full and no direction moves anything |
| History.ToList | src/Game2048.Core/GameEngine.cs:80 | the list holds the stack's entries from the top down |
| History.PushAll | src/Game2048.Core/GameEngine.cs:82-84 | pushing items one by one appends them in order, the last on top |
| History.Evict | src/Game2048.Core/GameEngine.cs:77-85 | listing the stack, dropping the list's first entry and pushing the rest back in reverse leaves the stack minus its top |
| History.BoundedPush | src/Game2048.Core/GameEngine.cs:77-86 | the pushed state is on top; the history never grows past 50; below 50 nothing is lost; at 50 the previous top is what is lost |
| Spawn.EmptyFrom | src/Game2048.Core/GameEngine.cs:278-290 | lists exactly the empty cells, in increasing (row-major) order; empties plus tiles make up the board |
| Spawn.SpawnTile | src/Game2048.Core/GameEngine.cs:276-298 | a full board is untouched; otherwise only the drawn empty cell changes, to 2 or 4, and the tile count grows by one |
| Spawn.SpawnReachesEveryCell | src/Game2048.Core/GameEngine.cs:292-297 | every empty cell, with either value, is the outcome of some draw |
| GameEngine.InitialState | src/Game2048.Core/GameEngine.cs:39-44 | a well-shaped fresh state of the configured size, with score, count and flags clear, holding two tiles (fewer on a board of fewer than two cells), each a 2 or a 4 |
| GameEngine.AfterShift | src/Game2048.Core/GameEngine.cs:91-111 | counts one move, spawns onto the shifted board, keeps the score, and sets the win and game-over flags by testing the board after the spawn; neither flag is lowered |
| GameEngine.NewEngine | src/Game2048.Core/GameEngine.cs:20-44 | no history; a fresh state of the configured size with score, count and flags clear, holding two tiles (fewer on a board of fewer than two cells), each a 2 or a 4 |
| GameEngine.NewGame | src/Game2048.Core/GameEngine.cs:31-37 | starting over gives exactly the engine a fresh construction with the same configuration and draws gives |
| GameEngine.Move | src/Game2048.Core/GameEngine.cs:50-123 | a finished game ignores the move; moved means the board changed; an unmoved move changes nothing but may set the game-over flag; a moved move pushes the prior state onto the bounded undo history, clears redo, counts one move, spawns onto the shifted board, sets the win flag when the win tile is present, and sets game over on a win without play after a win or when no move remains; a win is never lost |
| GameEngine.Undo | src/Game2048.Core/GameEngine.cs:378-398 | fails without change on an empty undo history; otherwise the top undo state becomes current and the current state goes on the bounded redo history |
| GameEngine.Redo | src/Game2048.Core/GameEngine.cs:403-422 | the mirror image of Undo |
| GameEngine.LoadState | src/Game2048.Core/GameEngine.cs:427-435 | both histories are cleared, and the current state converts back to the loaded record, with version 1 |
| GameEngine.SaveState | src/Game2048.Core/GameEngine.cs:440-443 | the record has version 1 and converts back to the current state |
| GameEngine.MovePreservesWellFormed | src/Game2048.Core/GameEngine.cs:50-123 | moves keep every held state well-shaped and both histories within 50 |
| GameEngine.UndoPreservesWellFormed | src/Game2048.Core/GameEngine.cs:378-398 | the same for Undo |
| GameEngine.RedoPreservesWellFormed | src/Game2048.Core/GameEngine.cs:403-422 | the same for Redo |
| GameEngine.UndoAfterMove | src/Game2048.Core/GameEngine.cs:50-123 | undo right after a move restores the state before it, and leaves the moved state as the only redo entry |
| GameEngine.RedoAfterUndo | src/Game2048.Core/GameEngine.cs:378-422 | redo after undo gives back the original engine while the redo history is below 50 |
| GameEngine.RedoAfterUndoAtCap | src/Game2048.Core/GameEngine.cs:378-422 | with a full redo history, undo then redo returns to the same state but loses the most recent redo entry |
| GameEngine.UndoAfterRedo | src/Game2048.Core/GameEngine.cs:378-422 | undo after redo gives back the original engine while the undo history is below 50 |
| GameEngine.LoadThenSave | src/Game2048.Core/GameEngine.cs:427-443 | saving right after loading reproduces the record, with version 1 |
| GameEngine.SaveThenLoad | src/Game2048.Core/GameEngine.cs:427-443 | loading what was just saved restores the current state and clears the histories |
| GameEngine.OverMeansStuck | src/Game2048.Core/GameEngine.cs:50-123 | when play may continue after a win, a move that ends the game leaves a board on which no direction moves |
| GameEngine.WinDetected | src/Game2048.Core/GameEngine.cs:95-107 | a move whose shift produces a tile of at least the win value wins whatever spawns; without play after a win it also ends the game |
| GameEngine.GameOverExample | tests/Game2048.Core.Tests/GameEngineTests.cs:237-257 | on the 2 by 2 board 2 4 / 4 2, a move left changes nothing and ends the game |
| GameEngine.WinExample | tests/Game2048.Core.Tests/GameEngineTests.cs:193-234 | two 1024 tiles merged left win the game, and end it when play after a win is disallowed |

## Left out

- Asynchrony: `LoadStateAsync` and `SaveStateAsync` run their bodies on a task; the model runs them synchronously.
- Random source: `IRandomSource`, `SeededRandomSource` and `SystemRandomSource` are not part of this model. Each spawn's draws are parameters, so the 90/10 split between 2 and 4 is not modelled.
- Spawn.SpawnTile: reduces `pick` modulo the number of empty cells. For every value `Next(count)` can return, this is the identity. It also requires a well-shaped state, since only there is the flat order of the cells the source's row-major (row, col) order.
- Integer width: tile values, scores, move counts and the board size are unbounded integers. The source's 32-bit `int` could wrap on a merge or a score past 2^31. It also wraps `size * size` from size 46341 on, and the board allocation or a later cell access then throws.
- Floating point: drive and turn inputs are reals. NaN and infinities, `double` rounding of `(1 - speed) * 31`, and the `(int)` cast of out-of-range values are not modelled.
- Null: a null sound name, which throws in the source, has no counterpart in the model.
- Ascii.ToLower: maps the ASCII capitals and the Kelvin sign, which lower-cases to 'k'. `ToLowerInvariant` also lower-cases other non-ASCII letters, to non-ASCII letters, which the model keeps as they are. Every table name is ASCII, so either way such a name gives no command (R2D2Protocol.NonAsciiNoSound).
- Hex.HexStringToBytes: returns a `Result` where the source throws on odd length or on a pair `Convert.ToByte` refuses. The different exception types are not distinguished.
- GameEngine.Move: requires a well-shaped current state, with a non-negative size and exactly size * size cells. A loaded record with a shorter board makes the source index out of bounds. With a longer board, the source moves and spawns on the first size * size cells only, while its win and end-of-game scans also read the extra cells.
- GameEngine.NewEngine: requires a non-negative size. For a negative size, `new int[size * size]` still allocates size² cells, but the source's row and column loops never visit them. No tile spawns, no move moves, and the game never ends, because the empty cells keep the end test false. The model enumerates cells by flat position, so it would place tiles there.
- GameEngine.NewGame: requires a non-negative size, for the same reason as GameEngine.NewEngine.
- GameEngine.InitialState: requires a non-negative size, for the same reason as GameEngine.NewEngine.
- GameState Clone: this is the identity under value semantics. The source never shares a state between the current slot and the histories, so no aliasing is lost.
- The Bluetooth service, UUID use, view models, views, converters and app startup are not part of this model. These are the BLE and UI layers.

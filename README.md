# SquaresGame in Dafny

A model of the game engine of SquaresGame, a text-driven game. Two players place White and Black tokens in turn on an N × N board, with 3 ≤ N ≤ 20. A player is a human (`user`) or an automated player (`comp`). A player wins by owning the four corners of a square.

The model has four modules:

- `Wrappers` (wrappers.dfy): `Option`.
- `JavaLang` (java_lang.dfy): the two library calls the command handlers rely on, written as functions.
  - `ParseInt` is Integer.parseInt for a 32-bit int. `None` stands for NumberFormatException.
  - `Split` is String.split(" ") with its default limit, so trailing empty fields are dropped.
- `Board` (board.dfy): the board as a value, a `Grid` of rows of `Cell`s, and the specifications of the engine's queries:
  - the occupied-cell count that decides whose turn it is;
  - the full-board test;
  - the first empty cell in row-major order;
  - `Detected`, the square test exactly as `checkSquare` applies it;
  - `HasSquare` and `HasTiltedSquare`, squares defined by their geometry, to judge `Detected` by;
  - a quarter turn of the board.
- `Game` (game.dfy): the class `SquaresGame`.
  - Its fields are `size`, `board` (an `array2?`, null before the first game), `player1`, `player2` and `gameStarted`. Its methods update them in place as the Java methods do.
  - Each printed message becomes part of a returned reply: `GameReply`, `MoveReply`, `Verdict`.
  - `Cells()` is the board's contents as a `Grid`. The methods are specified through it.
  - `StartGame` and `PlayTurn` are the accepted-command tails of `processGameCommand` and `processMoveCommand`, written as methods of their own.
- `Scenarios` (scenarios.dfy): command sequences applied to a fresh game, with the replies and state their contracts state.

The rule stated above, that any square wins, is not what `checkSquare` does; the model follows the code, here and in two other places:

- **Only tilted squares win.** `checkSquare` only pairs a cell with cells that are strictly greater in both row and column. So it never takes a horizontal or vertical side, and never reports a square whose sides are parallel to the board's edges.
  - `Board.DetectedIffTilted` proves the detector reports exactly the tilted squares.
  - `Board.AxisAlignedMissed` proves an axis-aligned square (a 2 × 2 block, say) is missed.
  - A 2 × 2 block of one colour therefore does not win; the model keeps the detector as written.
- **A rejected GAME can still change `size`.** `processGameCommand` assigns `size` as soon as the first argument parses, before the range and player checks. A rejected GAME during a game therefore leaves the old board with a new `size`. A larger `size` stops `isValidPosition` from guarding the board's index, and a MOVE beyond the board gets `IndexOutOfBounds`. A smaller `size` confines the turn count, the full-board test, the square detector and the automated player to the size × size corner of the board.
  - `Consistent()` states the invariant this breaks: the board's side equals `size`.
  - `Scenarios.SizeOverwrittenOnRejection` shows the larger case, and `Scenarios.OuterTokenNotCounted` the smaller one.
- **An out-of-range index ends the program.** Java throws an uncaught ArrayIndexOutOfBoundsException in `isCellEmpty` or `getCurrentPlayerColor`. The model returns the reply `IndexOutOfBounds` at that point, with nothing changed.

## Model

| member | source | states |
|---|---|---|
| `JavaLang.ParseInt` | src/main/java/SquaresGame.java:229-230 | A parsed value fits a Java int, and the text contains a digit; `None` is the NumberFormatException the handlers catch |
| `JavaLang.ParseShow` | src/main/java/SquaresGame.java:170 | Every Java int parses back from its decimal text, with a leading `-` when negative |
| `JavaLang.Split` | src/main/java/SquaresGame.java:176-177 | No field contains a space; a string without a space comes back whole; otherwise the result is empty or its last field is not empty |
| `JavaLang.JoinFields` | src/main/java/SquaresGame.java:176-177 | Joining the space-separated fields with single spaces gives the string back |
| `JavaLang.SplitPair` | src/main/java/SquaresGame.java:176-179 | A kind and a non-empty colour, each without spaces, joined by a space split back into exactly those two fields |
| `Board.EmptyGrid` | src/main/java/SquaresGame.java:47-54 | The fresh board is n rows of n cells, every cell Empty |
| `Board.Place` | src/main/java/SquaresGame.java:135 | Writing a cell keeps the shape, changes that one cell, and leaves every other cell as it was |
| `Board.CountAfterPlace` | src/main/java/SquaresGame.java:73-81 | Writing a token on an Empty cell of the region raises the occupied count by exactly one, so the count's parity flips |
| `Board.CountEmptyGrid` | src/main/java/SquaresGame.java:47-54 | A fresh board has no occupied cell, so player 1 moves first |
| `Board.DetectedIffTilted` | src/main/java/SquaresGame.java:83-123 | The detector reports a square for a colour exactly when four cells of that colour form a square whose sides are not parallel to the board's edges |
| `Board.AxisAlignedMissed` | src/main/java/SquaresGame.java:90-92 | When a colour's only cells are the corners of an axis-aligned square of any side, there is a square but the detector reports none |
| `Board.DetectedOnThree` | src/main/java/SquaresGame.java:83-123 | On a 3 × 3 board the detector reports a colour exactly when it holds the diamond (0,1), (1,0), (1,2), (2,1) |
| `Board.OneTokenNoSquare` | src/main/java/SquaresGame.java:83-123 | A board with a single token reports no square |
| `Board.RotationInvariant` | src/main/java/SquaresGame.java:83-123 | Turning the board a quarter turn does not change what the detector reports |
| `Game.ColorCell` | src/main/java/SquaresGame.java:84 | The letter W gives a White cell, and every other letter a Black one; never Empty |
| `Game.TurnAddsTokens` | src/main/java/SquaresGame.java:242-249 | An accepted MOVE adds one token, or two when the automated player answers. After a lone token the other player moves next; after an answer it is the human's colour again |
| `Game.SquaresGame.constructor` | src/main/java/SquaresGame.java:26-29 | A new game has no board and no players and is not started |
| `Game.SquaresGame.IsValidPosition` | src/main/java/SquaresGame.java:39-41 | True exactly when 0 ≤ x < size and 0 ≤ y < size; it keeps the index on the board whenever the board's side is at least size |
| `Game.SquaresGame.IsCellEmpty` | src/main/java/SquaresGame.java:43-45 | True exactly when the cell is Empty |
| `Game.SquaresGame.InitializeBoard` | src/main/java/SquaresGame.java:47-54 | A fresh size × size board with every cell Empty; size, the players and the started flag are unchanged |
| `Game.SquaresGame.GetCurrentPlayerColor` | src/main/java/SquaresGame.java:73-81 | Player 1's colour when the count of occupied cells in the size × size region is even, player 2's when it is odd |
| `Game.SquaresGame.PairMakesSquare` | src/main/java/SquaresGame.java:92-117 | One step of the pair scan succeeds exactly when the pair passes the detector's test |
| `Game.SquaresGame.CornersHold` | src/main/java/SquaresGame.java:103-104 | Both candidate corners are valid positions and hold the colour |
| `Game.SquaresGame.CheckSquare` | src/main/java/SquaresGame.java:83-123 | Changes nothing, and returns true exactly when some pair passes the detector's test (`Detected`), which holds exactly for tilted squares |
| `Game.SquaresGame.IsBoardFull` | src/main/java/SquaresGame.java:125-132 | True exactly when no cell of the size × size region is Empty |
| `Game.SquaresGame.MakeMove` | src/main/java/SquaresGame.java:134-149 | Writes only (x, y): White for W, Black otherwise. The verdict is a win if the colour now has a square, else a draw if the board is full, else play on; the game stops exactly on a win or a draw |
| `Game.SquaresGame.ComputerMove` | src/main/java/SquaresGame.java:151-161 | On a full region, changes nothing. Otherwise places its colour on the first Empty cell in row-major order, changes no other cell, and is judged as MakeMove judges |
| `Game.SquaresGame.StartGame` | src/main/java/SquaresGame.java:200-210 | Installs the players and a fresh empty board, with the board's side equal to size, and starts the game. An automated player 1 opens at (0, 0) and the game goes on |
| `Game.SquaresGame.ProcessGameCommand` | src/main/java/SquaresGame.java:163-215 | Each refusal in the source's order, with its reason. On a refusal the board, players and started flag are unchanged, but size is overwritten whenever the first argument parses. On success: started, distinct W/B colours, a fresh empty board or one holding the automated opening |
| `Game.SquaresGame.PlayTurn` | src/main/java/SquaresGame.java:242-249 | The parity colour goes on (x, y) and is judged. The automated answer comes exactly when the game goes on and the other player is automated, on the first Empty cell, in the colour whose turn it then is |
| `Game.SquaresGame.ProcessMoveCommand` | src/main/java/SquaresGame.java:217-254 | Each refusal in the source's order, with the board and started flag unchanged. A position valid for size but off the board is `IndexOutOfBounds`. Otherwise the move is played as PlayTurn states |
| `Scenarios.NewGameOfThree` | src/main/java/SquaresGame.java:163-210 | GAME 3, user W, user B starts a game between two human players, W first, on an empty 3 × 3 board whose side equals size |
| `Scenarios.BadColorOverFive` | src/main/java/SquaresGame.java:170-193 | GAME 5 with colour X is refused for its colour, yet size becomes 5 and the board stays |
| `Scenarios.SizeOverwrittenOnRejection` | src/main/java/SquaresGame.java:170 | After that refused GAME, size is 5 on a 3 × 3 board of a started game, and MOVE 4, 4 indexes outside the board |
| `Scenarios.CompOpensOnThree` | src/main/java/SquaresGame.java:207-210 | GAME 3, comp W, user B opens with W at (0, 0) |
| `Scenarios.AnswerToCentre` | src/main/java/SquaresGame.java:242-249 | After that opening, a human move to (1, 1) is Black's, and White answers at (0, 1), with the game going on |
| `Scenarios.AutomatedOpening` | src/main/java/SquaresGame.java:237-249 | A MOVE onto the opening cell is refused as not empty; MOVE 1, 1 is answered at once |
| `Scenarios.OuterTokenNotCounted` | src/main/java/SquaresGame.java:73-81 | With size 3 on a 5 × 5 board, a White token at (4, 4) lies outside the counted corner, so player 1 is still to move |

## Left out

- `run`, `main`, `printHelp` and `printBoard` are not modelled. Neither are the standard input they read through Scanner, the command-word upper-casing, or the regular-expression splits of a line into a command and its arguments. The handlers take the already-split argument lists.
- Printed text is not modelled. Each message becomes a constructor of the returned reply.
- `IndexOutOfBounds` is modelled as a reply with nothing changed. In Java the exception ends the program; the model does not stop later commands.
- `JavaLang.ParseInt` reads ASCII digits only. Integer.parseInt also accepts digits of other Unicode scripts, which no command here relies on.
- `Game.SquaresGame.GetCurrentPlayerColor`: requires the size × size scan to stay on the board. Without that, Java throws. The one caller that can reach that case, `ProcessMoveCommand`, checks the board first and answers `IndexOutOfBounds`.
- build.gradle.kts is not part of this model: it only builds the program.

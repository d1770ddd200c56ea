# Lights Out engine

A model of the game logic of the Lights Out Android app: the
`LightsOutGame` class, which owns a 3×3 grid of lights, all on at the
start. A move flips one light and its up, down, left and right neighbours
that lie on the grid. The game is won when every light is off. The whole
board can be read and written as a 9-character string, row by row, with
`'T'` for on and `'F'` for off.

The project has two modules.

- `Board` (board.dfy) holds the rules on values. A board is the row-major
  `seq<bool>` of its cells, and cell `(row, col)` sits at `row * 3 + col`.
  It defines the move `Select`, the win test `Solved`, and the text
  encoding `Encode` and `Decode`. It proves the properties of these
  functions: the move is an involution, moves commute, a move flips
  exactly its neighbourhood with no wrap-around between rows, the number of
  flipped cells is 3, 4 or 5, and the encoding round-trips in both
  directions.
- `Game` (game.dfy) holds the class `LightsOutGame`. Its lights are a
  `const grid: array2<bool>` that the methods change in place with the
  source's nested loops and cell assignments. The ghost function `Cells()`
  reads the grid row by row. Every method is proved against the `Board`
  functions applied to `Cells()`.

The random source of `newGame` is a parameter: a sequence `draws` of
booleans, of which the first nine are used, one per cell in row-major
order.

## Model

| member | source | states |
|---|---|---|
| `Game.LightsOutGame.constructor` | app/src/main/java/edu/lukina/lightsout/LightsOutGame.kt:17 | a new game is a 3×3 grid with every light on |
| `Board.AllOnEncoding` | app/src/main/java/edu/lukina/lightsout/LightsOutGame.kt:17 | the all-on starting board reads as "TTTTTTTTT" |
| `Game.LightsOutGame.GetState` | app/src/main/java/edu/lukina/lightsout/LightsOutGame.kt:22-37 | the `state` getter returns the row-major encoding of the grid and changes nothing |
| `Board.Encode` | app/src/main/java/edu/lukina/lightsout/LightsOutGame.kt:22-37 | the encoding has one character per cell, and character i is 'T' if cell i is on and 'F' otherwise |
| `Board.EncodeIsEncoding` | app/src/main/java/edu/lukina/lightsout/LightsOutGame.kt:22-37 | every board encodes to exactly 9 characters over {'T','F'} |
| `Game.LightsOutGame.SetState` | app/src/main/java/edu/lukina/lightsout/LightsOutGame.kt:39-53 | the `state` setter needs at least 9 characters and makes the grid the decoding of the string |
| `Board.DecodeCells` | app/src/main/java/edu/lukina/lightsout/LightsOutGame.kt:48 | each character decodes to on exactly when it is 'T'; any other character means off |
| `Board.Decode` | app/src/main/java/edu/lukina/lightsout/LightsOutGame.kt:39-53 | cell (row, col) is on if and only if character row*3+col is 'T' |
| `Board.DecodeIgnoresTail` | app/src/main/java/edu/lukina/lightsout/LightsOutGame.kt:39-53 | characters after index 8 do not affect the decoded board |
| `Board.DecodeEncode` | app/src/main/java/edu/lukina/lightsout/LightsOutGame.kt:22-53 | setting the state to the getter's output gives back the same board |
| `Board.EncodeDecode` | app/src/main/java/edu/lukina/lightsout/LightsOutGame.kt:22-53 | reading back a 9-character string over {'T','F'} after setting it returns that string |
| `Game.SaveAndRestore` | app/src/main/java/edu/lukina/lightsout/LightsOutGame.kt:20-53 | reading the state and writing it back leaves every light as it was; the saved string is well formed |
| `Game.LightsOutGame.NewGame` | app/src/main/java/edu/lukina/lightsout/LightsOutGame.kt:56-69 | every cell is overwritten by the next random draw, in row-major order |
| `Game.LightsOutGame.IsLightOn` | app/src/main/java/edu/lukina/lightsout/LightsOutGame.kt:72-75 | for an in-grid cell, returns whether that light is on and changes nothing |
| `Game.LightsOutGame.ToggleCell` | app/src/main/java/edu/lukina/lightsout/LightsOutGame.kt:80 | flips the one cell and leaves the others unchanged |
| `Game.LightsOutGame.SelectLight` | app/src/main/java/edu/lukina/lightsout/LightsOutGame.kt:78-101 | the grid after the move is `Select` of the grid before it |
| `Board.Select` | app/src/main/java/edu/lukina/lightsout/LightsOutGame.kt:78-101 | a move flips exactly the in-grid cells at Manhattan distance at most 1 from (row, col), with no wrap-around, and leaves every other cell unchanged |
| `Board.SelectInvolution` | app/src/main/java/edu/lukina/lightsout/LightsOutGame.kt:78-101 | selecting the same cell twice restores the board exactly |
| `Board.SelectCommutes` | app/src/main/java/edu/lukina/lightsout/LightsOutGame.kt:78-101 | two moves give the same board in either order |
| `Board.ChangedIsAffected` | app/src/main/java/edu/lukina/lightsout/LightsOutGame.kt:78-101 | the number of cells a move changes equals the number of cells in its neighbourhood |
| `Board.SelectFlipCount` | app/src/main/java/edu/lukina/lightsout/LightsOutGame.kt:78-101 | a move changes 3 cells at a corner, 4 on an edge and 5 in the centre |
| `Board.CentreMoveFromAllOn` | app/src/main/java/edu/lukina/lightsout/LightsOutGame.kt:78-101 | from all on, selecting (1,1) gives "TFTFFFTFT", and selecting it again gives "TTTTTTTTT" |
| `Game.LightsOutGame.IsGameOver` | app/src/main/java/edu/lukina/lightsout/LightsOutGame.kt:104-120 | true if and only if every light is off; changes nothing |
| `Board.SolvedIffAllOff` | app/src/main/java/edu/lukina/lightsout/LightsOutGame.kt:104-120 | a board is solved exactly when it is the all-off board |
| `Board.SelectUnsolves` | app/src/main/java/edu/lukina/lightsout/LightsOutGame.kt:78-120 | a move made on a solved board always leaves the game not over |
| `Game.LightsOutGame.TurnLightsOff` | app/src/main/java/edu/lukina/lightsout/LightsOutGame.kt:123-137 | afterwards every light is off, whatever the grid was, so a second call changes nothing |
| `Board.AllOffEncoding` | app/src/main/java/edu/lukina/lightsout/LightsOutGame.kt:123-137 | the all-off board reads as "FFFFFFFFF" |
| `Game.TurnOffScenario` | app/src/main/java/edu/lukina/lightsout/LightsOutGame.kt:123-137 | after turning the lights off the game is over and the state reads "FFFFFFFFF" |

## Left out

- `Random.nextBoolean()` in `newGame` is a call into the platform's random
  number generator. It is a parameter here, a sequence of draws, so the
  model states no distribution; it shows only that every cell is
  overwritten in row-major order.
- Game.LightsOutGame.SetState: a string shorter than 9 characters is
  excluded by a precondition. The source would write the first cells and
  then fail with an index error, leaving the grid partly updated; that
  path is not modelled.
- Decode validation: the source does not check the length or the
  characters of the string it is given. The model follows the code, so a
  longer string is accepted and any `char` other than 'T' means off.
  A rejection of malformed strings, which a cleaner design might add, is
  not modelled because the code has none.
- Strings: a Kotlin `String` is indexed and measured in UTF-16 code
  units, and a Dafny `char` here stands for one such code unit. A string
  holding characters outside the Basic Multilingual Plane (surrogate
  pairs) or unpaired surrogates is not represented faithfully: in the
  source each half of a pair is one position and decodes as off, while a
  Dafny `string` counts the whole character as one position. The state
  strings the app itself produces are plain ASCII, so this does not arise
  in the save-and-restore path.
- Out-of-range coordinates passed to `isLightOn` or `selectLight` make the
  source fail with an index error. The model excludes them by a
  precondition.
- The grid size is fixed at 3, as `GRID_SIZE` is. The definitions are
  written in terms of `GridSize`, but the flip-count lemma
  (`SelectFlipCount`) is proved by going through the nine cells of the 3×3
  grid, and the literal strings of the encoding lemmas are 9 characters.
- `MainActivity.kt`, `ColorActivity.kt` and `HelpActivity.kt` are Android
  user-interface code: activity lifecycle, button colours, toasts, intents
  and window insets. They are not part of this model, beyond the
  save-and-restore use of `state` that `Game.SaveAndRestore` captures.
- Kotlin's `Int` is 32-bit, but every index here is below 9, so no
  overflow can occur and integers are unbounded in the model.

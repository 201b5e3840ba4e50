# Battleship game state in Dafny

This project models the board and game state of a two-player Battleship server written in Go.
A **ship** has a one-letter name, the points it covers and a hit counter. It is destroyed when
it has been hit exactly as often as it has parts. A **cell** has coordinates, an optional
reference to the ship on it and a hit flag. A **player** owns a fixed array of ships. A
**game** owns one 10×10 grid per player, the two players and `turn`, the player about to move.
A move strikes the grid of the other player, the defender. The game is over when the defender
has lost every ship. Each player sees their own board revealed, a dashed line, and the
opponent's board masked.

Modules and files:

- `wrappers.dfy`: `Wrappers.Option`, which stands for a nullable Go pointer.
- `cell.dfy`: `Points` (the `Point` type) and `Cells`, from `Cell.go`.
- `ship.dfy`: `Ships`, from `Ship.go`.
- `player.dfy`: `Players`, from `Player.go`. It also holds `gridSize` and `playerNum`.
- `display.dfy`: `Display`, the text layout built by `getPlayerDisplay` and `getDisplay` in
  `Game.go`, as pure functions over state characters.
- `game.dfy`: `Games`, from `Game.go`. The `Game` class and the split `NewGame`.
- `battleship.dfy`: `Battleship`, from `Battleship.go`. Its own one-ship fleet (`NewPlayer`),
  the `NewGame` that links ships into cells, and the game-state step of the session loop.

How Go's data is represented:

- Go keeps `Ship` and `Cell` values inside fixed arrays, so both are Dafny datatypes.
- A pointer-receiver method that changes a ship is a function that returns the updated ship.
  The owning array slot is then assigned the result. This is in-place update of an array
  element, as in Go.
- A cell's `*Ship` pointer becomes `Option<nat>`: the index of the ship in the ship array of
  the player who owns the grid.
- `Cells.Hit` takes that array and strikes the referenced ship through the index.
- `Player` is a class with `const ships: array<Ship>`, the Go array `[shipNum]Ship`.
- `Game` is a class with `var turn`, `const grids: array3<Cell>` (the Go array
  `[playerNum][gridSize][gridSize]Cell`) and `const players: array<Player>`.
- Go's zero values (`Ship{}`, `Cell{}`, `Player{}`, `var game Game`) are `Ships.Unnamed`,
  `Cells.Blank`, `Player.Zero` and `Game.Zero`.

Facts about the code that the model keeps:

- `Battleship.go` sets `shipNum` to 1 (Battleship.go:90), while `Ship.go` sets it to 5
  (Ship.go:5). So `Player` and `Game` take the number of ships as a parameter:
  `Games.NewGame` uses 5 and `Battleship.NewGame` uses 1. Both `NewPlayer` and the scenario
  where two strikes sink the fleet rely on the single ship.
- `hit` increments `timesHit` without a bound (Ship.go:27-29) and `IsDestroyed` compares it
  with `len(parts)` for equality (Ship.go:23-25). One hit too many makes a ship count as intact
  again (`Ships.DestroyedExactlyAfterAllHits`).
- `Battleship.go`'s `NewGame` gives every ship two parts, so that game is not over at start.
  The split `NewGame` (Game.go:54-67) creates ships with no parts, which count as destroyed, so
  `isOver` is true at once (`Games.NewGameIsAlreadyOver`).
- `changeTurn` computes `(turn + 1) % playerNum` (Game.go:29-31), so two calls restore the turn
  (`Games.NextTurnTwice`).
- The code has no placement phase. `NewPlayer` (Battleship.go:97-106) places the fleet of the
  game that is played. `initShip` (Player.go:8-22, `Players.Player.InitShip`) also places a
  ship, but nothing in these files calls it.
- After a move the players receive the two displays (Battleship.go:239-244), then either the
  result from `endGame` (Battleship.go:246-247, 262-272) or the turn messages of the next pass
  (Battleship.go:225-232). No message names the struck cell.
- The split `NewGame` never links ships into cells (Game.go:54-67). Only `Battleship.NewGame`
  does (Battleship.go:182-188).

Indices that Go would reject at run time with a panic are preconditions: grid coordinates, ship
`index < len(ships)`, `turn` in {0, 1} and player ids. `Play` takes the players' moves as a
sequence, in place of reading them from the connections, and requires them on the board.

The session loop is also stated on values: `Games.Position` holds the turn, both boards and
both fleets, and `Game.State()` reads it off a valid game. `Games.Strike` is `Game.hit` on a
position and `Battleship.Move` is one pass of the loop; `Battleship.Run` is the whole loop.
`Strike` is total: when the coordinates are off the board or the struck cell refers to no ship
of the fleet, it leaves the position unchanged. `Move` requires a turn in {0, 1} and a move on
the board. A valid game on the board never
reaches that case; Go would panic there.

## Model

| member | source | states |
|---|---|---|
| `Ships.AppendPoint` | Ship.go:15-17 | the old parts remain a prefix and the given points follow in order; name and hit count are unchanged |
| `Ships.SetName` | Ship.go:31-33 | only the name changes, to the given rune |
| `Ships.SetNameThenGetName` | Ship.go:19-21 | `getName` after `setName(n)` returns `n`; parts and hit count are untouched |
| `Ships.Hit` | Ship.go:27-29 | the hit count rises by exactly one; name and parts are unchanged |
| `Ships.HitTimes` | Ship.go:27-29 | after k hits the count has risen by k, with name and parts unchanged |
| `Ships.EmptyShipIsDestroyed` | Ship.go:23-25 | a ship with no parts and no hits, the zero ship included, is destroyed |
| `Ships.DestroyedExactlyAfterAllHits` | Ship.go:23-29 | from zero hits, a ship is destroyed after exactly `len(parts)` hits and only then; one hit more makes it not destroyed |
| `Cells.Struck` | Cell.go:20-25 | after `hit` the cell is hit, with the same coordinates and the same ship reference |
| `Cells.Damaged` | Cell.go:20-25 | striking an occupied cell adds one hit to its ship and changes no other ship; striking an empty cell changes no ship |
| `Cells.Hit` | Cell.go:20-25 | the cell becomes `Struck(c)` and the ship array becomes `Damaged(c, old ships)` |
| `Cells.ToLower` | Cell.go:36 | ASCII upper-case letters map to their lower-case letter, every other rune is kept; the result is never upper case |
| `Cells.GetState` | Cell.go:33-48 | a hit cell shows its ship's name lower-cased, or 'X' if empty, whatever `hidden` is; an unhit cell is '.' when hidden, else its ship's name, or '.' if empty |
| `Cells.HiddenStateIsMasked` | Cell.go:33-48 | a hidden cell never shows an upper-case letter other than 'X' |
| `Cells.StrikingTwiceDamagesTwice` | Cell.go:20-25 | hitting the same occupied cell twice raises its ship's count by two; `hit` is not idempotent |
| `Cells.MissLeavesFleet` | Cell.go:20-25 | a strike on an empty cell changes no ship, and the cell then shows 'X' |
| `Players.Run` | Player.go:10-20 | a placement covers exactly `shipSize` points |
| `Players.RunIsContiguous` | Player.go:10-20 | point j is (x, y+j) when `dir == "horizontal"`, and (x+j, y) for any other direction |
| `Players.Player.Zero` | Player.go:3-5 | the zero player `Player{}`: its ships are all the zero ship |
| `Players.Player.InitShip` | Player.go:8-22 | ship `index` is named 'A'+index and gets the run appended, so it grows by `shipSize`; its hit count and every other ship are unchanged |
| `Players.Player.IsDefeated` | Player.go:25-32 | the early-exit scan returns true exactly when every ship is destroyed |
| `Display.RowTextShape` | Game.go:18-24 | a row of w > 0 states renders as 2w characters: the states at even positions, single spaces between them, and a final newline |
| `Display.GridTextLength` | Game.go:16-27 | h rows of w states render as h·2w characters |
| `Display.StateAt` | Game.go:19 | the state of row i, column j is at position i·2w + 2j |
| `Display.SpaceAt` | Game.go:20-22 | every state except the last in its row is followed by a space |
| `Display.NewlineAt` | Game.go:24 | every row ends with a newline |
| `Display.Midline` | Game.go:39-43 | the separator is 2·gridSize dashes followed by a newline |
| `Display.HiddenBoardIsMasked` | Game.go:44 | a board rendered hidden contains no upper-case letter other than 'X' |
| `Display.BlankBoardText` | Game.go:54-67 | a 10×10 board of unhit, empty cells renders as ten copies of ". . . . . . . . . .\n" |
| `Games.NextTurn` | Game.go:29-31 | the next turn is in {0, 1} and differs from the current one |
| `Games.NextTurnTwice` | Game.go:29-31 | two turn changes restore the turn |
| `Games.Game.Zero` | Game.go:55 | `var game Game`: turn 0, every cell the zero cell, two distinct zero players whose ships are all the zero ship |
| `Games.Game.GetPlayerDisplay` | Game.go:16-27 | the result is the rendering of player p's grid, of length gridSize·2·gridSize |
| `Games.Game.ViewLayout` | Game.go:16-27 | cell (i, j)'s state is at 20i+2j, followed by a space, or by a newline at the end of the row |
| `Games.Game.ChangeTurn` | Game.go:29-31 | turn becomes `(turn+1) % 2`; as a position, nothing but the turn changes |
| `Games.Game.Hit` | Game.go:33-35 | exactly cell (x, y) of grid `1-turn` is struck; all other cells, the turn and the mover's ships are unchanged; the defender's ships are damaged as `Cells.Damaged` says; the new position is `Strike` of the old one |
| `Games.Strike` | Game.go:33-35 | striking a position keeps its turn, its number of boards and its number of fleets; `StrikeEffect` gives the effect on cells and fleets |
| `Games.StrikeEffect` | Game.go:33-35 | on a well-formed position, `Strike` keeps it well-formed and the turn unchanged, strikes exactly cell (x, y) of the defender's board, damages the defender's fleet by that cell and leaves the mover's fleet alone |
| `Games.Game.GetDisplay` | Game.go:38-45 | own board revealed, then the dashed line, then the opponent's board hidden; the opponent part contains no upper-case letter except 'X' |
| `Games.Game.IsOver` | Game.go:48-50 | true exactly when player `1-turn` is defeated |
| `Games.FillGrids` | Game.go:59-65 | every cell (i, j, k) becomes unhit, empty and at coordinates (j, k) |
| `Games.NewGame` | Game.go:54-67 | turn 0, zero-valued players with 5 ships each, no ship linked into any cell, and both boards render blank |
| `Games.NewGameIsAlreadyOver` | Game.go:48-67 | a game fresh from the split `NewGame` already reports `isOver` |
| `Battleship.Placed` | Battleship.go:101-103 | the `NewPlayer` ship i is named 'A'+i, covers (0,0) and (0,1), and has no hits |
| `Battleship.NewPlayer` | Battleship.go:97-106 | every ship of the new player is `Placed(i)` |
| `Battleship.Owner` | Battleship.go:182-188 | the ship a cell refers to after linking is the last ship covering that point, or none when no ship covers it |
| `Battleship.OwnerOfDisjointFleet` | Battleship.go:182-188 | if no two ships share a point, each part of ship j refers to ship j |
| `Battleship.LinkShips` | Battleship.go:182-188 | each cell's ship reference becomes `Owner` of its point; nothing else changes |
| `Battleship.NewGame` | Battleship.go:170-190 | turn 0 and the `NewPlayer` fleet. Every cell is unhit and at its own coordinates. Cells (0,0) and (0,1) refer to ship 0 and all others to no ship. The game is not over |
| `Battleship.Move` | Battleship.go:236-250 | one pass leaves a turn in {0, 1}; a winner is the mover and the turn is kept; without a winner the turn passes to the other player |
| `Battleship.MoveEffect` | Battleship.go:236-250 | on a well-formed position, one pass strikes as `Strike` does, keeps the position well-formed, and declares a winner exactly when the defender's fleet is then destroyed |
| `Battleship.Run` | Battleship.go:224-251 | the loop uses at most every move; without a winner it uses all of them and the turn has passed once per move; a winner is declared on some move and is the player whose turn it still is |
| `Battleship.RunWellFormed` | Battleship.go:224-251 | the loop keeps the position well-formed, and a declared winner's opponent has lost every ship |
| `Battleship.RunIgnoresLaterMoves` | Battleship.go:246-249 | once a move wins, the loop breaks: moves sent afterwards change neither the position, the winner nor the number of moves read |
| `Battleship.MoveMatches` | Battleship.go:236-250 | a position and winner that differ from the old position as one pass prescribes (struck cell, damaged fleet, winner and turn by whether the defender is destroyed) are exactly `Move`'s outcome |
| `Battleship.Step` | Battleship.go:236-250 | the move strikes the defender's grid and damages the defender's ships; the mover's ships and the other cells are unchanged; if the defender is then defeated, the mover wins and the turn stays, otherwise the turn flips |
| `Battleship.Turn` | Battleship.go:236-250 | one pass on the game yields `Move` of its position: the same new position and winner; a winner is the mover and the game is then over |
| `Battleship.Play` | Battleship.go:224-251 | the final position, the winner and the number of moves read are exactly `Run` of the starting position and the moves; a winner is the player to move and the game is over |
| `Battleship.SinkingTheOnlyShipEndsTheGame` | Battleship.go:149-166 | in a new game, hitting defender cells (0,0) and (0,1) makes `isOver` true |
| `Battleship.FirstPlayerWinsInThreeMoves` | Battleship.go:236-250 | the moves (0,0), (5,5), (0,1) continue, continue, then make player 0 the winner |

## Left out

- Networking: `Server.Listen`, accepting connections, grouping them into sessions, `main` and
  logging. This is I/O with no game state.
- Goroutines, the wait groups and the rendezvous channel in `Broadcast`, `Handle` and
  `endGame`, and every message written to a connection. Only the sequential game-state step
  (`Battleship.Step`, `Battleship.Play`) is modelled.
- `GetInput`'s `fmt.Fscan` on the connection. Moves are a parameter instead.
- The unused `timeout` field of `minServer`.
- General `unicode.ToLower`: `Cells.ToLower` handles only ASCII 'A'..'Z'.
- Aliasing: Go's `Ship` and `Cell` are values in arrays and are modelled as such. The one
  pointer, cell to ship, is an index into the grid owner's ship array.
- A player has at most `MaxShips` = 26 ships (`Player.Valid`), so that the name 'A'+index that
  `initShip` and `NewPlayer` give is a letter. A ship's name itself is any `char`; the zero
  ship's is '\0'. Both configurations of the program (5 ships and 1 ship) are within this bound.
- Displays are `seq<char>`, and their lengths count characters. Go builds them as strings, where
  `string(rune)` encodes UTF-8 (Game.go:19), so lengths in bytes agree with the model only while
  every state is ASCII. Every name the code produces ('A'+index and '\0') is ASCII, but the
  display lemmas are stated for any name.
- `Games.Finished` (`isOver` on a position, Game.go:48-50) is a one-line predicate with no
  contract of its own. `Battleship.MoveEffect` and `Battleship.RunWellFormed` state what it means.
- `Cells.IsHit`, `Cells.HasShip` (Cell.go:28-30, 50-52) and `Ships.IsDestroyed` (Ship.go:23-25)
  are one-line predicates with no contract of their own. `Cells.GetState`, `Cells.Damaged` and
  `Ships.DestroyedExactlyAfterAllHits` state what they mean.
- `Ships.GetName` has no contract of its own. `Ships.SetNameThenGetName` states what it returns.
- Go's 64-bit `int` is modelled as unbounded. Overflow of `timesHit` or of placement
  coordinates is not modelled.
- The duplicated `Cell`, `Ship`, `getState`, `IsDestroyed`, `isDefeated`, `getPlayerDisplay`,
  `changeTurn`, `Hit`, `getDisplay` and `isOver` in `Battleship.go` (lines 15-166) are the same
  code as in the split files. They are modelled once. Only the ship count differs.

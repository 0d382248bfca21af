# Rug Sweeper game engine in Dafny

This project models the engine of Rug Sweeper, a minesweeper variant. Each
cell of a 10 x 10 board hides one of six events: a bomb (the "rug"), one of
four mini-games (coin flip, up/down Bitcoin prediction, rock-paper-scissors,
dice roll), or nothing. The model covers:

- building the board and counting each cell's neighbouring bombs;
- what a click does (reveal) and what a right click does (flag);
- restart;
- the message shown when a mini-game reports its result;
- the win rule of the rock-paper-scissors mini-game.

Layout of the project:

- `cells.dfy` (`Cells`): the event enumeration, the cell record and the board (a list of rows of cells).
- `gridbuilder.dfy` (`GridBuilder`): `createEmptyGrid` and `calculateNeighborMines`. Both are loops. The board invariant `WellFormed` says every cell sits at its own position and has a count that agrees with the event layout.
- `revealengine.dfy` (`RevealEngine`): what revealing and flagging do to the board, as functions on the copied board, and the bomb branch's walk over the board as a loop.
- `eventresolver.dfy` (`EventResolver`): the message strings, copied literally, emoji included. `RevealMessage` gives the message for a revealed cell and `EventMessage` the one for a mini-game result.
- `gamesession.dfy` (`GameSession.Game`): the component's state (`grid`, `gameOver`, `message`, `isModalOpen`, `currentEvent`, `eventResult`) as fields. Its handlers `initializeGrid`, `handleEventComplete`, `revealCell` and `flagCell` are methods.
- `rockpaperscissors.dfy` (`RockPaperScissors`): `determineResult`.
- `decimal.dfy` (`Decimal`): how `${n}` prints a count or a dice value, with its inverse. `wrappers.dfy`: `Option` stands for `null`.

Inputs that replace randomness and timers:

- The event drawn for cell [r][c] is `layout(r, c)`, an argument of `InitializeGrid`.
- The result a mini-game reports is the argument of `HandleEventComplete`.
- The computer's rock-paper-scissors pick is an argument of `DetermineResult`.

## Behaviour of the code worth knowing

- The messages are the literal strings of `Game.jsx`, emoji included.
- `handleEventComplete` accepts any result, whatever the mini-game, and leaves `currentEvent` set.
- `revealCell` does not check `isModalOpen`, so a click is handled while a mini-game is open.
- Revealing a non-bomb cell opens that cell only: there is no flood-fill of cells with a zero count. A bomb click also reveals every other bomb (`src/components/Game.jsx:155-157`).

## Model

| member | source | states |
|---|---|---|
| GridBuilder.CreateEmptyGrid | src/components/Game.jsx:37-55 | the board has `rows` rows of `cols` cells (none when either is not positive); cell [r][c] has x = r and y = c, is neither revealed nor flagged, has count 0 and holds the event drawn for it |
| GridBuilder.CountBombs | src/components/Game.jsx:75-87 | the running count over a list of offsets never exceeds the number of offsets |
| GridBuilder.CountNeighborBombs | src/components/Game.jsx:74-87 | the scan over the eight directions with a running count returns the count of offsets that land on an in-bounds bomb |
| GridBuilder.MinesAt | src/components/Game.jsx:70-88 | the stored count lies in -1..8 and is -1 exactly on a bomb cell |
| GridBuilder.CalculateNeighborMines | src/components/Game.jsx:58-93 | dimensions and every event are preserved; each cell in the first `cols` columns gets -1 if it is a bomb and its neighbouring-bomb count otherwise; x, y, isRevealed, isFlagged and event stay as they were; cells beyond `cols` are untouched |
| GridBuilder.DirectionsAreNeighbourOffsets | src/components/Game.jsx:62-66 | the direction table lists each of the eight offsets around a cell exactly once and nothing else |
| GridBuilder.NeighbourCountIsCardinality | src/components/Game.jsx:62-88 | the count the scan computes equals the number of in-bounds bomb cells among the eight neighbours |
| GridBuilder.SafeCountBounds | src/components/Game.jsx:74-88 | a non-bomb cell's count is the number of its bomb neighbours and lies in 0..8 |
| GridBuilder.CountBombsLayout | src/components/Game.jsx:83 | the count reads only the events, so boards with the same layout get the same counts |
| GridBuilder.MinesAtLayout | src/components/Game.jsx:70-88 | a cell's stored count depends only on the event layout |
| GridBuilder.WellFormedKept | src/components/Game.jsx:144-145 | changing nothing but the revealed and flagged marks keeps every count consistent with the events |
| RevealEngine.SetRevealed | src/components/Game.jsx:144-145 | revealing the clicked cell on the copy marks it revealed and leaves every other cell as it was |
| RevealEngine.BombsRevealed | src/components/Game.jsx:155-157 | after the walk a cell is revealed exactly when it was revealed before or is a bomb; nothing else changes |
| RevealEngine.RevealAllBombs | src/components/Game.jsx:155-157 | the nested walk over rows and cells produces the board with every bomb revealed |
| RevealEngine.RevealedGrid | src/components/Game.jsx:144-158 | a reveal changes only isRevealed, never hides a revealed cell, reveals the target and keeps positions, counts and events |
| RevealEngine.RevealBombEffect | src/components/Game.jsx:151-158 | revealing a bomb reveals every bomb cell, leaves every non-bomb cell's isRevealed unchanged, and leaves every flag unchanged |
| RevealEngine.RevealSafeEffect | src/components/Game.jsx:160-191 | revealing a non-bomb cell reveals that cell and changes no other cell |
| RevealEngine.FlagToggled | src/components/Game.jsx:201-202 | flagging flips isFlagged on the target and changes nothing else |
| RevealEngine.FlagTwice | src/components/Game.jsx:198-204 | toggling the flag twice restores the board |
| EventResolver.RevealMessage | src/components/Game.jsx:150-191 | the message set for each event: the bomb, mini-game and "Nothing happened." texts, and for a `nothing` cell with a positive count, "Number of neighboring rugs: " followed by the count printed as `${n}` does (`NeighborMessage`, `IntToDecimal`), which reads back as the count |
| RevealEngine.RevealKeepsWellFormed | src/components/Game.jsx:144-158 | a reveal keeps every count consistent with the event layout |
| EventResolver.RevealMessageDetermines | src/components/Game.jsx:150-191 | the reveal messages tell the branches apart: equal messages mean the same event and, for a `nothing` cell, the same shown neighbour count |
| EventResolver.EventMessage | src/components/Game.jsx:128-137 | a result message is produced exactly when the current event is one of the four mini-games; it is the event's prefix, the result as `${result}` prints it (`ResultText`: a word as is, a dice number in decimal) and, for the dice and up/down events, a closing "!" or "." |
| EventResolver.EventMessageDecodes | src/components/Game.jsx:128-137 | a result message starts with its event's emoji, and the text between its prefix and suffix is the reported result |
| EventResolver.EventMessageInjective | src/components/Game.jsx:128-137 | different (event, printed result) pairs give different messages; `Text("3")` and `Number(3)` print alike and give the same message |
| Decimal.NatToDecimal | src/components/Game.jsx:187 | a printed count is a non-empty string of digits with no leading zero, and it has one digit exactly for counts below 10 |
| Decimal.ParsePrinted | src/components/Game.jsx:187 | reading a printed count back gives the count |
| Decimal.PrintedInjective | src/components/Game.jsx:133 | different numbers print differently |
| Decimal.IntToDecimalSign | src/components/Game.jsx:133 | a number prints with a leading minus exactly when it is negative; a non-negative one reads back as itself |
| GameSession.Game.constructor | src/components/Game.jsx:99-104 | the component starts with an empty board, no game over, an empty message, the modal closed, and no current event or result |
| GameSession.Game.InitializeGrid | src/components/Game.jsx:107-116 | restart gives a well-formed 10 x 10 board of the drawn events with nothing revealed or flagged, and resets every other piece of state |
| GameSession.Game.HandleEventComplete | src/components/Game.jsx:123-138 | the result is recorded and the modal closes; the message becomes the result message of the current mini-game, or stays as it was; board, game-over flag and current event are unchanged |
| GameSession.Game.RevealCell | src/components/Game.jsx:141-195 | after game over, or on a revealed or flagged cell, all state is unchanged; otherwise the board becomes the revealed copy, game over is set exactly for a bomb, a mini-game becomes the current event and opens the modal, and the message is the event's; isRevealed never goes back to false, and the board invariant is kept |
| GameSession.Game.FlagCell | src/components/Game.jsx:198-204 | after game over or on a revealed cell, all state is unchanged; otherwise only the target's flag flips; no other state changes, and the board invariant is kept |
| RockPaperScissors.DetermineResult | src/components/RockPaperScissors.jsx:18-30 | the result is one of the three texts; it is "It's a Tie!" exactly when both picks are equal and "You Win!" exactly in the three winning pairs |
| RockPaperScissors.DetermineResultIsCyclic | src/components/RockPaperScissors.jsx:18-30 | the rule agrees with the cyclic reference rule: each choice beats the one before it in Rock, Paper, Scissors |
| RockPaperScissors.OutcomesDistinct | src/components/RockPaperScissors.jsx:19-29 | the three outcomes are distinct, so they are mutually exclusive |
| RockPaperScissors.Antisymmetric | src/components/RockPaperScissors.jsx:21-29 | (a, b) is a win exactly when (b, a) is a loss, and a tie exactly when (b, a) is a tie |
| RockPaperScissors.OneOfEach | src/components/RockPaperScissors.jsx:18-30 | for every user pick, one computer pick ties, one loses to it and one beats it |

## Left out

- Randomness: `getRandomEvent` and the computer's random pick are not modelled. The drawn events and the pick are inputs.
- The coin-flip, dice and up/down producers: they are timers, random draws and a button. Their results enter as the argument of `HandleEventComplete`.
- The rock-paper-scissors timer that reports the result after two seconds.
- Rendering: the grid and cell components, the JSX, the modal and its `onClose`. The emoji table `EVENT_EMOJIS` declared in `Game.jsx` is never used there. Only `Cell.jsx` keeps its own copy for display, and that copy shows '⬆️' rather than '↕️' for the up/down event.
- The mount effect and the hook machinery. The mount effect only calls `initializeGrid`. In the model each state setter becomes a field assignment, taking effect in call order.
- Update in place: `Game.jsx` mutates cell records, but only in a board nobody else holds. That is the freshly built board, or the deep copy taken by `revealCell` and `flagCell`. The model therefore treats a board as a value and assigns the changed copy. Aliasing is not modelled.
- GameSession.Game.RevealCell: requires the clicked cell to be on the board when the guard lets the click through. `revealCell` would throw on an out-of-range position rather than handle it.
- GameSession.Game.FlagCell: requires the clicked cell to be on the board when the guard lets the click through. `flagCell` would throw on an out-of-range position.
- GridBuilder.CalculateNeighborMines: requires a board with at least one row whose rows are all at least as long as the first. `calculateNeighborMines` reads `grid[0]` and every row up to that length, and throws otherwise.
- EventResolver.EventMessageDecodes: "the first character is the event's emoji" holds for a string as a sequence of Unicode code points. A JavaScript string is UTF-16, so index 0 of the coin-flip or dice message is a surrogate half. Nothing in the game reads single characters of a message.
- Number printing: `${n}` is modelled for integers only, and agrees with JavaScript for magnitudes below 10^21 (larger numbers print in exponent form). The game only prints counts 0..8 and dice values 1..6.
- The hardhat configuration and deployment module: they are unrelated to the game.

/**
 * The game component's state and its handlers.  Each piece of React state
 * is a field; each handler is a method that updates the fields as the
 * state setters do.  The random event of each cell is the `layout`
 * argument of InitializeGrid; the result a mini-game reports is the
 * argument of HandleEventComplete.
 */
module GameSession {
  import opened Wrappers
  import opened Cells
  import opened GridBuilder
  import opened RevealEngine
  import opened EventResolver

  class Game {
    /** The board is always 10 x 10. */
    const rows: int := 10
    const cols: int := 10

    var grid: Grid
    var gameOver: bool
    var message: string
    var isModalOpen: bool
    var currentEvent: Option<Event>
    var eventResult: Option<EventResult>

    /** The initial state of the hooks, before the mount effect builds the board. */
    constructor ()
      ensures rows == 10 && cols == 10
      ensures grid == [] && !gameOver && message == "" && !isModalOpen
      ensures currentEvent == None && eventResult == None
    {
      grid := [];
      gameOver := false;
      message := "";
      isModalOpen := false;
      currentEvent := None;
      eventResult := None;
    }

    /**
     * Builds a fresh board and resets every other piece of state; used on
     * mount and by the Restart button.  `layout(r, c)` is the event drawn
     * for cell [r][c].
     */
    method InitializeGrid(layout: (int, int) -> Event)
      modifies this
      ensures WellFormed(grid, rows, cols)
      ensures forall r, c :: InGrid(grid, r, c) ==>
        !grid[r][c].isRevealed && !grid[r][c].isFlagged && grid[r][c].event == layout(r, c)
      ensures !gameOver && message == "" && !isModalOpen
      ensures currentEvent == None && eventResult == None
    {
      var newGrid := CreateEmptyGrid(rows, cols, layout);
      var counted := CalculateNeighborMines(newGrid);
      forall r, c | InGrid(counted, r, c)
        ensures counted[r][c].neighborMines == MinesAt(counted, cols, r, c)
      {
        MinesAtLayout(newGrid, counted, cols, r, c);
      }
      grid := counted;
      gameOver := false;
      message := "";
      isModalOpen := false;
      currentEvent := None;
      eventResult := None;
    }

    /**
     * A mini-game reported `result`: record it, close the modal, and show the
     * result message of the current event (the message stays as it is when
     * there is no mini-game event).  The current event is not cleared.
     */
    method HandleEventComplete(result: EventResult)
      modifies this
      ensures eventResult == Some(result) && !isModalOpen
      ensures message == match EventMessage(currentEvent, result)
                         case Some(m) => m
                         case None => old(message)
      ensures grid == old(grid) && gameOver == old(gameOver) && currentEvent == old(currentEvent)
    {
      eventResult := Some(result);
      isModalOpen := false;
      var m := EventMessage(currentEvent, result);
      if m.Some? {
        message := m.value;
      }
    }

    /**
     * A click on `cell`.  Nothing happens once the game is over or when the
     * clicked cell is revealed or flagged.  Otherwise a copy of the board gets
     * the cell revealed and the cell's event decides the rest: a bomb ends the
     * game and reveals every bomb, a mini-game becomes the current event and
     * opens the modal, and every event sets its message.
     */
    method RevealCell(cell: Cell)
      requires !(gameOver || cell.isRevealed || cell.isFlagged) ==> InGrid(grid, cell.x, cell.y)
      modifies this
      ensures old(gameOver) || cell.isRevealed || cell.isFlagged ==> unchanged(this)
      ensures !(old(gameOver) || cell.isRevealed || cell.isFlagged) ==>
        var target := old(grid)[cell.x][cell.y];
        && grid == RevealedGrid(old(grid), cell.x, cell.y)
        && gameOver == (target.event == Bomb)
        && message == RevealMessage(target)
        && currentEvent == (if IsMiniGame(target.event) then Some(target.event) else old(currentEvent))
        && isModalOpen == (IsMiniGame(target.event) || old(isModalOpen))
        && eventResult == old(eventResult)
      ensures RevealsOnly(old(grid), grid)
      ensures WellFormed(old(grid), rows, cols) ==> WellFormed(grid, rows, cols)
    {
      if gameOver || cell.isRevealed || cell.isFlagged {
        return;
      }
      var newGrid: Grid := grid;  // the deep copy: a board is a value
      newGrid := newGrid[cell.x := newGrid[cell.x][cell.y := newGrid[cell.x][cell.y].(isRevealed := true)]];
      assert newGrid == SetRevealed(grid, cell.x, cell.y);
      var clickedCell := newGrid[cell.x][cell.y];
      ghost var target := grid[cell.x][cell.y];
      assert clickedCell == target.(isRevealed := true);
      match clickedCell.event {
      case Bomb =>
        gameOver := true;
        message := BoomMessage;
        newGrid := RevealAllBombs(newGrid);
      case CoinFlip =>
        currentEvent := Some(CoinFlip);
        isModalOpen := true;
        message := CoinFlipEventMessage;
      case RockPaperScissors =>
        currentEvent := Some(RockPaperScissors);
        isModalOpen := true;
        message := RockPaperScissorsEventMessage;
      case DiceRoll =>
        currentEvent := Some(DiceRoll);
        isModalOpen := true;
        message := DiceRollEventMessage;
      case UpDown =>
        currentEvent := Some(UpDown);
        isModalOpen := true;
        message := UpDownEventMessage;
      case Nothing =>
        if clickedCell.neighborMines > 0 {
          message := NeighborMessage(clickedCell.neighborMines);
        } else {
          message := NothingMessage;
        }
      }
      assert message == RevealMessage(target);
      assert newGrid == RevealedGrid(grid, cell.x, cell.y);
      RevealKeepsWellFormed(grid, cell.x, cell.y, rows, cols);
      grid := newGrid;
    }

    /**
     * A right click on `cell`: unless the game is over or the clicked cell is
     * revealed, a copy of the board gets the cell's flag toggled.
     */
    method FlagCell(cell: Cell)
      requires !(gameOver || cell.isRevealed) ==> InGrid(grid, cell.x, cell.y)
      modifies this
      ensures old(gameOver) || cell.isRevealed ==> unchanged(this)
      ensures !(old(gameOver) || cell.isRevealed) ==> grid == FlagToggled(old(grid), cell.x, cell.y)
      ensures gameOver == old(gameOver) && message == old(message) && isModalOpen == old(isModalOpen)
      ensures currentEvent == old(currentEvent) && eventResult == old(eventResult)
      ensures WellFormed(old(grid), rows, cols) ==> WellFormed(grid, rows, cols)
    {
      if gameOver || cell.isRevealed {
        return;
      }
      var newGrid: Grid := grid;  // the deep copy: a board is a value
      newGrid := newGrid[cell.x := newGrid[cell.x][cell.y := newGrid[cell.x][cell.y].(isFlagged := !newGrid[cell.x][cell.y].isFlagged)]];
      if WellFormed(grid, rows, cols) {
        WellFormedKept(grid, newGrid, rows, cols);
      }
      grid := newGrid;
    }
  }
}

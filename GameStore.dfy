/** The game store as an object: its seven fields and the operations that update them in
    place. Each operation is proved to leave the store in the state the matching function of
    GameLogic computes from the state before, so every lemma there holds of the store. */
module GameStore {

  import opened Board
  import GameLogic

  class Store {
    var board: Board
    var currentTurn: Player
    var winner: Winner
    var player1: GameLogic.PlayerInfo
    var player2: GameLogic.PlayerInfo
    var popupVisible: bool
    var isComputerThinking: bool

    /** The store's fields as one value. */
    function State(): GameLogic.GameState
      reads this
    {
      GameLogic.GameState(board, currentTurn, winner, player1, player2, popupVisible,
                          isComputerThinking)
    }

    constructor ()
      ensures State() == GameLogic.Initial()
    {
      board := EmptyBoard();
      currentTurn := O;
      winner := Undecided;
      player1 := GameLogic.PlayerInfo("", O, None);
      player2 := GameLogic.PlayerInfo("", X, Some(GameLogic.Human));
      popupVisible := true;
      isComputerThinking := false;
    }

    method SetIsComputerThinking(val: bool)
      modifies this
      ensures State() == GameLogic.SetIsComputerThinking(old(State()), val)
    {
      isComputerThinking := val;
    }

    /** A human move. When it hands the turn to a computer second player it raises the
        thinking flag; the delayed computer move is `ThinkingDelayElapsed`. */
    method MakeMove(index: int)
      modifies this
      ensures State() == GameLogic.MakeMove(old(State()), index)
    {
      var b, turn, w, second, thinking := board, currentTurn, winner, player2, isComputerThinking;
      if thinking || w != Undecided || !IsEmptyAt(b, index) {
        return;
      }
      var newBoard: Board := b[index := Some(turn)];
      var gameWinner := CheckWinner(newBoard);
      if gameWinner.Some? {
        board, winner := newBoard, Won(gameWinner.value);
        return;
      }
      var isBoardFull := IsFull(newBoard);
      if isBoardFull {
        board, winner := newBoard, Tie;
        return;
      }
      var nextTurn := if turn == X then O else X;
      board, currentTurn := newBoard, nextTurn;
      if second.kind == Some(GameLogic.Computer) && second.symbol == nextTurn {
        SetIsComputerThinking(true);
      }
    }

    method MakeComputerMove(index: int)
      modifies this
      ensures State() == GameLogic.MakeComputerMove(old(State()), index)
    {
      var b, turn, w := board, currentTurn, winner;
      if w != Undecided || !IsEmptyAt(b, index) {
        return;
      }
      var newBoard: Board := b[index := Some(turn)];
      var gameWinner := CheckWinner(newBoard);
      if gameWinner.Some? {
        board, winner := newBoard, Won(gameWinner.value);
        return;
      }
      var isBoardFull := IsFull(newBoard);
      if isBoardFull {
        board, winner := newBoard, Tie;
        return;
      }
      var nextTurn := if turn == X then O else X;
      board, currentTurn := newBoard, nextTurn;
    }

    /** The computer's turn; `random` is the value `Math.random()` returned. */
    method ComputerMove(random: Random)
      modifies this
      ensures State() == GameLogic.ComputerMove(old(State()), random)
    {
      var b, w := board, winner;
      if w != Undecided {
        return;
      }
      var emptyIndices := EmptyIndices(b);
      if |emptyIndices| == 0 {
        return;
      }
      var randomIndex := emptyIndices[Slot(random, |emptyIndices|)];
      MakeComputerMove(randomIndex);
    }

    /** The callback a human move schedules when it hands the turn to the computer. */
    method ThinkingDelayElapsed(random: Random)
      modifies this
      ensures State() == GameLogic.ThinkingDelayElapsed(old(State()), random)
    {
      ComputerMove(random);
      SetIsComputerThinking(false);
    }

    method ResetGame()
      modifies this
      ensures State() == GameLogic.ResetGame(old(State()))
    {
      board, currentTurn, winner := EmptyBoard(), O, Undecided;
    }

    method SetPlayers(p1: GameLogic.PlayerInfo, p2: GameLogic.PlayerInfo)
      modifies this
      ensures State() == GameLogic.SetPlayers(old(State()), p1, p2)
    {
      player1, player2 := p1, p2;
    }

    method HidePopup()
      modifies this
      ensures State() == GameLogic.HidePopup(old(State()))
    {
      popupVisible := false;
    }
  }

  /** A game against the computer, on the store object: `O` is the human, `X` the computer.
      The human's first move raises the thinking flag, a second click meanwhile is ignored,
      and the delayed computer move places one `X` and lowers the flag. */
  method ComputerOpponentExample(random: Random)
    returns (board: Board, thinkingAfterMove: bool, thinking: bool)
    ensures thinkingAfterMove
    ensures board[4] == Some(O) && Count(board, O) == 1 && Count(board, X) == 1
    ensures !thinking
  {
    var store := new Store();
    store.SetPlayers(GameLogic.PlayerInfo("Ada", O, None),
                     GameLogic.PlayerInfo("Computer", X, Some(GameLogic.Computer)));
    store.HidePopup();
    ghost var s := store.State();
    assert CheckWinner(EmptyBoard()[4 := Some(O)]) == None;
    ghost var reply := GameLogic.ComputerReplies(s, 4, 0, random);
    store.MakeMove(4);
    thinkingAfterMove := store.isComputerThinking;
    store.MakeMove(0);
    store.ThinkingDelayElapsed(random);
    board, thinking := store.board, store.isComputerThinking;
    CountOneEach(board, 4, reply, O);
  }
}

/** The game store's operations as functions from the store's state before to its state after.
    The class in GameStore runs the same operations on its fields; the lemmas here say what the
    operations promise, one at a time and over any sequence of them. */
module GameLogic {

  import opened Board

  datatype PlayerKind = Human | Computer

  /** A player record. The kind is optional: the store's first player is created without one,
      and only a second player of kind `Computer` triggers automatic moves. */
  datatype PlayerInfo = PlayerInfo(name: string, symbol: Player, kind: Option<PlayerKind>)

  /** Every field of the store. */
  datatype GameState = GameState(
    board: Board,
    currentTurn: Player,
    winner: Winner,
    player1: PlayerInfo,
    player2: PlayerInfo,
    popupVisible: bool,
    isComputerThinking: bool)

  /** The state the store is created with. */
  function Initial(): GameState {
    GameState(EmptyBoard(), O, Undecided,
              PlayerInfo("", O, None), PlayerInfo("", X, Some(Human)),
              true, false)
  }

  /** Every square holding a mark in `before` holds the same mark in `after`. */
  predicate Extends(before: Board, after: Board) {
    forall i :: 0 <= i < 9 && before[i].Some? ==> after[i] == before[i]
  }

  /** The player records and the popup flag are the same in both states. */
  predicate SameSetup(s: GameState, t: GameState) {
    t.player1 == s.player1 && t.player2 == s.player2 && t.popupVisible == s.popupVisible
  }

  /** The board, the turn and the winner are the same in both states. */
  predicate SameGame(s: GameState, t: GameState) {
    t.board == s.board && t.currentTurn == s.currentTurn && t.winner == s.winner
  }

  function SetIsComputerThinking(s: GameState, val: bool): (t: GameState)
    ensures t.isComputerThinking == val
    ensures SameGame(s, t) && SameSetup(s, t)
  {
    s.(isComputerThinking := val)
  }

  /** Writes the current mark on the empty square `index`, then records a completed line,
      else a full board as a tie, else passes the turn. */
  function Place(s: GameState, index: int): GameState
    requires s.winner == Undecided && IsEmptyAt(s.board, index)
  {
    var board := s.board[index := Some(s.currentTurn)];
    var gameWinner := CheckWinner(board);
    if gameWinner.Some? then s.(board := board, winner := Won(gameWinner.value))
    else if IsFull(board) then s.(board := board, winner := Tie)
    else s.(board := board, currentTurn := if s.currentTurn == X then O else X)
  }

  /** The guard of a human move: the computer is thinking, the game is decided, or the square
      at `index` is not exactly empty (which covers indices outside the board). */
  predicate MoveRejected(s: GameState, index: int) {
    s.isComputerThinking || s.winner != Undecided || !IsEmptyAt(s.board, index)
  }

  /** The guard of a computer move: as for a human move, without the thinking flag. */
  predicate ComputerMoveRejected(s: GameState, index: int) {
    s.winner != Undecided || !IsEmptyAt(s.board, index)
  }

  /** After a move that leaves the game undecided, the computer moves next when the second
      player is a computer that plays the new turn's mark. */
  predicate ComputerToMove(t: GameState) {
    t.winner == Undecided && t.player2.kind == Some(Computer) && t.player2.symbol == t.currentTurn
  }

  /** A human move on square `index`. */
  function MakeMove(s: GameState, index: int): (t: GameState)
    ensures SameSetup(s, t)
    ensures Extends(s.board, t.board)
    ensures s.winner != Undecided ==> t == s
  {
    if MoveRejected(s, index) then s
    else
      var t := Place(s, index);
      if ComputerToMove(t) then SetIsComputerThinking(t, true) else t
  }

  /** A computer move on square `index`; it never sets the thinking flag. */
  function MakeComputerMove(s: GameState, index: int): (t: GameState)
    ensures SameSetup(s, t) && t.isComputerThinking == s.isComputerThinking
    ensures Extends(s.board, t.board)
    ensures s.winner != Undecided ==> t == s
  {
    if ComputerMoveRejected(s, index) then s else Place(s, index)
  }

  /** The computer's turn: picks the empty square in slot `floor(random * n)` of the `n` empty
      squares, unless the game is decided or no square is empty. */
  function ComputerMove(s: GameState, random: Random): (t: GameState)
    ensures SameSetup(s, t) && t.isComputerThinking == s.isComputerThinking
    ensures Extends(s.board, t.board)
    ensures s.winner != Undecided ==> t == s
  {
    if s.winner != Undecided then s
    else
      var emptyIndices := EmptyIndices(s.board);
      if |emptyIndices| == 0 then s
      else MakeComputerMove(s, emptyIndices[Slot(random, |emptyIndices|)])
  }

  /** The work scheduled by a human move that hands the turn to the computer, done when the
      thinking delay has elapsed. */
  function ThinkingDelayElapsed(s: GameState, random: Random): (t: GameState)
    ensures !t.isComputerThinking
    ensures SameSetup(s, t) && Extends(s.board, t.board)
  {
    SetIsComputerThinking(ComputerMove(s, random), false)
  }

  /** A new game: an empty board, `O` to move, no winner; the players, the popup and the
      thinking flag are kept. */
  function ResetGame(s: GameState): (t: GameState)
    ensures forall i :: 0 <= i < 9 ==> t.board[i] == None
    ensures t.currentTurn == O && t.winner == Undecided
    ensures SameSetup(s, t) && t.isComputerThinking == s.isComputerThinking
  {
    s.(board := EmptyBoard(), currentTurn := O, winner := Undecided)
  }

  /** Stores the two player records. Distinct marks are checked by the setup form, not here. */
  function SetPlayers(s: GameState, p1: PlayerInfo, p2: PlayerInfo): (t: GameState)
    ensures t.player1 == p1 && t.player2 == p2
    ensures SameGame(s, t) && t.popupVisible == s.popupVisible
    ensures t.isComputerThinking == s.isComputerThinking
  {
    s.(player1 := p1, player2 := p2)
  }

  function HidePopup(s: GameState): (t: GameState)
    ensures !t.popupVisible
    ensures SameGame(s, t) && t.player1 == s.player1 && t.player2 == s.player2
    ensures t.isComputerThinking == s.isComputerThinking
  {
    s.(popupVisible := false)
  }

  // ---------------------------------------------------------------------------------------
  // One operation at a time

  /** A human move changes nothing exactly when its guard rejects it. */
  lemma MakeMoveNoOp(s: GameState, index: int)
    ensures MakeMove(s, index) == s <==> MoveRejected(s, index)
  {
    if !MoveRejected(s, index) {
      assert MakeMove(s, index).board[index] != s.board[index];
    }
  }

  /** A computer move on a square changes nothing exactly when its guard rejects it. */
  lemma MakeComputerMoveNoOp(s: GameState, index: int)
    ensures MakeComputerMove(s, index) == s <==> ComputerMoveRejected(s, index)
  {
    if !ComputerMoveRejected(s, index) {
      assert MakeComputerMove(s, index).board[index] != s.board[index];
    }
  }

  /** An accepted placement writes the mark of the player to move on square `index` and
      touches no other square, no player record and neither flag. */
  lemma PlaceWrites(s: GameState, index: int)
    requires s.winner == Undecided && IsEmptyAt(s.board, index)
    ensures var t := Place(s, index);
      && t.board[index] == Some(s.currentTurn)
      && (forall j :: 0 <= j < 9 && j != index ==> t.board[j] == s.board[j])
      && SameSetup(s, t) && t.isComputerThinking == s.isComputerThinking
  {
  }

  /** After placing, the outcome is decided in the order winner, tie, next turn. */
  lemma PlaceDecides(s: GameState, index: int)
    requires s.winner == Undecided && IsEmptyAt(s.board, index)
    ensures var t := Place(s, index);
      && (forall p :: CheckWinner(t.board) == Some(p) ==>
            t.winner == Won(p) && t.currentTurn == s.currentTurn)
      && (NoLine(t.board) && IsFull(t.board) ==>
            t.winner == Tie && t.currentTurn == s.currentTurn)
      && (NoLine(t.board) && !IsFull(t.board) ==>
            t.winner == Undecided && t.currentTurn == Other(s.currentTurn))
      && t.winner == Evaluate(t.board)
  {
    var board := s.board[index := Some(s.currentTurn)];
    var t := Place(s, index);
    assert t.board == board;
    CheckWinnerCorrect(board);
  }

  /** An accepted human move and an accepted computer move place and decide the same way. */
  lemma MakeMoveIsPlace(s: GameState, index: int)
    requires !MoveRejected(s, index)
    ensures SameGame(MakeMove(s, index), Place(s, index))
    ensures SameGame(MakeComputerMove(s, index), Place(s, index))
  {
  }

  /** An accepted computer move is the placement itself, whatever the thinking flag; the
      delayed computer move runs while the flag is up. */
  lemma MakeComputerMoveIsPlace(s: GameState, index: int)
    requires !ComputerMoveRejected(s, index)
    ensures MakeComputerMove(s, index) == Place(s, index)
  {
  }

  /** The thinking flag is raised by a human move exactly when the move is accepted, leaves the
      game undecided, and hands the turn to a computer second player; otherwise it is kept. */
  lemma MakeMoveThinking(s: GameState, index: int)
    ensures var t := MakeMove(s, index);
      t.isComputerThinking <==> s.isComputerThinking || (!MoveRejected(s, index) && ComputerToMove(t))
  {
  }

  /** Without a computer second player to hand over to, a human move is a computer move. */
  lemma MovesAgree(s: GameState, index: int)
    requires !s.isComputerThinking
    requires !ComputerToMove(MakeComputerMove(s, index))
    ensures MakeMove(s, index) == MakeComputerMove(s, index)
  {
  }

  /** The turn passes exactly when a move is accepted and leaves the game undecided, and it
      passes to the other mark. */
  lemma TurnPassesOnlyWhenUndecided(s: GameState, index: int)
    ensures var t := MakeComputerMove(s, index);
      (t.currentTurn != s.currentTurn <==> !ComputerMoveRejected(s, index) && t.winner == Undecided)
      && (t.currentTurn != s.currentTurn ==> t.currentTurn == Other(s.currentTurn))
  {
  }

  /** The computer's turn changes nothing exactly when the game is decided or the board is
      full; otherwise it is an accepted computer move on some empty square. */
  lemma ComputerMoveNoOp(s: GameState, random: Random)
    ensures ComputerMove(s, random) == s <==> s.winner != Undecided || IsFull(s.board)
  {
    FullIffNoEmptyIndex(s.board);
    if s.winner == Undecided && !IsFull(s.board) {
      var i := ComputerMovePlaysEmpty(s, random);
      MakeComputerMoveNoOp(s, i);
    }
  }

  lemma ComputerMovePlaysEmpty(s: GameState, random: Random) returns (i: int)
    requires s.winner == Undecided && !IsFull(s.board)
    ensures IsEmptyAt(s.board, i) && !ComputerMoveRejected(s, i)
    ensures ComputerMove(s, random) == MakeComputerMove(s, i)
  {
    FullIffNoEmptyIndex(s.board);
    var emptyIndices := EmptyIndices(s.board);
    i := emptyIndices[Slot(random, |emptyIndices|)];
    assert i in emptyIndices;
  }

  /** Every empty square of an undecided game is played by the computer's turn for some
      random value. */
  lemma ComputerMoveCanPlayAny(s: GameState, i: int) returns (random: Random)
    requires s.winner == Undecided && IsEmptyAt(s.board, i)
    ensures ComputerMove(s, random) == MakeComputerMove(s, i)
  {
    var emptyIndices := EmptyIndices(s.board);
    assert i in emptyIndices;
    var k :| 0 <= k < |emptyIndices| && emptyIndices[k] == i;
    SlotReaches(k, |emptyIndices|);
    random := Fraction(k, |emptyIndices|);
  }

  /** With a single empty square, the computer's turn plays that square, whatever the random
      value, and the game is then decided. */
  lemma ComputerMoveForced(s: GameState, random: Random, index: int)
    requires s.winner == Undecided && IsEmptyAt(s.board, index)
    requires forall j :: 0 <= j < 9 && j != index ==> s.board[j].Some?
    ensures ComputerMove(s, random) == MakeComputerMove(s, index)
    ensures ComputerMove(s, random).winner != Undecided
  {
    SingleEmptyIndex(s.board, index);
    var t := ComputerMove(s, random);
    assert IsFull(t.board);
  }

  /** A human move that hands the turn to a computer second player raises the thinking flag;
      clicks are then ignored until the delayed computer move, which places the computer's
      mark on another square that was empty and lowers the flag. */
  lemma ComputerReplies(s: GameState, index: int, click: int, random: Random)
    returns (reply: int)
    requires !MoveRejected(s, index)
    requires s.player2.kind == Some(Computer) && s.player2.symbol == Other(s.currentTurn)
    requires Place(s, index).winner == Undecided
    ensures var t := MakeMove(s, index);
      && t.isComputerThinking
      && MakeMove(t, click) == t
      && var u := ThinkingDelayElapsed(t, random);
         && !u.isComputerThinking
         && reply != index && IsEmptyAt(s.board, reply)
         && u.board[index] == Some(s.currentTurn)
         && u.board[reply] == Some(Other(s.currentTurn))
         && (forall j :: 0 <= j < 9 && j != index && j != reply ==> u.board[j] == s.board[j])
  {
    var placed := Place(s, index);
    PlaceWrites(s, index);
    PlaceDecides(s, index);
    var t := MakeMove(s, index);
    assert t == placed.(isComputerThinking := true);
    EvaluateCorrect(t.board);
    reply := ComputerMovePlaysEmpty(t, random);
    PlaceWrites(t, reply);
  }

  // ---------------------------------------------------------------------------------------
  // Sequences of operations

  /** Each operation the store offers, with the random value where one is drawn. */
  datatype Action =
    | Think(val: bool)
    | Move(index: int)
    | ComputerPlace(index: int)
    | ComputerTurn(random: Random)
    | DelayElapsed(random: Random)
    | Reset
    | Setup(p1: PlayerInfo, p2: PlayerInfo)
    | Hide

  function Step(s: GameState, a: Action): (t: GameState)
    ensures !a.Reset? ==> Extends(s.board, t.board)
    ensures !a.Reset? && s.winner != Undecided ==> SameGame(s, t)
  {
    match a
    case Think(val) => SetIsComputerThinking(s, val)
    case Move(index) => MakeMove(s, index)
    case ComputerPlace(index) => MakeComputerMove(s, index)
    case ComputerTurn(random) => ComputerMove(s, random)
    case DelayElapsed(random) => ThinkingDelayElapsed(s, random)
    case Reset => ResetGame(s)
    case Setup(p1, p2) => SetPlayers(s, p1, p2)
    case Hide => HidePopup(s)
  }

  predicate NoReset(actions: seq<Action>) {
    forall k :: 0 <= k < |actions| ==> !actions[k].Reset?
  }

  /** The state after performing `actions` in order. Until the next reset, marks are never
      removed or changed, and a decided game keeps its board, turn and winner. */
  function Run(s: GameState, actions: seq<Action>): (t: GameState)
    decreases |actions|
    ensures NoReset(actions) ==> Extends(s.board, t.board)
    ensures NoReset(actions) && s.winner != Undecided ==> SameGame(s, t)
  {
    if actions == [] then s
    else
      var next := Step(s, actions[0]);
      assert NoReset(actions) ==> NoReset(actions[1..]) by {
        assert forall k :: 0 <= k < |actions| - 1 ==> actions[1..][k] == actions[k + 1];
      }
      Run(next, actions[1..])
  }

  /** The properties every reachable state has: the recorded winner is the evaluation of the
      board, `O` has made as many moves as `X` or one more, and while the game is undecided
      the player to move is the one with fewer marks, `O` on a tie in count. Never do both
      marks own a line, so the scan order of the winner check decides nothing. */
  predicate Consistent(s: GameState) {
    var o, x := Count(s.board, O), Count(s.board, X);
    && s.winner == Evaluate(s.board)
    && !(HasLine(s.board, X) && HasLine(s.board, O))
    && (o == x || o == x + 1)
    && (s.winner == Undecided ==> s.currentTurn == (if o == x then O else X))
  }

  lemma InitialConsistent()
    ensures Consistent(Initial())
  {
    CountEmpty(EmptyBoard(), O);
    CountEmpty(EmptyBoard(), X);
    assert !HasLine(EmptyBoard(), O) by {
      assert forall k :: 0 <= k < |Lines| ==> !Completes(EmptyBoard(), Lines[k], O);
    }
  }

  lemma PlaceConsistent(s: GameState, index: int)
    requires Consistent(s) && s.winner == Undecided && IsEmptyAt(s.board, index)
    ensures Consistent(Place(s, index))
  {
    var t := Place(s, index);
    PlaceDecides(s, index);
    assert t.board == s.board[index := Some(s.currentTurn)];
    CountPlace(s.board, index, s.currentTurn, O);
    CountPlace(s.board, index, s.currentTurn, X);
    EvaluateCorrect(s.board);
    PlaceKeepsOtherLines(s.board, index, s.currentTurn);
    assert !HasLine(s.board, Other(s.currentTurn));
    var o, x := Count(s.board, O), Count(s.board, X);
    if s.currentTurn == O {
      assert o == x && Count(t.board, O) == o + 1 && Count(t.board, X) == x;
    } else {
      assert o == x + 1 && Count(t.board, O) == o && Count(t.board, X) == x + 1;
    }
  }

  lemma {:induction false} StepConsistent(s: GameState, a: Action)
    requires Consistent(s)
    ensures Consistent(Step(s, a))
  {
    match a
    case Move(index) =>
      if !MoveRejected(s, index) { PlaceConsistent(s, index); }
    case ComputerPlace(index) =>
      if !ComputerMoveRejected(s, index) { PlaceConsistent(s, index); }
    case ComputerTurn(random) =>
      if s.winner == Undecided && !IsFull(s.board) {
        var i := ComputerMovePlaysEmpty(s, random);
        PlaceConsistent(s, i);
      } else {
        ComputerMoveNoOp(s, random);
      }
    case DelayElapsed(random) =>
      if s.winner == Undecided && !IsFull(s.board) {
        var i := ComputerMovePlaysEmpty(s, random);
        PlaceConsistent(s, i);
      } else {
        ComputerMoveNoOp(s, random);
      }
    case Reset =>
      InitialConsistent();
    case _ =>
  }

  lemma {:induction false} RunConsistent(s: GameState, actions: seq<Action>)
    requires Consistent(s)
    ensures Consistent(Run(s, actions))
    decreases |actions|
  {
    if actions != [] {
      StepConsistent(s, actions[0]);
      RunConsistent(Step(s, actions[0]), actions[1..]);
    }
  }

  /** In every state the store can reach, at most one mark owns a line and any mark that owns
      one is the recorded winner; a recorded win belongs to a completed line, a recorded tie is
      a full board without one, and an undecided game has an empty square. */
  lemma ReachableOutcome(actions: seq<Action>)
    ensures var t := Run(Initial(), actions);
      && !(HasLine(t.board, X) && HasLine(t.board, O))
      && (forall p :: HasLine(t.board, p) ==> t.winner == Won(p))
      && (t.winner.Won? ==> HasLine(t.board, t.winner.symbol))
      && (t.winner == Tie <==> IsFull(t.board) && NoLine(t.board))
      && (t.winner == Undecided ==> !IsFull(t.board))
  {
    InitialConsistent();
    RunConsistent(Initial(), actions);
    var t := Run(Initial(), actions);
    EvaluateCorrect(t.board);
    forall p | HasLine(t.board, p)
      ensures t.winner == Won(p)
    {
      CheckWinnerUnique(t.board, p);
    }
  }

  // ---------------------------------------------------------------------------------------
  // Worked examples

  /** `O` completes the top row. */
  lemma TopRowWins()
    ensures var s := Initial().(board := [Some(O), Some(O), None,
                                          Some(X), Some(X), None,
                                          None, None, None]);
      MakeMove(s, 2).winner == Won(O)
  {
  }

  /** `X` fills the last square and completes a diagonal: the win is recorded, not a tie. */
  lemma LastSquareWinsOverTie()
    ensures var s := Initial().(board := [Some(X), Some(O), Some(X),
                                          Some(O), Some(X), Some(O),
                                          Some(O), Some(X), None],
                                currentTurn := X);
      MakeMove(s, 8).winner == Won(X)
  {
  }

  /** One move can complete two lines at once: `O` on square 0 completes the top row and the
      left column. */
  lemma TwoLinesAtOnce()
    ensures var s := Initial().(board := [None,    Some(O), Some(O),
                                          Some(O), Some(X), Some(X),
                                          Some(O), Some(X), Some(X)]);
      var t := MakeMove(s, 0);
      && Consistent(s)
      && Completes(t.board, Lines[0], O) && Completes(t.board, Lines[3], O)
      && t.winner == Won(O)
  {
    var s := Initial().(board := [None,    Some(O), Some(O),
                                  Some(O), Some(X), Some(X),
                                  Some(O), Some(X), Some(X)]);
    var b := s.board;
    assert ScanFrom(b, 6) == None;
    assert ScanFrom(b, 4) == None;
    assert ScanFrom(b, 2) == None;
    assert ScanFrom(b, 0) == None;
    assert !IsFull(b);
    CheckWinnerCorrect(b);
    // four marks each, so `O` is to move
    assert Count(b[..1], O) == 0 && Count(b[..1], X) == 0 by { assert b[..1][..0] == []; }
    assert Count(b[..2], O) == 1 && Count(b[..2], X) == 0 by { assert b[..2][..1] == b[..1]; }
    assert Count(b[..3], O) == 2 && Count(b[..3], X) == 0 by { assert b[..3][..2] == b[..2]; }
    assert Count(b[..4], O) == 3 && Count(b[..4], X) == 0 by { assert b[..4][..3] == b[..3]; }
    assert Count(b[..5], O) == 3 && Count(b[..5], X) == 1 by { assert b[..5][..4] == b[..4]; }
    assert Count(b[..6], O) == 3 && Count(b[..6], X) == 2 by { assert b[..6][..5] == b[..5]; }
    assert Count(b[..7], O) == 4 && Count(b[..7], X) == 2 by { assert b[..7][..6] == b[..6]; }
    assert Count(b[..8], O) == 4 && Count(b[..8], X) == 3 by { assert b[..8][..7] == b[..7]; }
    assert Count(b, O) == 4 && Count(b, X) == 4;
  }

  /** `O` fills the last square without completing a line. */
  lemma LastSquareTies()
    ensures var s := Initial().(board := [Some(O), Some(X), Some(O),
                                          Some(O), Some(X), Some(X),
                                          Some(X), Some(O), None]);
      MakeMove(s, 8).winner == Tie
  {
  }
}

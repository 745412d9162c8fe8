/** The board of the game store: the 9 squares, the eight winning lines, the winner check,
    the outcome evaluation done after every placement, and the list of empty squares the
    computer player chooses from. */
module Board {

  datatype Option<T> = None | Some(value: T)

  /** A player's mark. */
  datatype Player = X | O

  /** The mark that moves after `p`. */
  function Other(p: Player): (q: Player)
    ensures q != p
  {
    if p == X then O else X
  }

  /** A square: empty (`null`) or holding a mark. */
  type SquareValue = Option<Player>

  /** The board always has 9 squares, row-major. */
  type Board = b: seq<SquareValue> | |b| == 9 witness EmptyBoard()

  function EmptyBoard(): (b: seq<SquareValue>)
    ensures |b| == 9 && forall i :: 0 <= i < |b| ==> b[i] == None
  {
    [None, None, None, None, None, None, None, None, None]
  }

  /** The recorded result of a game: none yet, a mark that won, or a tie. */
  datatype Winner = Undecided | Won(symbol: Player) | Tie

  type Index = i: nat | i < 9

  /** Three squares that form a row, a column or a diagonal. */
  datatype Line = Line(a: Index, b: Index, c: Index)

  /** The eight lines in the order the winner check scans them:
      three rows, three columns, two diagonals. */
  const Lines: seq<Line> := [
    Line(0, 1, 2), Line(3, 4, 5), Line(6, 7, 8),
    Line(0, 3, 6), Line(1, 4, 7), Line(2, 5, 8),
    Line(0, 4, 8), Line(2, 4, 6)
  ]

  /** All three squares of `l` hold `p`. */
  predicate Completes(board: Board, l: Line, p: Player) {
    board[l.a] == Some(p) && board[l.b] == Some(p) && board[l.c] == Some(p)
  }

  /** Some line of the board is filled with `p`. */
  predicate HasLine(board: Board, p: Player) {
    exists k :: 0 <= k < |Lines| && Completes(board, Lines[k], p)
  }

  /** No line of the board holds three equal marks. */
  predicate NoLine(board: Board) {
    forall p: Player :: !HasLine(board, p)
  }

  /** No line among `Lines[from..upto]` holds three equal marks. */
  predicate NoLineAmong(board: Board, from: nat, upto: nat)
    requires from <= upto <= |Lines|
  {
    forall j, p :: from <= j < upto ==> !Completes(board, Lines[j], p)
  }

  /** The scan of the winner check from line `k` on: the mark of the first line, in scan order,
      whose first square is non-empty and equal to the other two; `None` if there is none. */
  function ScanFrom(board: Board, k: nat): Option<Player>
    requires k <= |Lines|
    decreases |Lines| - k
  {
    if k == |Lines| then None
    else
      var l := Lines[k];
      if board[l.a].Some? && board[l.a] == board[l.b] && board[l.a] == board[l.c] then board[l.a]
      else ScanFrom(board, k + 1)
  }

  /** The scan from line `k` returns `p` only for the first completed line from `k` on, and
      returns `None` exactly when no line from `k` on is completed. */
  lemma {:induction false} ScanFromCorrect(board: Board, k: nat)
    requires k <= |Lines|
    decreases |Lines| - k
    ensures var r := ScanFrom(board, k);
      && (r.Some? ==> exists j :: k <= j < |Lines| && Completes(board, Lines[j], r.value)
                                  && NoLineAmong(board, k, j))
      && (r.None? <==> NoLineAmong(board, k, |Lines|))
  {
    if k < |Lines| {
      ScanFromCorrect(board, k + 1);
      var l := Lines[k];
      if board[l.a].Some? && board[l.a] == board[l.b] && board[l.a] == board[l.c] {
        assert Completes(board, l, board[l.a].value);
      }
    }
  }

  /** The winner check: the mark of the first completed line in scan order, or `None`. */
  function CheckWinner(board: Board): Option<Player> {
    ScanFrom(board, 0)
  }

  /** The winner check names `p` only if `p` fills a line, the first completed one in scan
      order; it finds nothing exactly when no line holds three equal marks. */
  lemma CheckWinnerCorrect(board: Board)
    ensures var r := CheckWinner(board);
      && (r.Some? ==> HasLine(board, r.value))
      && (r.Some? ==> exists j :: 0 <= j < |Lines| && Completes(board, Lines[j], r.value)
                                  && NoLineAmong(board, 0, j))
      && (r.None? <==> NoLine(board))
  {
    ScanFromCorrect(board, 0);
  }

  /** If only one mark owns a line, the check names that mark, whatever the scan order. */
  lemma CheckWinnerUnique(board: Board, p: Player)
    requires HasLine(board, p) && !HasLine(board, Other(p))
    ensures CheckWinner(board) == Some(p)
  {
    CheckWinnerCorrect(board);
    var r := CheckWinner(board);
    assert r.value == p || r.value == Other(p);
  }

  /** Placing `p` on an empty square completes no line for the other mark that was not
      completed before: every square of such a line already held that mark. */
  lemma PlaceKeepsOtherLines(board: Board, i: Index, p: Player)
    requires board[i] == None
    ensures HasLine(board[i := Some(p)], Other(p)) ==> HasLine(board, Other(p))
  {
    var placed: Board := board[i := Some(p)];
    if HasLine(placed, Other(p)) {
      var k :| 0 <= k < |Lines| && Completes(placed, Lines[k], Other(p));
      assert Completes(board, Lines[k], Other(p));
    }
  }

  /** Every square holds a mark. */
  predicate IsFull(board: seq<SquareValue>) {
    forall i :: 0 <= i < |board| ==> board[i].Some?
  }

  /** `board[index] === null` for any integer index: an index outside the board reads
      `undefined`, which is not `null`. */
  predicate IsEmptyAt(board: Board, index: int) {
    0 <= index < |board| && board[index] == None
  }

  /** The outcome decided after a placement: a completed line first, then a full board. */
  function Evaluate(board: Board): Winner {
    match CheckWinner(board)
    case Some(p) => Won(p)
    case None => if IsFull(board) then Tie else Undecided
  }

  /** The outcome is a win exactly when some line is completed, and then by a mark that fills
      a line; a tie exactly when the board is full without a line; undecided otherwise. */
  lemma EvaluateCorrect(board: Board)
    ensures var w := Evaluate(board);
      && (w.Won? ==> HasLine(board, w.symbol))
      && (w.Won? <==> !NoLine(board))
      && (w == Tie <==> IsFull(board) && NoLine(board))
      && (w == Undecided <==> !IsFull(board) && NoLine(board))
  {
    CheckWinnerCorrect(board);
  }

  /** The indices of the empty squares, in increasing order. */
  function EmptyIndices(board: seq<SquareValue>): (r: seq<nat>)
    ensures forall i: nat :: i in r <==> i < |board| && board[i] == None
    ensures forall j, k :: 0 <= j < k < |r| ==> r[j] < r[k]
  {
    if |board| == 0 then []
    else
      var n := |board| - 1;
      var before := EmptyIndices(board[..n]);
      assert forall j :: 0 <= j < |before| ==> before[j] in before;
      before + (if board[n] == None then [n] else [])
  }

  lemma FullIffNoEmptyIndex(board: seq<SquareValue>)
    ensures IsFull(board) <==> EmptyIndices(board) == []
  {
    var r := EmptyIndices(board);
    assert r != [] ==> r[0] in r;
    if !IsFull(board) {
      var i :| 0 <= i < |board| && board[i].None?;
      assert i in r;
    }
  }

  /** A board with one empty square has that square as its only empty index. */
  lemma {:induction false} SingleEmptyIndex(board: seq<SquareValue>, index: nat)
    requires index < |board| && board[index] == None
    requires forall j :: 0 <= j < |board| && j != index ==> board[j].Some?
    ensures EmptyIndices(board) == [index]
  {
    var n := |board| - 1;
    var before := board[..n];
    if index == n {
      assert IsFull(before);
      FullIffNoEmptyIndex(before);
      assert EmptyIndices(board) == EmptyIndices(before) + [n];
    } else {
      assert before[index] == None;
      SingleEmptyIndex(before, index);
      assert EmptyIndices(board) == EmptyIndices(before) + [];
    }
  }

  /** The number of squares holding `p`. */
  function Count(board: seq<SquareValue>, p: Player): (n: nat)
    ensures n <= |board|
  {
    if |board| == 0 then 0
    else Count(board[..|board| - 1], p) + (if board[|board| - 1] == Some(p) then 1 else 0)
  }

  /** Placing `p` on an empty square adds one to the count of `p` and none to the other mark. */
  lemma {:induction false} CountPlace(board: seq<SquareValue>, i: nat, p: Player, q: Player)
    requires i < |board| && board[i] == None
    ensures Count(board[i := Some(p)], q) == Count(board, q) + (if p == q then 1 else 0)
  {
    var n := |board| - 1;
    var placed := board[i := Some(p)];
    if i == n {
      assert placed[..n] == board[..n];
    } else {
      assert placed[..n] == board[..n][i := Some(p)];
      CountPlace(board[..n], i, p, q);
    }
  }

  lemma {:induction false} CountEmpty(board: seq<SquareValue>, p: Player)
    requires forall i :: 0 <= i < |board| ==> board[i] == None
    ensures Count(board, p) == 0
  {
    if |board| > 0 {
      CountEmpty(board[..|board| - 1], p);
    }
  }

  /** A board holding one `p` and one mark of the other player, all other squares empty,
      holds one mark of each. */
  lemma CountOneEach(board: Board, i: Index, j: Index, p: Player)
    requires i != j && board[i] == Some(p) && board[j] == Some(Other(p))
    requires forall k :: 0 <= k < 9 && k != i && k != j ==> board[k] == None
    ensures Count(board, p) == 1 && Count(board, Other(p)) == 1
  {
    var placed := EmptyBoard()[i := Some(p)];
    assert board == placed[j := Some(Other(p))];
    CountEmpty(EmptyBoard(), p);
    CountEmpty(EmptyBoard(), Other(p));
    CountPlace(EmptyBoard(), i, p, p);
    CountPlace(EmptyBoard(), i, p, Other(p));
    CountPlace(placed, j, Other(p), p);
    CountPlace(placed, j, Other(p), Other(p));
  }

  /** A value of `Math.random()`: the fraction `num / den`, which lies in [0, 1). */
  datatype Fraction = Fraction(num: nat, den: nat)
  type Random = f: Fraction | f.num < f.den witness Fraction(0, 1)

  /** `Math.floor(random * n)`: a slot of a list of length `n`. */
  function Slot(random: Random, n: nat): (k: nat)
    requires n > 0
    ensures k < n
    ensures n == 1 ==> k == 0
  {
    SlotBound(random, n);
    random.num * n / random.den
  }

  /** Every slot can be drawn: the random value `k / n` picks slot `k`. */
  lemma SlotReaches(k: nat, n: nat)
    requires k < n
    ensures Slot(Fraction(k, n), n) == k
  {
    var q, r := k * n / n, k * n % n;
    assert (k - q) * n == r by {
      assert k * n == q * n + r;
    }
    MulSign(k - q, n);
  }

  /** A product with a positive factor `n` is at least `n` when the other factor is positive and
      at most `-n` when it is negative. */
  lemma MulSign(d: int, n: int)
    requires n >= 0
    ensures d >= 1 ==> d * n >= n
    ensures d <= -1 ==> d * n <= -n
  {
    if d >= 1 {
      assert d * n == n + (d - 1) * n;
    } else if d <= -1 {
      assert d * n == -n + (d + 1) * n;
    }
  }

  lemma SlotBound(random: Random, n: nat)
    requires n > 0
    ensures random.num * n / random.den < n
  {
    var a, d := random.num * n, random.den;
    assert a < d * n by {
      assert random.num * n < random.den * n;
    }
    var q := a / d;
    assert q * d <= a;
  }
}

/** The session of one game as a value, and the transitions the controller in app.py
    performs on it: the radio choice of who plays first, the start button, a click on a
    cell (the human move with its chained opponent answer) and restart. */
module Turns {
  import opened Rules
  import opened Policy

  /** The session fields: `board`, `winner`, `game_over`, `ai_first`, `game_started`. */
  datatype Session = Session(board: seq<int>, winner: Option<int>, gameOver: bool,
                             aiFirst: bool, gameStarted: bool)

  /** The values a new session is given. */
  function Initial(): Session {
    Session(Zeros, None, false, false, false)
  }

  /** The first-player choice; it is only offered while the game has not started. */
  function Choose(s: Session, aiFirst: bool): Session {
    if s.gameStarted then s else s.(aiFirst := aiFirst)
  }

  /** The start button, offered only while the game has not started: the game starts and,
      when the opponent plays first, it places a mark. The result is not evaluated. */
  function Start(s: Session, predict: seq<int> -> Cell): Session
    requires |s.board| == 9
  {
    if s.gameStarted then s
    else if s.aiFirst then s.(gameStarted := true, board := AiPlacement(s.board, predict(s.board)))
    else s.(gameStarted := true)
  }

  /** A click on cell `index`: ignored on a taken cell or a finished game; otherwise the
      human's mark goes there and, unless that ends the game, the opponent answers once,
      the prediction being taken on the board as it then is. */
  function Click(s: Session, index: Cell, predict: seq<int> -> Cell): Session
    requires |s.board| == 9
  {
    if s.board[index] != Empty || s.gameOver then s
    else
      var afterHuman := s.board[index := Human];
      var w := CheckWinner(afterHuman);
      if w.Some? then s.(board := afterHuman, winner := w, gameOver := true)
      else
        var afterOpponent := AiPlacement(afterHuman, predict(afterHuman));
        var w' := CheckWinner(afterOpponent);
        if w'.Some? then s.(board := afterOpponent, winner := w', gameOver := true)
        else s.(board := afterOpponent)
  }

  /** Restart: an empty board, no result, not over, not started. */
  function Restart(s: Session): Session {
    s.(board := Zeros, winner := None, gameOver := false, gameStarted := false)
  }

  /** How far the opponent is ahead of the alternation: its marks minus the human's,
      minus one when it moved first. */
  function Balance(s: Session): int {
    var opponent: int := multiset(s.board)[Opponent];
    var human: int := multiset(s.board)[Human];
    opponent - human - (if s.aiFirst then 1 else 0)
  }

  /** What holds of every session the controller can reach. A finished game records the
      board's result; a running one has none; before the start the board is empty; once
      started, the players have alternated, the human being one move ahead at most when
      the game ended on the human's move. */
  predicate Coherent(s: Session) {
    && ValidBoard(s.board)
    && (s.gameOver <==> s.winner.Some?)
    && (s.gameOver ==> s.winner == CheckWinner(s.board))
    && (!s.gameOver ==> CheckWinner(s.board) == None)
    && (!s.gameStarted ==> s.board == Zeros && !s.gameOver)
    && (s.gameStarted ==> -1 <= Balance(s) <= 0)
    && (s.gameStarted && !s.gameOver ==> Balance(s) == 0)
  }

  lemma InitialCoherent()
    ensures Coherent(Initial())
  {
    EmptyBoardUndecided();
  }

  lemma ChooseKeepsCoherent(s: Session, aiFirst: bool)
    requires Coherent(s)
    ensures Coherent(Choose(s, aiFirst))
  {
  }

  /** Starting keeps the invariant: from the empty board one opponent mark cannot end the game. */
  lemma StartKeepsCoherent(s: Session, predict: seq<int> -> Cell)
    requires Coherent(s)
    ensures Coherent(Start(s, predict))
  {
    if !s.gameStarted {
      var move := predict(s.board);
      SingleMarkUndecided(move, Opponent);
      EmptyBoardUndecided();
      PlaceCounts(Zeros, move, Opponent);
    }
  }

  /** A click on a started game keeps the invariant. (The cell buttons that issue clicks
      exist only once the game has started.) */
  lemma ClickKeepsCoherent(s: Session, index: Cell, predict: seq<int> -> Cell)
    requires Coherent(s) && s.gameStarted
    ensures Coherent(Click(s, index, predict))
  {
    if s.board[index] == Empty && !s.gameOver {
      var afterHuman := s.board[index := Human];
      PlaceCounts(s.board, index, Human);
      if CheckWinner(afterHuman).Some? {
        ResultRange(afterHuman);
      } else {
        var afterOpponent := AiPlacement(afterHuman, predict(afterHuman));
        PlacementKeepsMarks(afterHuman, predict(afterHuman));
        PlacementCounts(afterHuman, predict(afterHuman));
      }
    }
  }

  /** Restart leads to a coherent session whatever the session was. */
  lemma RestartCoherent(s: Session)
    ensures Coherent(Restart(s))
  {
    InitialCoherent();
  }

  /** A click on a taken cell, or on a finished game, changes nothing. */
  lemma ClickIgnored(s: Session, index: Cell, predict: seq<int> -> Cell)
    requires |s.board| == 9 && (s.board[index] != Empty || s.gameOver)
    ensures Click(s, index, predict) == s
  {
  }

  /** A human move that ends the game records its result, and the opponent does not move:
      the only change to the board is the human's mark. */
  lemma HumanMoveEndsGame(s: Session, index: Cell, predict: seq<int> -> Cell)
    requires |s.board| == 9 && s.board[index] == Empty && !s.gameOver
    requires CheckWinner(s.board[index := Human]).Some?
    ensures var t := Click(s, index, predict);
      t.board == s.board[index := Human] && t.gameOver && t.winner == CheckWinner(t.board) &&
      t.aiFirst == s.aiFirst && t.gameStarted == s.gameStarted
  {
  }

  /** A human move that does not end the game is followed by exactly one opponent mark in
      another empty cell, chosen by the placement policy; the game is then over exactly
      when the new board has a result, and that result is recorded (otherwise `winner`
      is left as it was). */
  lemma HumanMoveAnswered(s: Session, index: Cell, predict: seq<int> -> Cell)
    requires |s.board| == 9 && s.board[index] == Empty && !s.gameOver
    requires CheckWinner(s.board[index := Human]) == None
    ensures var t := Click(s, index, predict);
      var afterHuman := s.board[index := Human];
      (exists i :: 0 <= i < 9 && i != index && s.board[i] == Empty &&
                   t.board == afterHuman[i := Opponent]) &&
      t.board == AiPlacement(afterHuman, predict(afterHuman)) &&
      (t.gameOver <==> CheckWinner(t.board).Some?) &&
      t.winner == (if t.gameOver then CheckWinner(t.board) else s.winner) &&
      t.aiFirst == s.aiFirst && t.gameStarted == s.gameStarted
  {
    var afterHuman := s.board[index := Human];
    PlacesOneMark(afterHuman, predict(afterHuman));
  }

  /** Every cell stays one of the three marks through a click. */
  lemma ClickKeepsMarks(s: Session, index: Cell, predict: seq<int> -> Cell)
    requires ValidBoard(s.board)
    ensures ValidBoard(Click(s, index, predict).board)
  {
    var afterHuman := s.board[index := Human];
    PlacementKeepsMarks(afterHuman, predict(afterHuman));
  }

  /** A click never overwrites a mark already on the board; it only fills empty cells. */
  lemma ClickNeverOverwrites(s: Session, index: Cell, predict: seq<int> -> Cell)
    requires |s.board| == 9
    ensures var t := Click(s, index, predict);
      |t.board| == 9 && forall i :: 0 <= i < 9 && s.board[i] != Empty ==> t.board[i] == s.board[i]
  {
    if s.board[index] == Empty && !s.gameOver {
      var afterHuman := s.board[index := Human];
      if CheckWinner(afterHuman).None? && !AllFilled(afterHuman) {
        PlacesOneMark(afterHuman, predict(afterHuman));
      }
    }
  }

  /** Starting with the opponent first from an empty, unstarted session leaves the game
      started with exactly one opponent mark and every other cell empty. */
  lemma OpponentFirstPlacesOne(s: Session, predict: seq<int> -> Cell)
    requires !s.gameStarted && !s.gameOver && s.aiFirst && s.board == Zeros
    ensures var t := Start(s, predict);
      t.gameStarted && !t.gameOver && t.board == Zeros[predict(Zeros) := Opponent] &&
      multiset(t.board)[Opponent] == 1 && multiset(t.board)[Empty] == 8 &&
      CheckWinner(t.board) == None
  {
    var move := predict(Zeros);
    PlaceCounts(Zeros, move, Opponent);
    SingleMarkUndecided(move, Opponent);
  }

  /** From the initial session, choosing the opponent and pressing start gives a started
      game with exactly one opponent mark. */
  lemma InitialOpponentFirst(predict: seq<int> -> Cell)
    ensures var t := Start(Choose(Initial(), true), predict);
      t.gameStarted && !t.gameOver && multiset(t.board)[Opponent] == 1 &&
      multiset(t.board)[Empty] == 8
  {
    OpponentFirstPlacesOne(Choose(Initial(), true), predict);
  }

  /** Example: on an empty started board the human takes cell 0 and the opponent, predicting
      cell 4, answers there; the game goes on. */
  lemma OpeningExample(predict: seq<int> -> Cell)
    requires predict([1, 0, 0, 0, 0, 0, 0, 0, 0]) == 4
    ensures var t := Click(Start(Initial(), predict), 0, predict);
      t.board == [1, 0, 0, 0, 2, 0, 0, 0, 0] && t.winner == None && !t.gameOver
  {
    var afterHuman := Zeros[0 := Human];
    assert afterHuman == [1, 0, 0, 0, 0, 0, 0, 0, 0];
    SingleMarkUndecided(0, Human);
    var b := afterHuman[4 := Opponent];
    forall j | 0 <= j < |Lines|
      ensures !Holds(b, j)
    {
      var (x, y, z) := Lines[j];
    }
  }

  /** Example: the human completes the top row on cell 2 and wins; the opponent is not asked. */
  lemma HumanWinExample(predict: seq<int> -> Cell, aiFirst: bool)
    ensures var s := Session([1, 1, 0, 2, 2, 0, 0, 0, 0], None, false, aiFirst, true);
      var t := Click(s, 2, predict);
      t.board == [1, 1, 1, 2, 2, 0, 0, 0, 0] && t.winner == Some(Human) && t.gameOver
  {
    var b := [1, 1, 0, 2, 2, 0, 0, 0, 0][2 := Human];
    FirstLineDecides(b, 0);
  }

  /** A human move into the last empty cell that completes no line is a draw; the opponent
      is not asked. */
  lemma LastCellDraw(s: Session, index: Cell, predict: seq<int> -> Cell)
    requires |s.board| == 9 && !s.gameOver && s.board[index] == Empty
    requires forall i :: 0 <= i < 9 && i != index ==> s.board[i] != Empty
    requires NoLine(s.board[index := Human])
    ensures var t := Click(s, index, predict);
      t.board == s.board[index := Human] && t.winner == Some(Empty) && t.gameOver
  {
  }
}

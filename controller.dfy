/** The session object of app.py: the board is updated in place, cell by cell, and the
    flags are fields the operations assign. Each operation is proved against its
    transition in module Turns. */
module Controller {
  import opened Rules
  import opened Policy
  import opened Turns

  class GameSession {
    var board: array<int>
    var winner: Option<int>
    var gameOver: bool
    var aiFirst: bool
    var gameStarted: bool

    /** The board has nine cells, each holding one of the three marks. */
    ghost predicate Valid()
      reads this, board
    {
      board.Length == 9 && ValidBoard(board[..])
    }

    /** The session as a value. */
    ghost function State(): Session
      reads this, board
    {
      Session(board[..], winner, gameOver, aiFirst, gameStarted)
    }

    /** A new session with the initial values. */
    constructor ()
      ensures Valid() && fresh(board)
      ensures State() == Initial()
    {
      board := new int[9](_ => Empty);
      winner := None;
      gameOver := false;
      aiFirst := false;
      gameStarted := false;
      new;
      assert board[..] == Zeros;
    }

    /** The opponent's move: it asks `predict` for a cell on the current board and places
        its mark there if the cell is empty, otherwise in the first empty cell. */
    method AiMove(predict: seq<int> -> Cell)
      requires Valid()
      modifies board
      ensures Valid()
      ensures board[..] == AiPlacement(old(board[..]), predict(old(board[..])))
    {
      PlacementKeepsMarks(board[..], predict(board[..]));
      var move := predict(board[..]);
      if board[move] == Empty {
        board[move] := Opponent;
      } else {
        var i := 0;
        while i < 9
          invariant 0 <= i <= 9
          invariant board[..] == old(board[..])
          invariant forall j :: 0 <= j < i ==> board[j] != Empty
        {
          if board[i] == Empty {
            board[i] := Opponent;
            break;
          }
          i := i + 1;
        }
      }
    }

    /** A click on cell `index`. */
    method HandleClick(index: Cell, predict: seq<int> -> Cell)
      requires Valid()
      modifies this, board
      ensures Valid() && board == old(board)
      ensures State() == Click(old(State()), index, predict)
    {
      if board[index] == Empty && !gameOver {
        board[index] := Human;
        var w := CheckWinner(board[..]);
        if w.Some? {
          winner := w;
          gameOver := true;
          return;
        }
        AiMove(predict);
        w := CheckWinner(board[..]);
        if w.Some? {
          winner := w;
          gameOver := true;
        }
      }
    }

    /** Restart: a new empty board, and the result and the started flag cleared;
        the first-player choice is kept. */
    method RestartGame()
      modifies this
      ensures Valid() && fresh(board)
      ensures State() == Restart(old(State()))
    {
      board := new int[9](_ => Empty);
      winner := None;
      gameOver := false;
      gameStarted := false;
      assert board[..] == Zeros;
    }

    /** The first-player choice, offered only while the game has not started. */
    method ChooseFirst(opponentFirst: bool)
      requires Valid()
      modifies this
      ensures Valid() && board == old(board)
      ensures State() == Choose(old(State()), opponentFirst)
    {
      if !gameStarted {
        aiFirst := opponentFirst;
      }
    }

    /** The start button, offered only while the game has not started. */
    method StartGame(predict: seq<int> -> Cell)
      requires Valid()
      modifies this, board
      ensures Valid() && board == old(board)
      ensures State() == Start(old(State()), predict)
    {
      if !gameStarted {
        gameStarted := true;
        if aiFirst {
          AiMove(predict);
        }
      }
    }
  }

  /** A short game driven through the session object: the human plays first, takes
      cell 0, and the opponent (always predicting cell 4) answers there. */
  method OpeningPlay() returns (g: GameSession)
    ensures fresh(g) && g.Valid()
    ensures g.board[..] == [1, 0, 0, 0, 2, 0, 0, 0, 0] && !g.gameOver && g.winner == None
  {
    var predict: seq<int> -> Cell := _ => 4;
    g := new GameSession();
    g.ChooseFirst(false);
    g.StartGame(predict);
    g.HandleClick(0, predict);
    OpeningExample(predict);
  }
}

/** The board and its result evaluation (`check_winner` in app.py).

    A board is the list of nine integers the session keeps, row-major:
        0 1 2
        3 4 5
        6 7 8
    where 0 is an empty cell, 1 the human's mark and 2 the opponent's. */
module Rules {

  datatype Option<T> = None | Some(value: T)

  /** A cell index. */
  type Cell = i: int | 0 <= i < 9

  const Empty := 0
  const Human := 1
  const Opponent := 2

  /** The all-empty board a session starts from. */
  const Zeros: seq<int> := [0, 0, 0, 0, 0, 0, 0, 0, 0]

  /** A board holding only the three marks. */
  predicate ValidBoard(b: seq<int>) {
    |b| == 9 && forall i :: 0 <= i < 9 ==> Empty <= b[i] <= Opponent
  }

  /** The eight winning triples, in the order they are scanned:
      rows, then columns, then the two diagonals. */
  const Lines: seq<(Cell, Cell, Cell)> :=
    [(0, 1, 2), (3, 4, 5), (6, 7, 8),
     (0, 3, 6), (1, 4, 7), (2, 5, 8),
     (0, 4, 8), (2, 4, 6)]

  /** Line `j` holds: its three cells carry one and the same non-empty mark. */
  predicate Holds(b: seq<int>, j: nat)
    requires |b| == 9 && j < |Lines|
  {
    var (x, y, z) := Lines[j];
    b[x] == b[y] && b[y] == b[z] && b[z] != Empty
  }

  /** The mark in the first cell of line `j`. */
  function LineMark(b: seq<int>, j: nat): int
    requires |b| == 9 && j < |Lines|
  {
    b[Lines[j].0]
  }

  predicate NoLine(b: seq<int>)
    requires |b| == 9
  {
    forall j :: 0 <= j < |Lines| ==> !Holds(b, j)
  }

  predicate AllFilled(b: seq<int>)
    requires |b| == 9
  {
    forall i :: 0 <= i < 9 ==> b[i] != Empty
  }

  /** Mark `m` owns some line of `b`. */
  predicate HasWon(b: seq<int>, m: int)
    requires |b| == 9
  {
    exists j :: 0 <= j < |Lines| && Holds(b, j) && LineMark(b, j) == m
  }

  /** The scan over the winning patterns from pattern `j` on: the mark of a line
      that holds, or None when none of them does. */
  function ScanLines(b: seq<int>, j: nat): (r: Option<int>)
    requires |b| == 9 && j <= |Lines|
    ensures r.None? <==> forall k :: j <= k < |Lines| ==> !Holds(b, k)
    ensures r.Some? ==> exists k :: j <= k < |Lines| && Holds(b, k) && r.value == LineMark(b, k)
    decreases |Lines| - j
  {
    if j == |Lines| then None
    else if Holds(b, j) then Some(LineMark(b, j))
    else ScanLines(b, j + 1)
  }

  /** The result of a board: Some(m) with m != 0 when mark m owns a line,
      Some(0) for a draw (no line, every cell filled), None while the game goes on. */
  function CheckWinner(b: seq<int>): (r: Option<int>)
    requires |b| == 9
    ensures (r.Some? && r.value != Empty) <==> !NoLine(b)
    ensures r.Some? && r.value != Empty ==> HasWon(b, r.value)
    ensures r == Some(Empty) <==> NoLine(b) && AllFilled(b)
    ensures r == None <==> NoLine(b) && !AllFilled(b)
  {
    var w := ScanLines(b, 0);
    if w.Some? then w
    else if AllFilled(b) then Some(Empty)
    else None
  }

  /** The scan stops at the first line that holds. */
  lemma {:induction false} ScanFindsFirst(b: seq<int>, j: nat, k: nat)
    requires |b| == 9 && j <= k < |Lines| && Holds(b, k)
    requires forall i :: j <= i < k ==> !Holds(b, i)
    ensures ScanLines(b, j) == Some(LineMark(b, k))
    decreases k - j
  {
    if j < k {
      ScanFindsFirst(b, j + 1, k);
    }
  }

  /** When several lines hold, the first one in scan order decides the result. */
  lemma FirstLineDecides(b: seq<int>, k: nat)
    requires |b| == 9 && k < |Lines| && Holds(b, k)
    requires forall i :: 0 <= i < k ==> !Holds(b, i)
    ensures CheckWinner(b) == Some(LineMark(b, k))
  {
    ScanFindsFirst(b, 0, k);
  }

  /** A mark that owns a line, on a board where no other mark owns one, is the result. */
  lemma SoleOwnerWins(b: seq<int>, m: int)
    requires |b| == 9 && HasWon(b, m)
    requires forall j :: 0 <= j < |Lines| && Holds(b, j) ==> LineMark(b, j) == m
    ensures m != Empty && CheckWinner(b) == Some(m)
  {
  }

  /** On a board of marks the result is None, a draw or one of the two players. */
  lemma ResultRange(b: seq<int>)
    requires ValidBoard(b)
    ensures CheckWinner(b) in {None, Some(Empty), Some(Human), Some(Opponent)}
  {
  }

  /** The board where line `k` carries mark `m` and every other cell is empty. */
  function LineBoard(k: nat, m: int): (b: seq<int>)
    requires k < |Lines|
    ensures |b| == 9
  {
    var (x, y, z) := Lines[k];
    seq(9, i => if i == x || i == y || i == z then m else Empty)
  }

  /** Each of the eight triples, alone on the board with one player's mark, wins for that player. */
  lemma LoneLineWins(k: nat, m: int)
    requires k < |Lines| && m != Empty
    ensures CheckWinner(LineBoard(k, m)) == Some(m)
  {
    var b := LineBoard(k, m);
    assert Holds(b, k);
    SoleOwnerWins(b, m);
  }

  /** The empty board has no line and is not full. */
  lemma EmptyBoardUndecided()
    ensures CheckWinner(Zeros) == None
  {
  }

  /** A board with at most one non-empty cell has no line and is not full. */
  lemma SingleMarkUndecided(i: Cell, m: int)
    ensures CheckWinner(Zeros[i := m]) == None
  {
  }
}

/** The opponent's placement policy (`ai_move` in app.py): the predicted cell when it is
    empty, otherwise the lowest-indexed empty cell, otherwise nothing. */
module Policy {
  import opened Rules

  /** The fallback scan from cell `i` on: the first empty cell at or after `i`,
      or 9 when every cell from `i` on is taken. */
  function FirstEmptyFrom(b: seq<int>, i: nat): (r: nat)
    requires |b| == 9 && i <= 9
    ensures i <= r <= 9
    ensures r < 9 ==> b[r] == Empty
    ensures forall j :: i <= j < r ==> b[j] != Empty
    decreases 9 - i
  {
    if i == 9 then 9
    else if b[i] == Empty then i
    else FirstEmptyFrom(b, i + 1)
  }

  /** The board after the opponent has answered with predicted cell `move`. */
  function AiPlacement(b: seq<int>, move: Cell): (r: seq<int>)
    requires |b| == 9
    ensures |r| == 9
    ensures b[move] == Empty ==> r == b[move := Opponent]
    ensures b[move] != Empty && !AllFilled(b) ==>
      exists i :: 0 <= i < 9 && b[i] == Empty && (forall j :: 0 <= j < i ==> b[j] != Empty) &&
                  r == b[i := Opponent]
    ensures AllFilled(b) ==> r == b
  {
    if b[move] == Empty then b[move := Opponent]
    else
      var i := FirstEmptyFrom(b, 0);
      if i < 9 then b[i := Opponent] else b
  }

  /** While some cell is empty the opponent places exactly one mark, in an empty cell,
      and leaves every other cell as it was. */
  lemma PlacesOneMark(b: seq<int>, move: Cell)
    requires |b| == 9 && !AllFilled(b)
    ensures exists i :: 0 <= i < 9 && b[i] == Empty && AiPlacement(b, move) == b[i := Opponent]
  {
  }

  /** Placing one player's mark in an empty cell adds one to that player's count and
      leaves the other player's count alone. */
  lemma PlaceCounts(b: seq<int>, i: Cell, m: int)
    requires |b| == 9 && b[i] == Empty && m != Empty
    ensures multiset(b[i := m])[m] == multiset(b)[m] + 1
    ensures forall o :: o != Empty && o != m ==> multiset(b[i := m])[o] == multiset(b)[o]
  {
  }

  /** The opponent's answer keeps every cell one of the three marks. */
  lemma PlacementKeepsMarks(b: seq<int>, move: Cell)
    requires ValidBoard(b)
    ensures ValidBoard(AiPlacement(b, move))
  {
    if !AllFilled(b) {
      PlacesOneMark(b, move);
    }
  }

  /** The opponent adds one mark of its own when a cell is free, none when the board is full,
      and never touches the human's marks. */
  lemma PlacementCounts(b: seq<int>, move: Cell)
    requires |b| == 9
    ensures var r := AiPlacement(b, move);
      multiset(r)[Opponent] == multiset(b)[Opponent] + (if AllFilled(b) then 0 else 1) &&
      multiset(r)[Human] == multiset(b)[Human]
  {
    if !AllFilled(b) {
      PlacesOneMark(b, move);
      var i :| 0 <= i < 9 && b[i] == Empty && AiPlacement(b, move) == b[i := Opponent];
      PlaceCounts(b, i, Opponent);
    }
  }
}

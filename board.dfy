/** The 3x3 board of the game: what a cell holds, the eight lines, the verdict
    (over, draw or ongoing) that is recomputed after every move, and the Board
    object that applies and reverts moves in place. */
module Game {

  /** A player's mark. */
  datatype Mark = X | O

  /** What a cell holds: the empty string or a mark. */
  datatype Cell = Empty | Marked(mark: Mark)

  /** The three values of the game state: OVER, DRAW and ONGOING. */
  datatype State = Over | Draw | Ongoing

  /** The board's `winner` field: not yet assigned, a mark, or the text "Draw". */
  datatype Winner = Unset | Player(mark: Mark) | DrawMarker

  /** What `updateState` assigns: the state, and the winner when the game has ended. */
  datatype Verdict = Verdict(state: State, winner: Winner)

  /** Number of cells; index = row * 3 + column. */
  const Size: nat := 9

  /** A line of three cells, given by their indices. */
  datatype Line = Line(a: nat, b: nat, c: nat)

  /** The reference list of winning lines: three rows, three columns, two diagonals. */
  const Lines: seq<Line> :=
    [Line(0, 1, 2), Line(3, 4, 5), Line(6, 7, 8),
     Line(0, 3, 6), Line(1, 4, 7), Line(2, 5, 8),
     Line(0, 4, 8), Line(2, 4, 6)]

  /** Mark m occupies all three cells of line l. */
  predicate HeldBy(cells: seq<Cell>, l: Line, m: Mark)
  {
    l.a < |cells| && l.b < |cells| && l.c < |cells| &&
    cells[l.a] == Marked(m) && cells[l.b] == Marked(m) && cells[l.c] == Marked(m)
  }

  /** Mark m holds at least one of the eight lines. */
  predicate Wins(cells: seq<Cell>, m: Mark)
  {
    exists k :: 0 <= k < |Lines| && HeldBy(cells, Lines[k], m)
  }

  /** Some mark holds all three cells of line l. */
  predicate Complete(cells: seq<Cell>, l: Line)
  {
    exists m :: HeldBy(cells, l, m)
  }

  /** `completeRow`: row `row` holds three equal, non-empty cells. */
  predicate CompleteRow(cells: seq<Cell>, row: nat)
    requires |cells| == Size && row < 3
  {
    cells[row * 3] != Empty && cells[row * 3] == cells[row * 3 + 1] && cells[row * 3 + 1] == cells[row * 3 + 2]
  }

  /** `completeColumn`: column `col` holds three equal, non-empty cells. */
  predicate CompleteColumn(cells: seq<Cell>, col: nat)
    requires |cells| == Size && col < 3
  {
    cells[col] != Empty && cells[col] == cells[col + 3] && cells[col + 3] == cells[col + 2 * 3]
  }

  /** `completeFirstDiagonal`: cells 0, 4 and 8 are equal and non-empty. */
  predicate CompleteFirstDiagonal(cells: seq<Cell>)
    requires |cells| == Size
  {
    cells[0] != Empty && cells[0] == cells[4] && cells[4] == cells[8]
  }

  /** `completeSecondDiagonal`: cells 6, 4 and 2 are equal and non-empty. */
  predicate CompleteSecondDiagonal(cells: seq<Cell>)
    requires |cells| == Size
  {
    cells[6] != Empty && cells[6] == cells[4] && cells[4] == cells[2]
  }

  /** The eight tests of the source are the eight lines of the reference list:
      each holds exactly when some mark occupies the whole line. */
  lemma TestsMatchLines(cells: seq<Cell>)
    requires |cells| == Size
    ensures CompleteRow(cells, 0) <==> Complete(cells, Lines[0])
    ensures CompleteRow(cells, 1) <==> Complete(cells, Lines[1])
    ensures CompleteRow(cells, 2) <==> Complete(cells, Lines[2])
    ensures CompleteColumn(cells, 0) <==> Complete(cells, Lines[3])
    ensures CompleteColumn(cells, 1) <==> Complete(cells, Lines[4])
    ensures CompleteColumn(cells, 2) <==> Complete(cells, Lines[5])
    ensures CompleteFirstDiagonal(cells) <==> Complete(cells, Lines[6])
    ensures CompleteSecondDiagonal(cells) <==> Complete(cells, Lines[7])
  {
    if CompleteRow(cells, 0) { assert HeldBy(cells, Lines[0], cells[0].mark); }
    if CompleteRow(cells, 1) { assert HeldBy(cells, Lines[1], cells[3].mark); }
    if CompleteRow(cells, 2) { assert HeldBy(cells, Lines[2], cells[6].mark); }
    if CompleteColumn(cells, 0) { assert HeldBy(cells, Lines[3], cells[0].mark); }
    if CompleteColumn(cells, 1) { assert HeldBy(cells, Lines[4], cells[1].mark); }
    if CompleteColumn(cells, 2) { assert HeldBy(cells, Lines[5], cells[2].mark); }
    if CompleteFirstDiagonal(cells) { assert HeldBy(cells, Lines[6], cells[0].mark); }
    if CompleteSecondDiagonal(cells) { assert HeldBy(cells, Lines[7], cells[2].mark); }
  }

  /** `isTerminal`: no cell is empty (the name notwithstanding, a won board
      with empty cells is not "terminal" in this sense). */
  predicate IsTerminal(cells: seq<Cell>)
  {
    !(exists k :: 0 <= k < |cells| && cells[k] == Empty)
  }

  /** The indices from `from` onwards whose cell is empty, in ascending order. */
  function MovesFrom(cells: seq<Cell>, from: nat): seq<nat>
    requires from <= |cells|
    decreases |cells| - from
  {
    if from == |cells| then []
    else if cells[from] == Empty then [from] + MovesFrom(cells, from + 1)
    else MovesFrom(cells, from + 1)
  }

  /** `getPossibleMoves`: the empty cells' indices in ascending order. */
  function PossibleMoves(cells: seq<Cell>): seq<nat>
  {
    MovesFrom(cells, 0)
  }

  /** MovesFrom lists exactly the empty cells from `from` on, strictly ascending. */
  lemma {:induction false} MovesFromExact(cells: seq<Cell>, from: nat)
    requires from <= |cells|
    ensures forall j :: 0 <= j < |MovesFrom(cells, from)| ==>
              from <= MovesFrom(cells, from)[j] < |cells| && cells[MovesFrom(cells, from)[j]] == Empty
    ensures forall i :: from <= i < |cells| && cells[i] == Empty ==> i in MovesFrom(cells, from)
    ensures forall p, q :: 0 <= p < q < |MovesFrom(cells, from)| ==> MovesFrom(cells, from)[p] < MovesFrom(cells, from)[q]
    decreases |cells| - from
  {
    if from < |cells| {
      MovesFromExact(cells, from + 1);
    }
  }

  /** Filled cells contribute no move: MovesFrom skips a run of them. */
  lemma {:induction false} MovesFromSkipsFilled(cells: seq<Cell>, from: nat, to: nat)
    requires from <= to <= |cells|
    requires forall k :: from <= k < to ==> cells[k] != Empty
    ensures MovesFrom(cells, from) == MovesFrom(cells, to)
    decreases |cells| - from
  {
    if from < to {
      MovesFromSkipsFilled(cells, from + 1, to);
    }
  }

  /** Every possible move is an empty cell of the board: the first clause of
      PossibleMovesExact alone, the short form that the preconditions of the
      search functions need. */
  lemma PossibleMovesAreEmpty(cells: seq<Cell>)
    ensures forall j :: 0 <= j < |PossibleMoves(cells)| ==>
              PossibleMoves(cells)[j] < |cells| && cells[PossibleMoves(cells)[j]] == Empty
  {
    MovesFromExact(cells, 0);
  }

  /** The possible moves are exactly the empty cells, each once, strictly
      ascending. The list depends on the cells alone, so a won board still has moves. */
  lemma PossibleMovesExact(cells: seq<Cell>)
    ensures forall j :: 0 <= j < |PossibleMoves(cells)| ==>
              PossibleMoves(cells)[j] < |cells| && cells[PossibleMoves(cells)[j]] == Empty
    ensures forall i :: 0 <= i < |cells| && cells[i] == Empty ==> i in PossibleMoves(cells)
    ensures forall p, q :: 0 <= p < q < |PossibleMoves(cells)| ==> PossibleMoves(cells)[p] < PossibleMoves(cells)[q]
  {
    MovesFromExact(cells, 0);
  }

  /** A board has no empty cell exactly when it has no possible move. */
  lemma TerminalIffNoMoves(cells: seq<Cell>)
    ensures IsTerminal(cells) <==> PossibleMoves(cells) == []
  {
    var r := PossibleMoves(cells);
    PossibleMovesExact(cells);
    if r != [] {
      assert cells[r[0]] == Empty;
    }
    if !IsTerminal(cells) {
      var k :| 0 <= k < |cells| && cells[k] == Empty;
      assert k in r;
    }
  }

  /** A sequence without repeated entries has as many elements as its set. */
  lemma {:induction false} DistinctCard(s: seq<nat>)
    requires forall p, q :: 0 <= p < q < |s| ==> s[p] != s[q]
    ensures |(set x: nat | x in s)| == |s|
  {
    if s != [] {
      DistinctCard(s[1..]);
      assert (set x: nat | x in s) == {s[0]} + (set x: nat | x in s[1..]);
    }
  }

  /** Two disjoint sets of cell indices hold at most nine indices together. */
  lemma DisjointCellSets(a: set<nat>, b: set<nat>)
    requires a * b == {}
    requires forall x :: x in a + b ==> x < Size
    ensures |a| + |b| <= Size
  {
    var all: set<nat> := {0, 1, 2, 3, 4, 5, 6, 7, 8};
    assert a + b <= all by {
      forall x | x in a + b
        ensures x in all
      {
        assert x < Size;
      }
    }
    assert |all| == Size;
    assert |all| == |a + b| + |all - (a + b)|;
  }

  /** Two disjoint sets that cover all nine cell indices hold exactly nine. */
  lemma CoveringCellSets(a: set<nat>, b: set<nat>)
    requires a * b == {}
    requires forall x :: x in a + b ==> x < Size
    requires forall x: nat :: x < Size ==> x in a || x in b
    ensures |a| + |b| == Size
  {
    DisjointCellSets(a, b);
    var all: set<nat> := {0, 1, 2, 3, 4, 5, 6, 7, 8};
    assert all <= a + b by {
      forall x | x in all
        ensures x in a + b
      {
        assert x < Size;
      }
    }
    assert |all| == Size;
    assert |a + b| == |all| + |(a + b) - all|;
  }

  /** A history of distinct filled cells and the list of empty cells never
      hold more than nine indices together. */
  lemma HistoryAndMovesFit(cells: seq<Cell>, history: seq<nat>)
    requires |cells| == Size
    requires forall k :: 0 <= k < |history| ==> history[k] < Size && cells[history[k]] != Empty
    requires forall p, q :: 0 <= p < q < |history| ==> history[p] != history[q]
    ensures |PossibleMoves(cells)| + |history| <= Size
  {
    var moves := PossibleMoves(cells);
    PossibleMovesExact(cells);
    DistinctCard(history);
    DistinctCard(moves);
    DisjointCellSets(set x: nat | x in history, set x: nat | x in moves);
  }

  /** When every filled cell is on the history, the history and the list of
      empty cells hold all nine indices between them. */
  lemma HistoryAndMovesFill(cells: seq<Cell>, history: seq<nat>)
    requires |cells| == Size
    requires forall k :: 0 <= k < |history| ==> history[k] < Size && cells[history[k]] != Empty
    requires forall p, q :: 0 <= p < q < |history| ==> history[p] != history[q]
    requires forall i :: 0 <= i < Size && cells[i] != Empty ==> i in history
    ensures |PossibleMoves(cells)| + |history| == Size
  {
    var moves := PossibleMoves(cells);
    PossibleMovesExact(cells);
    DistinctCard(history);
    DistinctCard(moves);
    var filled := set x: nat | x in history;
    var empty := set x: nat | x in moves;
    assert forall x: nat :: x < Size ==> x in filled || x in empty by {
      forall x: nat | x < Size
        ensures x in filled || x in empty
      {
        if cells[x] == Empty { assert x in moves; } else { assert x in history; }
      }
    }
    CoveringCellSets(filled, empty);
  }

  /** The set of empty cells; it shrinks with every move, which bounds the search. */
  function EmptyCells(cells: seq<Cell>): set<nat>
  {
    set k: nat | k < |cells| && cells[k] == Empty
  }

  /** Filling an empty cell removes exactly that cell from the empty ones. */
  lemma FillShrinks(cells: seq<Cell>, i: nat, m: Mark)
    requires i < |cells| && cells[i] == Empty
    ensures EmptyCells(cells[i := Marked(m)]) < EmptyCells(cells)
  {
    assert i in EmptyCells(cells);
  }

  /** The verdict `updateState` computes, as a function of the cells. The lines
      are tested in three groups; each group's winner is read from a cell that
      lies on every line of the group (cell 0, 4 or 8). */
  function Evaluate(cells: seq<Cell>): Verdict
    requires |cells| == Size
  {
    if CompleteRow(cells, 0) || CompleteColumn(cells, 0) then
      Verdict(Over, Player(cells[0].mark))
    else if CompleteRow(cells, 1) || CompleteColumn(cells, 1) || CompleteFirstDiagonal(cells) || CompleteSecondDiagonal(cells) then
      Verdict(Over, Player(cells[4].mark))
    else if CompleteRow(cells, 2) || CompleteColumn(cells, 2) then
      Verdict(Over, Player(cells[8].mark))
    else if IsTerminal(cells) then
      Verdict(Draw, DrawMarker)
    else
      Verdict(Ongoing, Unset)
  }

  /** A line held by some mark is one of the eight that updateState tests. */
  lemma {:induction false} HeldLineIsTested(cells: seq<Cell>, m: Mark)
    requires |cells| == Size && Wins(cells, m)
    ensures CompleteRow(cells, 0) || CompleteRow(cells, 1) || CompleteRow(cells, 2) ||
            CompleteColumn(cells, 0) || CompleteColumn(cells, 1) || CompleteColumn(cells, 2) ||
            CompleteFirstDiagonal(cells) || CompleteSecondDiagonal(cells)
  {
    var k :| 0 <= k < |Lines| && HeldBy(cells, Lines[k], m);
    if k == 0 { assert CompleteRow(cells, 0); }
    else if k == 1 { assert CompleteRow(cells, 1); }
    else if k == 2 { assert CompleteRow(cells, 2); }
    else if k == 3 { assert CompleteColumn(cells, 0); }
    else if k == 4 { assert CompleteColumn(cells, 1); }
    else if k == 5 { assert CompleteColumn(cells, 2); }
    else if k == 6 { assert CompleteFirstDiagonal(cells); }
    else { assert CompleteSecondDiagonal(cells); }
  }

  /** A mark that holds a listed line wins. */
  lemma LineWins(cells: seq<Cell>, k: nat, m: Mark)
    requires k < |Lines| && HeldBy(cells, Lines[k], m)
    ensures Wins(cells, m) && (Wins(cells, X) || Wins(cells, O))
  {
    if m == X { assert Wins(cells, X); } else { assert Wins(cells, O); }
  }

  /** The game is over exactly when some mark holds a line, and the winner is
      then a mark that holds a line. */
  lemma EvaluateOver(cells: seq<Cell>)
    requires |cells| == Size
    ensures Evaluate(cells).state == Over <==> Wins(cells, X) || Wins(cells, O)
    ensures Evaluate(cells).state == Over ==>
              Evaluate(cells).winner.Player? && Wins(cells, Evaluate(cells).winner.mark)
  {
    if Wins(cells, X) { HeldLineIsTested(cells, X); }
    if Wins(cells, O) { HeldLineIsTested(cells, O); }
    if CompleteRow(cells, 0) {
      LineWins(cells, 0, cells[0].mark);
    } else if CompleteColumn(cells, 0) {
      LineWins(cells, 3, cells[0].mark);
    } else if CompleteRow(cells, 1) {
      LineWins(cells, 1, cells[4].mark);
    } else if CompleteColumn(cells, 1) {
      LineWins(cells, 4, cells[4].mark);
    } else if CompleteFirstDiagonal(cells) {
      LineWins(cells, 6, cells[4].mark);
    } else if CompleteSecondDiagonal(cells) {
      LineWins(cells, 7, cells[4].mark);
    } else if CompleteRow(cells, 2) {
      LineWins(cells, 2, cells[8].mark);
    } else if CompleteColumn(cells, 2) {
      LineWins(cells, 5, cells[8].mark);
    }
  }

  /** A draw is a full board on which no mark holds a line; the game is ongoing
      exactly when no mark holds a line and some cell is empty. */
  lemma EvaluateNotOver(cells: seq<Cell>)
    requires |cells| == Size
    ensures Evaluate(cells).state == Draw <==> !Wins(cells, X) && !Wins(cells, O) && PossibleMoves(cells) == []
    ensures Evaluate(cells).state == Draw ==> Evaluate(cells).winner == DrawMarker
    ensures Evaluate(cells).state == Ongoing <==> !Wins(cells, X) && !Wins(cells, O) && PossibleMoves(cells) != []
  {
    EvaluateOver(cells);
    TerminalIffNoMoves(cells);
  }

  /** Placing mark m on an empty cell of a board where nobody holds a line
      cannot give the other mark a line: a game played from a board without a
      winner ends with at most one winning mark, and updateState names it. */
  lemma {:induction false} OnlyMoverCanWin(cells: seq<Cell>, i: nat, m: Mark, other: Mark)
    requires |cells| == Size && i < Size && cells[i] == Empty && other != m
    requires !Wins(cells, X) && !Wins(cells, O)
    ensures !Wins(cells[i := Marked(m)], other)
    ensures Evaluate(cells[i := Marked(m)]).state == Over ==>
              Evaluate(cells[i := Marked(m)]).winner == Player(m)
  {
    var next := cells[i := Marked(m)];
    EvaluateOver(next);
  }

  /** The board object: its nine cells (`cellsContent`),
      the stack of applied moves (`changedIndices`), `state` and `winner`. */
  class Board {
    var cells: seq<Cell>
    var history: seq<nat>
    var state: State
    var winner: Winner

    /** Nine cells; every index on the history stack is a filled cell, and no
        index is on it twice. */
    ghost predicate Valid()
      reads this
    {
      && |cells| == Size
      && (forall k :: 0 <= k < |history| ==> history[k] < Size && cells[history[k]] != Empty)
      && (forall p, q :: 0 <= p < q < |history| ==> history[p] != history[q])
    }

    /** `state` and `winner` are what updateState would assign for these cells
        (the winner only matters once the game has ended). */
    ghost predicate Consistent()
      reads this
      requires |cells| == Size
    {
      state == Evaluate(cells).state && (state != Ongoing ==> winner == Evaluate(cells).winner)
    }

    /** Every filled cell is on the history stack: true of a board that
        started empty and changed only through makeMove and revertLastMove. */
    ghost predicate Tracked()
      reads this
      requires |cells| == Size
    {
      forall i :: 0 <= i < Size && cells[i] != Empty ==> i in history
    }

    /** A board over nine given cells. Like the source, it starts ONGOING with
        an empty history, whatever the cells hold. */
    constructor (contents: seq<Cell>)
      requires |contents| == Size
      ensures Valid()
      ensures cells == contents && history == [] && state == Ongoing && winner == Unset
      ensures (forall i :: 0 <= i < Size ==> contents[i] == Empty) ==> Tracked()
    {
      cells := contents;
      history := [];
      state := Ongoing;
      winner := Unset;
    }

    /** `updateState`: recompute state and winner from the cells. On an ongoing
        board the winner field keeps whatever it held. */
    method UpdateState()
      requires |cells| == Size
      modifies this
      ensures cells == old(cells) && history == old(history)
      ensures Consistent()
      ensures state == Ongoing ==> winner == old(winner)
    {
      if CompleteRow(cells, 0) || CompleteColumn(cells, 0) {
        state := Over;
        winner := Player(cells[0].mark);
      } else if CompleteRow(cells, 1) || CompleteColumn(cells, 1) || CompleteFirstDiagonal(cells) || CompleteSecondDiagonal(cells) {
        state := Over;
        winner := Player(cells[4].mark);
      } else if CompleteRow(cells, 2) || CompleteColumn(cells, 2) {
        state := Over;
        winner := Player(cells[8].mark);
      } else if IsTerminal(cells) {
        state := Draw;
        winner := DrawMarker;
      } else {
        state := Ongoing;
      }
    }

    /** `makeMove`: push the index, write the mark, recompute the state. */
    method MakeMove(index: nat, marker: Mark := X)
      requires Valid() && index < Size && cells[index] == Empty
      modifies this
      ensures Valid() && Consistent()
      ensures cells == old(cells)[index := Marked(marker)]
      ensures history == old(history) + [index]
      ensures state == Ongoing ==> winner == old(winner)
      ensures old(Tracked()) ==> Tracked()
    {
      history := history + [index];
      cells := cells[index := Marked(marker)];
      UpdateState();
    }

    /** `revertLastMove`: pop the last index, empty that cell, recompute the state. */
    method RevertLastMove()
      requires Valid() && |history| > 0
      modifies this
      ensures Valid() && Consistent()
      ensures history == old(history)[..|old(history)| - 1]
      ensures cells == old(cells)[old(history)[|old(history)| - 1] := Empty]
      ensures state == Ongoing ==> winner == old(winner)
      ensures old(Tracked()) ==> Tracked()
    {
      var last := history[|history| - 1];
      history := history[..|history| - 1];
      cells := cells[last := Empty];
      UpdateState();
    }
  }

  /** makeMove followed by revertLastMove gives back the cells and the history,
      and on a board whose state was up to date, the state and winner too. */
  method MoveRoundTrip(board: Board, index: nat, marker: Mark)
    requires board.Valid() && index < Size && board.cells[index] == Empty
    modifies board
    ensures board.Valid()
    ensures board.cells == old(board.cells) && board.history == old(board.history)
    ensures old(board.Consistent()) ==> board.Consistent() && board.state == old(board.state)
  {
    board.MakeMove(index, marker);
    board.RevertLastMove();
    assert board.cells == old(board.cells);
  }

  /** On a tracked board the possible moves and the history stack number
      exactly nine together. */
  lemma TrackedBoardFills(board: Board)
    requires board.Valid() && board.Tracked()
    ensures |PossibleMoves(board.cells)| + |board.history| == Size
  {
    HistoryAndMovesFill(board.cells, board.history);
  }

  /** Top row taken by X: updateState declares X the winner, while the four
      empty cells are still listed as possible moves. */
  lemma WonBoardKeepsMoves()
    ensures var cells := [Marked(X), Marked(X), Marked(X), Marked(O), Marked(O), Empty, Empty, Empty, Empty];
            Evaluate(cells) == Verdict(Over, Player(X)) && PossibleMoves(cells) == [5, 6, 7, 8]
  {
  }

  /** A full board with no line taken is a draw. */
  lemma FullBoardIsDraw()
    ensures var cells := [Marked(X), Marked(O), Marked(X), Marked(X), Marked(O), Marked(O), Marked(O), Marked(X), Marked(X)];
            Evaluate(cells) == Verdict(Draw, DrawMarker) && PossibleMoves(cells) == []
  {
  }
}

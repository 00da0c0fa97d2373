/** The move search: `minMax`, a depth-weighted sum over every continuation of
    the game, and `getBestMove`, which keeps the first move of highest score.
    Both explore by applying and reverting moves on the one shared board. */
module Search {
  import opened Game

  datatype Option<T> = None | Some(value: T)

  /** `otherMark`: the opponent's mark. */
  function OtherMark(mark: Mark): (r: Mark)
    ensures r != mark
  {
    if mark == X then O else X
  }

  /** Swapping marks twice gives the mark back. */
  lemma OtherMarkInvolution(mark: Mark)
    ensures OtherMark(OtherMark(mark)) == mark
  {
  }

  /** `scores.reduce((sum, item) => sum += item, 0)`: the sum from left to right. */
  function Sum(scores: seq<real>): real
  {
    if scores == [] then 0.0 else Sum(scores[..|scores| - 1]) + scores[|scores| - 1]
  }

  /** The value `minMax` returns when it is entered with the board in state
      `state` with winner `winner` and cells `cells`, at recursion depth `depth`:
      0 for a draw, 1 or -1 for a game the maximizer has won or not won, and on
      a board still ongoing the sum over every empty cell of the child's value
      times 1 / (depth + 1). */
  function Score(state: State, winner: Winner, cells: seq<Cell>, maximizerTurn: bool, maximizerMark: Mark, depth: nat): real
    requires |cells| == Size
    decreases EmptyCells(cells), 3, 0
  {
    if state == Draw then 0.0
    else if state == Over then (if winner == Player(maximizerMark) then 1.0 else -1.0)
    else
      PossibleMovesAreEmpty(cells);
      ChildSum(cells, PossibleMoves(cells), maximizerTurn, maximizerMark, depth + 1)
  }

  /** The sum of the weighted child values over `moves`, at the incremented depth `depth`. */
  function ChildSum(cells: seq<Cell>, moves: seq<nat>, maximizerTurn: bool, maximizerMark: Mark, depth: nat): real
    requires |cells| == Size && depth >= 1
    requires forall j :: 0 <= j < |moves| ==> moves[j] < Size && cells[moves[j]] == Empty
    decreases EmptyCells(cells), 2, |moves|
  {
    if moves == [] then 0.0
    else ChildScore(cells, moves[0], maximizerTurn, maximizerMark, depth)
         + ChildSum(cells, moves[1..], maximizerTurn, maximizerMark, depth)
  }

  /** The factor 1 / depth that minMax applies to every child value. */
  function Weight(depth: nat): real
    requires depth >= 1
  {
    1.0 / depth as real
  }

  /** One term of the sum: the side to move plays empty cell `i`, and the
      value of the new board, with the turn flipped, is weighted by 1 / depth. */
  function ChildScore(cells: seq<Cell>, i: nat, maximizerTurn: bool, maximizerMark: Mark, depth: nat): real
    requires |cells| == Size && depth >= 1 && i < Size && cells[i] == Empty
    decreases EmptyCells(cells), 1, 0
  {
    var mover := if maximizerTurn then maximizerMark else OtherMark(maximizerMark);
    AfterMove(cells, i, mover, !maximizerTurn, maximizerMark, depth) * Weight(depth)
  }

  /** The value minMax returns after makeMove has put `mark` on empty cell `i`. */
  function AfterMove(cells: seq<Cell>, i: nat, mark: Mark, maximizerTurn: bool, maximizerMark: Mark, depth: nat): real
    requires |cells| == Size && i < Size && cells[i] == Empty
    decreases EmptyCells(cells), 0, 0
  {
    FillShrinks(cells, i, mark);
    AfterUpdate(cells[i := Marked(mark)], maximizerTurn, maximizerMark, depth)
  }

  /** The value minMax returns when entered on cells `next` whose state and
      winner updateState has just recomputed. */
  function AfterUpdate(next: seq<Cell>, maximizerTurn: bool, maximizerMark: Mark, depth: nat): real
    requires |next| == Size
    decreases EmptyCells(next), 4, 0
  {
    var v := Evaluate(next);
    Score(v.state, v.winner, next, maximizerTurn, maximizerMark, depth)
  }

  /** The search is zero-sum: scoring for the opponent, with the turn flag
      flipped, gives the negated score. */
  lemma {:induction false} ScoreZeroSum(state: State, winner: Winner, cells: seq<Cell>, maximizerTurn: bool, maximizerMark: Mark, depth: nat)
    requires |cells| == Size
    requires state == Over ==> winner.Player?
    ensures Score(state, winner, cells, !maximizerTurn, OtherMark(maximizerMark), depth)
            == -Score(state, winner, cells, maximizerTurn, maximizerMark, depth)
    decreases EmptyCells(cells), 3, 0
  {
    if state == Ongoing {
      PossibleMovesAreEmpty(cells);
      ChildSumZeroSum(cells, PossibleMoves(cells), maximizerTurn, maximizerMark, depth + 1);
    }
  }

  lemma {:induction false} ChildSumZeroSum(cells: seq<Cell>, moves: seq<nat>, maximizerTurn: bool, maximizerMark: Mark, depth: nat)
    requires |cells| == Size && depth >= 1
    requires forall j :: 0 <= j < |moves| ==> moves[j] < Size && cells[moves[j]] == Empty
    ensures ChildSum(cells, moves, !maximizerTurn, OtherMark(maximizerMark), depth)
            == -ChildSum(cells, moves, maximizerTurn, maximizerMark, depth)
    decreases EmptyCells(cells), 2, |moves|
  {
    if moves != [] {
      ChildScoreZeroSum(cells, moves[0], maximizerTurn, maximizerMark, depth);
      ChildSumZeroSum(cells, moves[1..], maximizerTurn, maximizerMark, depth);
    }
  }

  lemma {:induction false} ChildScoreZeroSum(cells: seq<Cell>, i: nat, maximizerTurn: bool, maximizerMark: Mark, depth: nat)
    requires |cells| == Size && depth >= 1 && i < Size && cells[i] == Empty
    ensures ChildScore(cells, i, !maximizerTurn, OtherMark(maximizerMark), depth)
            == -ChildScore(cells, i, maximizerTurn, maximizerMark, depth)
    decreases EmptyCells(cells), 1, 0
  {
    var mover := if maximizerTurn then maximizerMark else OtherMark(maximizerMark);
    OtherMarkInvolution(maximizerMark);
    FillShrinks(cells, i, mover);
    var next := cells[i := Marked(mover)];
    EvaluateOver(next);
    ScoreZeroSum(Evaluate(next).state, Evaluate(next).winner, next, !maximizerTurn, maximizerMark, depth);
    assert AfterMove(cells, i, mover, !maximizerTurn, maximizerMark, depth)
           == AfterUpdate(next, !maximizerTurn, maximizerMark, depth);
    assert AfterMove(cells, i, mover, maximizerTurn, OtherMark(maximizerMark), depth)
           == AfterUpdate(next, maximizerTurn, OtherMark(maximizerMark), depth);
  }

  /** The winner field is read only when the state is OVER. */
  lemma ScoreReadsWinnerOnlyWhenOver(state: State, w1: Winner, w2: Winner, cells: seq<Cell>, maximizerTurn: bool, maximizerMark: Mark, depth: nat)
    requires |cells| == Size && (state == Over ==> w1 == w2)
    ensures Score(state, w1, cells, maximizerTurn, maximizerMark, depth) == Score(state, w2, cells, maximizerTurn, maximizerMark, depth)
  {
  }

  /** What minMax returns right after `move` has been played is, weighted,
      that move's term of the sum. */
  lemma ScoredChild(cells: seq<Cell>, i: nat, maximizerTurn: bool, maximizerMark: Mark, depth: nat,
                    next: seq<Cell>, state: State, winner: Winner, s: real)
    requires |cells| == Size && depth >= 1 && i < Size && cells[i] == Empty
    requires next == cells[i := Marked(if maximizerTurn then maximizerMark else OtherMark(maximizerMark))]
    requires state == Evaluate(next).state && (state != Ongoing ==> winner == Evaluate(next).winner)
    requires s == Score(state, winner, next, !maximizerTurn, maximizerMark, depth)
    ensures s * Weight(depth) == ChildScore(cells, i, maximizerTurn, maximizerMark, depth)
  {
    ScoreReadsWinnerOnlyWhenOver(state, winner, Evaluate(next).winner, next, !maximizerTurn, maximizerMark, depth);
    assert s == AfterUpdate(next, !maximizerTurn, maximizerMark, depth);
  }

  /** One pass of minMax's loop: appending the term of the move at position
      k of `moves` keeps the running scores equal to the part of the sum
      already explored. */
  lemma AccumulateChild(cells: seq<Cell>, moves: seq<nat>, k: nat, maximizerTurn: bool, maximizerMark: Mark, depth: nat,
                        scores: seq<real>, c: real)
    requires |cells| == Size && depth >= 1 && k < |moves|
    requires forall j :: 0 <= j < |moves| ==> moves[j] < Size && cells[moves[j]] == Empty
    requires c == ChildScore(cells, moves[k], maximizerTurn, maximizerMark, depth)
    requires Sum(scores) + ChildSum(cells, moves[k..], maximizerTurn, maximizerMark, depth)
             == ChildSum(cells, moves, maximizerTurn, maximizerMark, depth)
    ensures Sum(scores + [c]) + ChildSum(cells, moves[k + 1..], maximizerTurn, maximizerMark, depth)
            == ChildSum(cells, moves, maximizerTurn, maximizerMark, depth)
  {
    assert moves[k..][1..] == moves[k + 1..];
    assert (scores + [c])[..|scores|] == scores;
  }

  /** The score `getBestMove` gives move `i`: the maximizer's mark is played
      there and `minMax` is entered with the opponent to move, at depth 0. */
  function MoveScore(cells: seq<Cell>, i: nat, maximizerMark: Mark): real
    requires |cells| == Size && i < Size && cells[i] == Empty
  {
    AfterMove(cells, i, maximizerMark, false, maximizerMark, 0)
  }

  /** What minMax returns right after getBestMove has played move `i` is that move's score. */
  lemma ScoredMove(cells: seq<Cell>, i: nat, maximizerMark: Mark, next: seq<Cell>, state: State, winner: Winner, s: real)
    requires |cells| == Size && i < Size && cells[i] == Empty
    requires next == cells[i := Marked(maximizerMark)]
    requires state == Evaluate(next).state && (state != Ongoing ==> winner == Evaluate(next).winner)
    requires s == Score(state, winner, next, false, maximizerMark, 0)
    ensures s == MoveScore(cells, i, maximizerMark)
  {
    ScoreReadsWinnerOnlyWhenOver(state, winner, Evaluate(next).winner, next, false, maximizerMark, 0);
    assert s == AfterUpdate(next, false, maximizerMark, 0);
  }

  /** Move `i` is a possible move of highest score, and every possible move
      below it scores strictly less. */
  ghost predicate IsFirstBest(cells: seq<Cell>, maximizerMark: Mark, i: nat)
    requires |cells| == Size
  {
    PossibleMovesExact(cells);
    && i in PossibleMoves(cells)
    && (forall j :: j in PossibleMoves(cells) ==> MoveScore(cells, j, maximizerMark) <= MoveScore(cells, i, maximizerMark))
    && (forall j :: j in PossibleMoves(cells) && j < i ==> MoveScore(cells, j, maximizerMark) < MoveScore(cells, i, maximizerMark))
  }

  /** A candidate of getBestMove's scan: its position in the move list, and its score. */
  datatype Pick = Pick(index: nat, score: real)

  /** What getBestMove's loop holds after the first n moves: None before any
      move, and afterwards the last move whose score beat every earlier one. */
  function Scan(cells: seq<Cell>, moves: seq<nat>, n: nat, maximizerMark: Mark): (r: Option<Pick>)
    requires |cells| == Size && n <= |moves| && forall j :: 0 <= j < |moves| ==> moves[j] < Size && cells[moves[j]] == Empty
    ensures r.None? <==> n == 0
    ensures r.Some? ==> r.value.index < n
  {
    if n == 0 then None
    else
      var prev := Scan(cells, moves, n - 1, maximizerMark);
      var s := MoveScore(cells, moves[n - 1], maximizerMark);
      if prev.None? || s > prev.value.score then Some(Pick(n - 1, s)) else prev
  }

  /** The scan keeps the first highest score: no move scanned scores more,
      and every move before the pick scores strictly less. */
  lemma {:induction false} ScanKeepsFirstMax(cells: seq<Cell>, moves: seq<nat>, n: nat, maximizerMark: Mark)
    requires |cells| == Size && n <= |moves| && forall j :: 0 <= j < |moves| ==> moves[j] < Size && cells[moves[j]] == Empty
    ensures Scan(cells, moves, n, maximizerMark).Some? ==>
              var p := Scan(cells, moves, n, maximizerMark).value;
              && p.score == MoveScore(cells, moves[p.index], maximizerMark)
              && (forall j :: 0 <= j < n ==> MoveScore(cells, moves[j], maximizerMark) <= p.score)
              && (forall j :: 0 <= j < p.index ==> MoveScore(cells, moves[j], maximizerMark) < p.score)
  {
    if n > 0 {
      ScanKeepsFirstMax(cells, moves, n - 1, maximizerMark);
    }
  }

  /** The pick of a scan over all possible moves. */
  function BestPick(cells: seq<Cell>, maximizerMark: Mark): (r: Option<Pick>)
    requires |cells| == Size
    ensures r.None? <==> PossibleMoves(cells) == []
    ensures r.Some? ==> r.value.index < |PossibleMoves(cells)|
  {
    PossibleMovesAreEmpty(cells);
    Scan(cells, PossibleMoves(cells), |PossibleMoves(cells)|, maximizerMark)
  }

  /** The full scan's pick is the first best move. */
  lemma BestPickIsFirstBest(cells: seq<Cell>, maximizerMark: Mark)
    requires |cells| == Size && BestPick(cells, maximizerMark).Some?
    ensures IsFirstBest(cells, maximizerMark, PossibleMoves(cells)[BestPick(cells, maximizerMark).value.index])
  {
    var moves := PossibleMoves(cells);
    var p := BestPick(cells, maximizerMark).value;
    PossibleMovesExact(cells);
    ScanKeepsFirstMax(cells, moves, |moves|, maximizerMark);
    forall j | j in moves
      ensures MoveScore(cells, j, maximizerMark) <= p.score
    {
      var q :| 0 <= q < |moves| && moves[q] == j;
    }
    forall j | j in moves && j < moves[p.index]
      ensures MoveScore(cells, j, maximizerMark) < p.score
    {
      var q :| 0 <= q < |moves| && moves[q] == j;
    }
  }

  /** At most one move is the first best one. */
  lemma FirstBestUnique(cells: seq<Cell>, maximizerMark: Mark, i: nat, i': nat)
    requires |cells| == Size
    requires IsFirstBest(cells, maximizerMark, i) && IsFirstBest(cells, maximizerMark, i')
    ensures i == i'
  {
  }

  /** `minMax`. The board's cells and move stack are as they were on return;
      the state too when it was up to date on entry. The winner field may be
      left holding the outcome of the last game explored. */
  method MinMax(isMaximizerTurn: bool, maximizerMark: Mark, board: Board, depth: nat := 0) returns (score: real)
    requires board.Valid()
    modifies board
    decreases EmptyCells(board.cells), 1
    ensures board.Valid()
    ensures board.cells == old(board.cells) && board.history == old(board.history)
    ensures score == Score(old(board.state), old(board.winner), board.cells, isMaximizerTurn, maximizerMark, depth)
    ensures old(board.state) == Draw ==> score == 0.0
    ensures old(board.state) == Over ==> score == if old(board.winner) == Player(maximizerMark) then 1.0 else -1.0
    ensures old(board.state) != Ongoing ==> board.state == old(board.state) && board.winner == old(board.winner)
    ensures old(board.Consistent()) ==> board.state == old(board.state)
    ensures old(board.state) == Ongoing && PossibleMoves(board.cells) != [] ==> board.Consistent()
  {
    var d := depth + 1;
    if board.state == Draw {
      return 0.0;
    } else if board.state == Over {
      return if board.winner == Player(maximizerMark) then 1.0 else -1.0;
    }
    ghost var cells0 := board.cells;
    var moves := PossibleMoves(board.cells);
    PossibleMovesAreEmpty(board.cells);
    var scores: seq<real> := [];
    var k := 0;
    while k < |moves|
      invariant 0 <= k <= |moves|
      invariant board.Valid() && board.cells == cells0 && board.history == old(board.history)
      invariant k == 0 ==> board.state == old(board.state)
      invariant k > 0 ==> board.Consistent()
      invariant Sum(scores) + ChildSum(cells0, moves[k..], isMaximizerTurn, maximizerMark, d)
                == ChildSum(cells0, moves, isMaximizerTurn, maximizerMark, d)
    {
      var s := ExploreChild(isMaximizerTurn, maximizerMark, board, moves[k], d);
      AccumulateChild(cells0, moves, k, isMaximizerTurn, maximizerMark, d, scores, s);
      scores := scores + [s];
      k := k + 1;
    }
    score := Sum(scores);
  }

  /** The body of minMax's loop: play `move` for the side to move, weight
      minMax's value of the new board by 1 / depth, and take the move back. */
  method ExploreChild(isMaximizerTurn: bool, maximizerMark: Mark, board: Board, move: nat, depth: nat) returns (s: real)
    requires board.Valid() && depth >= 1 && move < Size && board.cells[move] == Empty
    modifies board
    decreases EmptyCells(board.cells), 0
    ensures board.Valid() && board.Consistent()
    ensures board.cells == old(board.cells) && board.history == old(board.history)
    ensures s == ChildScore(board.cells, move, isMaximizerTurn, maximizerMark, depth)
  {
    var mover := if isMaximizerTurn then maximizerMark else OtherMark(maximizerMark);
    board.MakeMove(move, mover);
    FillShrinks(old(board.cells), move, mover);
    var v := MinMax(!isMaximizerTurn, maximizerMark, board, depth);
    ScoredChild(old(board.cells), move, isMaximizerTurn, maximizerMark, depth, board.cells, board.state, board.winner, v);
    s := v * Weight(depth);
    board.RevertLastMove();
    assert board.cells == old(board.cells);
  }

  /** The body of getBestMove's loop: play `move` for the maximizer, score
      the new board with minMax (opponent to move, depth 0), take the move back. */
  method ExploreMove(board: Board, move: nat, maximizerMark: Mark) returns (score: real)
    requires board.Valid() && move < Size && board.cells[move] == Empty
    modifies board
    ensures board.Valid() && board.Consistent()
    ensures board.cells == old(board.cells) && board.history == old(board.history)
    ensures score == MoveScore(board.cells, move, maximizerMark)
  {
    board.MakeMove(move, maximizerMark);
    score := MinMax(false, maximizerMark, board);
    ScoredMove(old(board.cells), move, maximizerMark, board.cells, board.state, board.winner, score);
    board.RevertLastMove();
    assert board.cells == old(board.cells);
  }

  /** `getBestMove`: score every possible move with the maximizer's mark and
      keep the first one whose score beats the best so far. None stands for
      the undefined result on a board with no empty cell. */
  method GetBestMove(board: Board, maximizerMark: Mark := X) returns (bestMove: Option<nat>)
    requires board.Valid()
    modifies board
    ensures board.Valid()
    ensures board.cells == old(board.cells) && board.history == old(board.history)
    ensures old(board.Consistent()) ==> board.state == old(board.state)
    ensures PossibleMoves(board.cells) != [] ==> board.Consistent()
    ensures bestMove == if BestPick(board.cells, maximizerMark).None? then None
                        else Some(PossibleMoves(board.cells)[BestPick(board.cells, maximizerMark).value.index])
    ensures bestMove.None? <==> PossibleMoves(board.cells) == []
    ensures bestMove.Some? ==> IsFirstBest(board.cells, maximizerMark, bestMove.value)
  {
    // bestMove == None plays the part of bestScore == -Infinity
    var bestScore: real := 0.0;
    bestMove := None;
    ghost var cells0 := board.cells;
    ghost var bestIndex: nat := 0;
    var possibleMoves := PossibleMoves(board.cells);
    PossibleMovesAreEmpty(board.cells);
    var k := 0;
    while k < |possibleMoves|
      invariant 0 <= k <= |possibleMoves|
      invariant board.Valid() && board.cells == cells0 && board.history == old(board.history)
      invariant k == 0 ==> board.state == old(board.state)
      invariant k > 0 ==> board.Consistent()
      invariant Scan(cells0, possibleMoves, k, maximizerMark)
                == if bestMove.None? then None else Some(Pick(bestIndex, bestScore))
      invariant bestMove.Some? ==> bestIndex < |possibleMoves| && bestMove.value == possibleMoves[bestIndex]
    {
      var move := possibleMoves[k];
      var score := ExploreMove(board, move, maximizerMark);
      if bestMove.None? || score > bestScore {
        bestScore := score;
        bestMove := Some(move);
        bestIndex := k;
      }
      k := k + 1;
    }
    if bestMove.Some? {
      BestPickIsFirstBest(cells0, maximizerMark);
    }
  }

  /** A board with one empty cell `i` on which the maximizer's move there
      completes a line: with the maximizer to move at depth `depth`, it is
      worth 1 / (depth + 1). */
  lemma LastMoveWins(cells: seq<Cell>, i: nat, m: Mark, depth: nat)
    requires |cells| == Size && i < Size && cells[i] == Empty
    requires Evaluate(cells).state == Ongoing && PossibleMoves(cells) == [i]
    requires Evaluate(cells[i := Marked(m)]) == Verdict(Over, Player(m))
    ensures AfterUpdate(cells, true, m, depth) == 1.0 / (depth + 1) as real
  {
    assert AfterMove(cells, i, m, false, m, depth + 1) == AfterUpdate(cells[i := Marked(m)], false, m, depth + 1) == 1.0;
    assert ChildSum(cells, [i], true, m, depth + 1) == ChildScore(cells, i, true, m, depth + 1) + ChildSum(cells, [], true, m, depth + 1);
  }

  /** An ongoing board with two empty cells, the opponent to move at depth 0,
      where each reply is worth 1/2: its value is the sum, 1. */
  lemma TwoRepliesOfHalf(cells: seq<Cell>, a: nat, b: nat, m: Mark)
    requires |cells| == Size && a < Size && b < Size && cells[a] == Empty && cells[b] == Empty
    requires Evaluate(cells).state == Ongoing && PossibleMoves(cells) == [a, b]
    requires AfterUpdate(cells[a := Marked(OtherMark(m))], true, m, 1) == 0.5
    requires AfterUpdate(cells[b := Marked(OtherMark(m))], true, m, 1) == 0.5
    ensures AfterUpdate(cells, false, m, 0) == 1.0
  {
    assert Weight(1) == 1.0;
    assert ChildScore(cells, a, false, m, 1) == AfterMove(cells, a, OtherMark(m), true, m, 1) == 0.5;
    assert ChildScore(cells, b, false, m, 1) == AfterMove(cells, b, OtherMark(m), true, m, 1) == 0.5;
    assert [a, b][1..] == [b];
    assert ChildSum(cells, [b], false, m, 1) == ChildScore(cells, b, false, m, 1) + ChildSum(cells, [], false, m, 1);
    assert ChildSum(cells, [a, b], false, m, 1) == ChildScore(cells, a, false, m, 1) + ChildSum(cells, [b], false, m, 1);
    assert AfterUpdate(cells, false, m, 0) == Score(Ongoing, Evaluate(cells).winner, cells, false, m, 0)
           == ChildSum(cells, [a, b], false, m, 1);
  }

  /** The board m o m / o m o / _ _ _, where o is the other mark: m to play
      can take cell 6, 7 or 8. */
  function TieBoard(m: Mark): (r: seq<Cell>)
    ensures |r| == Size
  {
    var o := Marked(OtherMark(m));
    [Marked(m), o, Marked(m), o, Marked(m), o, Empty, Empty, Empty]
  }

  /** After m takes cell 7 of the tie board, the opponent has cells 6 and 8. */
  lemma MiddleMoveBoard(m: Mark)
    ensures var c := TieBoard(m)[7 := Marked(m)];
            Evaluate(c).state == Ongoing && PossibleMoves(c) == [6, 8]
  {
    var c := TieBoard(m)[7 := Marked(m)];
    assert c[6] == Empty;
    assert MovesFrom(c, 8) == [8];
    assert MovesFrom(c, 6) == [6, 8];
    MovesFromSkipsFilled(c, 0, 6);
  }

  /** Whichever corner the opponent takes on that board, m's last move, on
      the other corner, completes a diagonal: each reply is worth 1/2. */
  lemma RepliesToMiddleMove(m: Mark)
    ensures AfterUpdate(TieBoard(m)[7 := Marked(m)][6 := Marked(OtherMark(m))], true, m, 1) == 0.5
    ensures AfterUpdate(TieBoard(m)[7 := Marked(m)][8 := Marked(OtherMark(m))], true, m, 1) == 0.5
  {
    var c := TieBoard(m)[7 := Marked(m)];
    var left := c[6 := Marked(OtherMark(m))];
    var right := c[8 := Marked(OtherMark(m))];
    assert left[8] == Empty;
    assert MovesFrom(left, 8) == [8];
    MovesFromSkipsFilled(left, 0, 8);
    LastMoveWins(left, 8, m, 1);
    assert right[6] == Empty;
    assert MovesFrom(right, 8) == [];
    assert MovesFrom(right, 7) == [];
    assert MovesFrom(right, 6) == [6];
    MovesFromSkipsFilled(right, 0, 6);
    LastMoveWins(right, 6, m, 1);
  }

  /** On the tie board every possible move scores 1: cells 6 and 8 win at
      once, and cell 7 leaves two replies, each answered by a win worth 1/2.
      The first of them, cell 6, is the move getBestMove returns, and it
      completes the diagonal 6-4-2. */
  lemma TiesGoToLowestIndex(m: Mark)
    ensures PossibleMoves(TieBoard(m)) == [6, 7, 8]
    ensures MoveScore(TieBoard(m), 6, m) == 1.0 && MoveScore(TieBoard(m), 7, m) == 1.0 && MoveScore(TieBoard(m), 8, m) == 1.0
    ensures BestPick(TieBoard(m), m) == Some(Pick(0, 1.0))
    ensures Evaluate(TieBoard(m)[6 := Marked(m)]) == Verdict(Over, Player(m))
  {
    var cells := TieBoard(m);
    assert cells[6] == Empty;
    assert PossibleMoves(cells) == [6, 7, 8];
    assert MoveScore(cells, 6, m) == AfterUpdate(cells[6 := Marked(m)], false, m, 0) == 1.0;
    assert MoveScore(cells, 8, m) == AfterUpdate(cells[8 := Marked(m)], false, m, 0) == 1.0;
    MiddleMoveBoard(m);
    RepliesToMiddleMove(m);
    TwoRepliesOfHalf(cells[7 := Marked(m)], 6, 8, m);
    assert MoveScore(cells, 7, m) == AfterUpdate(cells[7 := Marked(m)], false, m, 0);
  }
}

/** Move application, scoring and the end of the game (src/gameLogic.ts, lines 195-264). */
module Rules {
  import opened Types
  import opened Accessors
  import opened MoveSearch

  /**
   * The board after moving the whole stack at `from` onto the stack at `to`. Nothing is checked:
   * when `from == to` the cell ends up empty.
   */
  function Moved(b: Board, from: Position, to: Position): (nb: Board)
    requires InBounds(from) && InBounds(to)
    ensures CellAt(nb, from) == []
    ensures from != to ==> CellAt(nb, to) == CellAt(b, to) + CellAt(b, from)
    ensures forall p :: InBounds(p) && p != from && p != to ==> CellAt(nb, p) == CellAt(b, p)
  {
    WithCell(WithCell(b, to, CellAt(b, to) + CellAt(b, from)), from, [])
  }

  /** `executeMove` as the source writes it: take the source stack, push it onto `to`, empty `from`. */
  method ExecuteMove(b: Board, from: Position, to: Position) returns (newBoard: Board)
    requires InBounds(from) && InBounds(to)
    ensures newBoard == Moved(b, from, to)
  {
    newBoard := b;
    var sourcePieces := CellAt(newBoard, from);
    newBoard := WithCell(newBoard, to, CellAt(newBoard, to) + sourcePieces);
    newBoard := WithCell(newBoard, from, []);
  }

  /** Moving a stack onto another cell keeps every piece on the board, with its multiplicity. */
  lemma MovePreservesPieces(b: Board, from: Position, to: Position)
    requires InBounds(from) && InBounds(to) && from != to
    ensures BoardPieces(Moved(b, from, to)) == BoardPieces(b)
  {
    var source, dest := CellAt(b, from), CellAt(b, to);
    var stacked := WithCell(b, to, dest + source);
    UpdateCellPieces(b, to, dest + source);
    UpdateCellPieces(stacked, from, []);
    assert multiset(dest + source) == multiset(dest) + multiset(source);
    CancelMove(BoardPieces(Moved(b, from, to)), BoardPieces(stacked), BoardPieces(b), multiset(source), multiset(dest));
  }

  lemma CancelMove(after: multiset<Piece>, between: multiset<Piece>, before: multiset<Piece>,
                   source: multiset<Piece>, dest: multiset<Piece>)
    requires after + source == between + multiset{} && between + dest == before + (dest + source)
    ensures after == before
  {
    forall e ensures after[e] == before[e] {
      assert (after + source)[e] == (between + multiset{})[e];
      assert (between + dest)[e] == (before + (dest + source))[e];
    }
  }

  /** Moving a stack onto itself (which `executeMove` does not prevent) removes that stack from the board. */
  lemma SelfMoveLosesStack(b: Board, p: Position)
    requires InBounds(p)
    ensures CellAt(Moved(b, p, p), p) == []
    ensures BoardPieces(Moved(b, p, p)) + multiset(CellAt(b, p)) == BoardPieces(b)
  {
    var cell := CellAt(b, p);
    var stacked := WithCell(b, p, cell + cell);
    UpdateCellPieces(b, p, cell + cell);
    UpdateCellPieces(stacked, p, []);
    CancelSelf(BoardPieces(Moved(b, p, p)), BoardPieces(stacked), BoardPieces(b), multiset(cell), multiset(cell + cell));
  }

  lemma CancelSelf(after: multiset<Piece>, between: multiset<Piece>, before: multiset<Piece>,
                   cell: multiset<Piece>, doubled: multiset<Piece>)
    requires after + doubled == between + multiset{} && between + cell == before + doubled
    ensures after + cell == before
  {
    forall e ensures (after + cell)[e] == before[e] {
      assert (after + doubled)[e] == (between + multiset{})[e];
      assert (between + cell)[e] == (before + doubled)[e];
    }
  }

  /**
   * A move to a destination returned by `getLegalMoves` keeps every piece, never leaves the
   * destination empty and empties the source.
   */
  lemma LegalMovePreservesPieces(b: Board, from: Position, to: Position, fuel: nat)
    requires InBounds(from) && to in LegalMoves(b, from, fuel)
    ensures BoardPieces(Moved(b, from, to)) == BoardPieces(b)
    ensures |CellAt(Moved(b, from, to), to)| > |CellAt(b, to)| > 0
    ensures CellAt(Moved(b, from, to), from) == []
  {
    MovePreservesPieces(b, from, to);
  }

  /** The score of one cell for `player`: top value times height if the player controls it, else 0. */
  function CellScore(cell: Cell, player: Player): (s: nat)
    ensures s > 0 <==> IsControlledBy(cell, player)
    ensures s <= 3 * |cell|
  {
    if IsControlledBy(cell, player) && TopValue(cell).Some? then TopValue(cell).value * |cell| else 0
  }

  /** The scores of the first `n` cells of a row. */
  function RowScore(row: seq<Cell>, player: Player, n: nat): nat
    requires n <= |row|
  {
    if n == 0 then 0 else RowScore(row, player, n - 1) + CellScore(row[n - 1], player)
  }

  /** The scores of the first `rows` rows. */
  function ScoreUpTo(b: Board, player: Player, rows: nat): nat
    requires rows <= 6
  {
    if rows == 0 then 0 else ScoreUpTo(b, player, rows - 1) + RowScore(b[rows - 1], player, 6)
  }

  /** The score of `player`: the sum over the cells it controls of top value times stack height. */
  function Score(b: Board, player: Player): nat {
    ScoreUpTo(b, player, 6)
  }

  /** `calculateScore`: the row-major double loop with a `score +=` accumulator. */
  method CalculateScore(b: Board, player: Player) returns (score: nat)
    ensures score == Score(b, player)
  {
    score := 0;
    for row := 0 to 6
      invariant score == ScoreUpTo(b, player, row)
    {
      for col := 0 to 6
        invariant score == ScoreUpTo(b, player, row) + RowScore(b[row], player, col)
      {
        var cell := b[row][col];
        if IsControlledBy(cell, player) {
          var topValue := TopValue(cell);
          var stackSize := |cell|;
          if topValue.Some? {
            score := score + topValue.value * stackSize;
          }
        }
      }
    }
  }

  /** What a cell is worth to whoever controls it: top value times height, 0 when empty. */
  function CellWeight(cell: Cell): nat {
    if |cell| == 0 then 0 else cell[|cell| - 1].value * |cell|
  }

  function RowWeight(row: seq<Cell>, n: nat): nat
    requires n <= |row|
  {
    if n == 0 then 0 else RowWeight(row, n - 1) + CellWeight(row[n - 1])
  }

  function WeightUpTo(b: Board, rows: nat): nat
    requires rows <= 6
  {
    if rows == 0 then 0 else WeightUpTo(b, rows - 1) + RowWeight(b[rows - 1], 6)
  }

  lemma {:induction false} RowScoresPartition(row: seq<Cell>, n: nat)
    requires n <= |row|
    ensures RowScore(row, Black, n) + RowScore(row, White, n) == RowWeight(row, n)
  {
    if n > 0 {
      RowScoresPartition(row, n - 1);
    }
  }

  lemma {:induction false} ScoresPartitionUpTo(b: Board, rows: nat)
    requires rows <= 6
    ensures ScoreUpTo(b, Black, rows) + ScoreUpTo(b, White, rows) == WeightUpTo(b, rows)
  {
    if rows > 0 {
      ScoresPartitionUpTo(b, rows - 1);
      RowScoresPartition(b[rows - 1], 6);
    }
  }

  /**
   * Every non-empty cell counts for exactly one colour and empty cells count for none: the two
   * scores add up to the weight of the whole board.
   */
  lemma ScoresPartitionBoard(b: Board)
    ensures Score(b, Black) + Score(b, White) == WeightUpTo(b, 6)
  {
    ScoresPartitionUpTo(b, 6);
  }

  datatype Outcome = Winner(player: Player) | Draw

  datatype GameResult = GameResult(winner: Outcome, blackScore: nat, whiteScore: nat)

  /** `getWinner`: the higher score wins, equal scores draw; both scores are reported. */
  function GetWinner(b: Board): (r: GameResult)
    ensures r.blackScore == Score(b, Black) && r.whiteScore == Score(b, White)
    ensures r.winner == Winner(Black) <==> r.blackScore > r.whiteScore
    ensures r.winner == Winner(White) <==> r.whiteScore > r.blackScore
    ensures r.winner == Draw <==> r.blackScore == r.whiteScore
  {
    var blackScore := Score(b, Black);
    var whiteScore := Score(b, White);
    var winner :=
      if blackScore > whiteScore then Winner(Black)
      else if whiteScore > blackScore then Winner(White)
      else Draw;
    GameResult(winner, blackScore, whiteScore)
  }

  /** The other colour: the turn toggle after every move (src/App.tsx), and the exchange of colours below. */
  function Opponent(p: Player): (q: Player)
    ensures q != p
  {
    if p == Black then White else Black
  }

  /** The board with the colour of every piece exchanged. */
  function Recoloured(b: Board): (nb: Board)
    ensures forall r, c :: 0 <= r < 6 && 0 <= c < 6 ==> nb[r][c] == RecolouredCell(b[r][c])
  {
    seq(6, r requires 0 <= r < 6 => seq(6, c requires 0 <= c < 6 => RecolouredCell(b[r][c])))
  }

  function RecolouredCell(cell: Cell): (nc: Cell)
    ensures |nc| == |cell|
    ensures forall i :: 0 <= i < |cell| ==> nc[i] == Piece(Opponent(cell[i].color), cell[i].value)
  {
    seq(|cell|, i requires 0 <= i < |cell| => Piece(Opponent(cell[i].color), cell[i].value))
  }

  lemma {:induction false} RecolouredRowScore(row: seq<Cell>, row': seq<Cell>, player: Player, n: nat)
    requires n <= |row| == |row'| && forall c :: 0 <= c < |row| ==> row'[c] == RecolouredCell(row[c])
    ensures RowScore(row', player, n) == RowScore(row, Opponent(player), n)
  {
    if n > 0 {
      RecolouredRowScore(row, row', player, n - 1);
      var cell := row[n - 1];
      assert IsControlledBy(row'[n - 1], player) == IsControlledBy(cell, Opponent(player));
    }
  }

  lemma {:induction false} RecolouredScoreUpTo(b: Board, player: Player, rows: nat)
    requires rows <= 6
    ensures ScoreUpTo(Recoloured(b), player, rows) == ScoreUpTo(b, Opponent(player), rows)
  {
    if rows > 0 {
      RecolouredScoreUpTo(b, player, rows - 1);
      RecolouredRowScore(b[rows - 1], Recoloured(b)[rows - 1], player, 6);
    }
  }

  /**
   * The scoring has no favourite colour: exchanging the colours of all pieces exchanges the two
   * scores, and so turns a black win into a white win and keeps a draw a draw.
   */
  lemma RecolouringSwapsTheWinner(b: Board)
    ensures Score(Recoloured(b), Black) == Score(b, White) && Score(Recoloured(b), White) == Score(b, Black)
    ensures GetWinner(b).winner == Winner(Black) <==> GetWinner(Recoloured(b)).winner == Winner(White)
    ensures GetWinner(b).winner == Winner(White) <==> GetWinner(Recoloured(b)).winner == Winner(Black)
    ensures GetWinner(b).winner == Draw <==> GetWinner(Recoloured(b)).winner == Draw
  {
    RecolouredScoreUpTo(b, Black, 6);
    RecolouredScoreUpTo(b, White, 6);
  }

  /** `player` controls the cell at `p` and its stack has a legal move. */
  predicate CanMoveFrom(b: Board, player: Player, p: Position, fuel: nat)
    requires InBounds(p)
  {
    IsControlledBy(CellAt(b, p), player) && |LegalMoves(b, p, fuel)| > 0
  }

  /** `canPlayerMove`: the row-major scan that stops at the first movable stack of `player`. */
  method CanPlayerMove(b: Board, player: Player, fuel: nat) returns (can: bool)
    ensures can <==> exists p :: InBounds(p) && CanMoveFrom(b, player, p, fuel)
  {
    for row := 0 to 6
      invariant forall p :: InBounds(p) && p.row < row ==> !CanMoveFrom(b, player, p, fuel)
    {
      for col := 0 to 6
        invariant forall p :: InBounds(p) && (p.row < row || (p.row == row && p.col < col)) ==> !CanMoveFrom(b, player, p, fuel)
      {
        var cell := b[row][col];
        if IsControlledBy(cell, player) {
          var moves := GetLegalMoves(b, Position(row, col), fuel);
          if |moves| > 0 {
            assert CanMoveFrom(b, player, Position(row, col), fuel);
            return true;
          }
        }
      }
    }
    return false;
  }
}

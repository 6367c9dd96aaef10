/** Accessors of the rules engine (src/gameLogic.ts, lines 52-75) and the piece inventory of a board. */
module Accessors {
  import opened Types

  /** The position lies on the 6x6 board. */
  predicate InBounds(p: Position) {
    0 <= p.row < 6 && 0 <= p.col < 6
  }

  function CellAt(b: Board, p: Position): Cell
    requires InBounds(p)
  {
    b[p.row][p.col]
  }

  /** A cell belongs to the owner of its top piece; an empty cell belongs to nobody. */
  predicate IsControlledBy(cell: Cell, player: Player) {
    if |cell| == 0 then false else cell[|cell| - 1].color == player
  }

  /** The value of the top piece, or None for an empty cell. */
  function TopValue(cell: Cell): Option<Value> {
    if |cell| == 0 then None else Some(cell[|cell| - 1].value)
  }

  /** Every non-empty cell has exactly one controller and a top value; an empty one has neither. */
  lemma ControlIsExclusive(cell: Cell)
    ensures IsControlledBy(cell, Black) || IsControlledBy(cell, White) <==> |cell| > 0
    ensures !(IsControlledBy(cell, Black) && IsControlledBy(cell, White))
    ensures TopValue(cell).Some? <==> |cell| > 0
  {
  }

  /** Up, down, left, right: the order in which the search tries them. */
  const DIRECTIONS: seq<Direction> := [Direction(-1, 0), Direction(1, 0), Direction(0, -1), Direction(0, 1)]

  predicate IsOpposite(dir: Direction, last: Direction) {
    dir.dr == -last.dr && dir.dc == -last.dc
  }

  function Next(p: Position, dir: Direction): Position {
    Position(p.row + dir.dr, p.col + dir.dc)
  }

  /** How many steps in direction `dir` stay on the board, starting from `p`. */
  function Reach(p: Position, dir: Direction): int
    requires dir in DIRECTIONS
  {
    if dir.dr == -1 then p.row
    else if dir.dr == 1 then 5 - p.row
    else if dir.dc == -1 then p.col
    else 5 - p.col
  }

  /** Each direction is a unit orthogonal step, is not its own opposite, and its reverse is also a direction. */
  lemma DirectionsAreUnitSteps(dir: Direction)
    requires dir in DIRECTIONS
    ensures !IsOpposite(dir, dir)
    ensures Direction(-dir.dr, -dir.dc) in DIRECTIONS
    ensures (dir.dr == 0) != (dir.dc == 0) && -1 <= dir.dr <= 1 && -1 <= dir.dc <= 1
  {
  }

  /** From a cell on the board, one more step stays on the board exactly when some reach is left. */
  lemma StepStaysOnBoard(p: Position, dir: Direction)
    requires InBounds(p) && dir in DIRECTIONS
    ensures 0 <= Reach(p, dir) <= 5
    ensures InBounds(Next(p, dir)) <==> Reach(p, dir) >= 1
    ensures InBounds(Next(p, dir)) ==> Reach(Next(p, dir), dir) == Reach(p, dir) - 1
  {
  }

  /** All the pieces in a row of cells, counted with multiplicity. */
  function RowPieces(row: seq<Cell>): multiset<Piece> {
    if row == [] then multiset{} else multiset(row[0]) + RowPieces(row[1..])
  }

  /** All the pieces on a board, counted with multiplicity. */
  function BoardPieces(rows: seq<seq<Cell>>): multiset<Piece> {
    if rows == [] then multiset{} else RowPieces(rows[0]) + BoardPieces(rows[1..])
  }

  lemma {:induction false} RowUpdatePieces(row: seq<Cell>, c: nat, x: Cell)
    requires c < |row|
    ensures RowPieces(row[c := x]) + multiset(row[c]) == RowPieces(row) + multiset(x)
    decreases c
  {
    var row' := row[c := x];
    if c == 0 {
      assert row'[1..] == row[1..];
    } else {
      assert row'[0] == row[0];
      assert row'[1..] == row[1..][c - 1 := x];
      assert row[1..][c - 1] == row[c];
      RowUpdatePieces(row[1..], c - 1, x);
      calc {
        RowPieces(row') + multiset(row[c]);
        multiset(row[0]) + RowPieces(row[1..][c - 1 := x]) + multiset(row[1..][c - 1]);
        multiset(row[0]) + (RowPieces(row[1..][c - 1 := x]) + multiset(row[1..][c - 1]));
        multiset(row[0]) + (RowPieces(row[1..]) + multiset(x));
        RowPieces(row) + multiset(x);
      }
    }
  }

  /** Replacing a whole row removes that row's pieces from the board and adds those of the new row. */
  lemma {:induction false} RowsSetPieces(rows: seq<seq<Cell>>, r: nat, x: seq<Cell>)
    requires r < |rows|
    ensures BoardPieces(rows[r := x]) + RowPieces(rows[r]) == BoardPieces(rows) + RowPieces(x)
    decreases r
  {
    var rows' := rows[r := x];
    var head, rest := RowPieces(rows[0]), BoardPieces(rows[1..]);
    assert BoardPieces(rows) == head + rest;
    if r == 0 {
      assert rows'[0] == x && rows'[1..] == rows[1..];
      assert BoardPieces(rows') == RowPieces(x) + rest;
      SwapEnds(RowPieces(x), rest, head);
    } else {
      assert rows'[0] == rows[0];
      assert rows'[1..] == rows[1..][r - 1 := x];
      assert rows[1..][r - 1] == rows[r];
      var rest' := BoardPieces(rows[1..][r - 1 := x]);
      assert BoardPieces(rows') == head + rest';
      RowsSetPieces(rows[1..], r - 1, x);
      Regroup(head, rest', RowPieces(rows[r]), rest, RowPieces(x));
    }
  }

  lemma SwapEnds(a: multiset<Piece>, m: multiset<Piece>, c: multiset<Piece>)
    ensures a + m + c == c + m + a
  {
    forall e ensures (a + m + c)[e] == (c + m + a)[e] {
    }
  }

  lemma Regroup(h: multiset<Piece>, t': multiset<Piece>, removed: multiset<Piece>, t: multiset<Piece>, added: multiset<Piece>)
    requires t' + removed == t + added
    ensures h + t' + removed == h + t + added
  {
    forall e ensures (h + t' + removed)[e] == (h + t + added)[e] {
      assert (t' + removed)[e] == (t + added)[e];
    }
  }

  lemma RowsUpdatePieces(rows: seq<seq<Cell>>, r: nat, c: nat, x: Cell)
    requires r < |rows| && c < |rows[r]|
    ensures BoardPieces(rows[r := rows[r][c := x]]) + multiset(rows[r][c]) == BoardPieces(rows) + multiset(x)
  {
    var row := rows[r];
    var after := BoardPieces(rows[r := row[c := x]]);
    RowsSetPieces(rows, r, row[c := x]);
    RowUpdatePieces(row, c, x);
    calc {
      after + multiset(row[c]) + RowPieces(row);
      (after + RowPieces(row)) + multiset(row[c]);
      BoardPieces(rows) + (RowPieces(row[c := x]) + multiset(row[c]));
      BoardPieces(rows) + multiset(x) + RowPieces(row);
    }
    MultisetCancel(after + multiset(row[c]), BoardPieces(rows) + multiset(x), RowPieces(row));
  }

  lemma MultisetCancel(x: multiset<Piece>, y: multiset<Piece>, z: multiset<Piece>)
    requires x + z == y + z
    ensures x == y
  {
    forall e ensures x[e] == y[e] {
      assert (x + z)[e] == (y + z)[e];
    }
  }

  /** The board `b` with the stack at `p` replaced by `x`. */
  function WithCell(b: Board, p: Position, x: Cell): (nb: Board)
    requires InBounds(p)
    ensures CellAt(nb, p) == x
    ensures forall q :: InBounds(q) && q != p ==> CellAt(nb, q) == CellAt(b, q)
  {
    b[p.row := b[p.row][p.col := x]]
  }

  /** Replacing one cell's stack by `x` removes that stack's pieces from the board and adds those of `x`. */
  lemma UpdateCellPieces(b: Board, p: Position, x: Cell)
    requires InBounds(p)
    ensures BoardPieces(WithCell(b, p, x)) + multiset(CellAt(b, p)) == BoardPieces(b) + multiset(x)
  {
    RowsUpdatePieces(b, p.row, p.col, x);
  }

  lemma {:induction false} EmptyRowsHoldNothing(rows: seq<seq<Cell>>)
    requires forall r, c :: 0 <= r < |rows| && 0 <= c < |rows[r]| ==> rows[r][c] == []
    ensures BoardPieces(rows) == multiset{}
  {
    if rows != [] {
      EmptyRowHoldsNothing(rows[0]);
      EmptyRowsHoldNothing(rows[1..]);
    }
  }

  lemma {:induction false} EmptyRowHoldsNothing(row: seq<Cell>)
    requires forall c :: 0 <= c < |row| ==> row[c] == []
    ensures RowPieces(row) == multiset{}
  {
    if row != [] {
      EmptyRowHoldsNothing(row[1..]);
    }
  }

  /** Extending a visited path keeps its head, the source of the move. */
  lemma HeadOfExtended(path: seq<Position>, next: Position)
    requires |path| > 0
    ensures (path + [next])[0] == path[0] && |path + [next]| > 0
  {
  }
}

/** Setting up a game (src/gameLogic.ts, lines 3-50). */
module Setup {
  import opened Types
  import opened Accessors

  /** `n` pieces of each value 1, 2 and 3, all of colour `c`. */
  function Pieces(c: Player, n: nat): multiset<Piece> {
    multiset{}[Piece(c, 1) := n][Piece(c, 2) := n][Piece(c, 3) := n]
  }

  /** The eighteen pieces a player starts with: six of each value. */
  function Supply(c: Player): multiset<Piece> {
    Pieces(c, 6)
  }

  /** `createPieces`: six rounds of pushing one piece of each value, in the order 1, 2, 3. */
  method CreatePieces(color: Player) returns (pieces: seq<Piece>)
    ensures |pieces| == 18
    ensures forall k :: 0 <= k < 18 ==> pieces[k] == Piece(color, k % 3 + 1)
    ensures multiset(pieces) == Supply(color)
  {
    pieces := [];
    for i := 0 to 6
      invariant |pieces| == 3 * i
      invariant forall k :: 0 <= k < 3 * i ==> pieces[k] == Piece(color, k % 3 + 1)
      invariant multiset(pieces) == Pieces(color, i)
    {
      ghost var before := pieces;
      pieces := pieces + [Piece(color, 1)];
      pieces := pieces + [Piece(color, 2)];
      pieces := pieces + [Piece(color, 3)];
      assert pieces == before + [Piece(color, 1), Piece(color, 2), Piece(color, 3)];
      OneRound(color, i);
      RoundIndices(before, pieces, color, i);
    }
  }

  /** One more round adds one piece of each value. */
  lemma OneRound(c: Player, n: nat)
    ensures Pieces(c, n + 1) == Pieces(c, n) + multiset([Piece(c, 1), Piece(c, 2), Piece(c, 3)])
  {
    var round := multiset([Piece(c, 1), Piece(c, 2), Piece(c, 3)]);
    forall e ensures Pieces(c, n + 1)[e] == (Pieces(c, n) + round)[e] {
      assert round[e] == if e in {Piece(c, 1), Piece(c, 2), Piece(c, 3)} then 1 else 0;
    }
  }

  lemma RoundIndices(before: seq<Piece>, after: seq<Piece>, c: Player, i: nat)
    requires |before| == 3 * i && after == before + [Piece(c, 1), Piece(c, 2), Piece(c, 3)]
    requires forall k :: 0 <= k < 3 * i ==> before[k] == Piece(c, k % 3 + 1)
    ensures forall k :: 0 <= k < 3 * (i + 1) ==> after[k] == Piece(c, k % 3 + 1)
  {
    assert (3 * i) % 3 == 0 && (3 * i + 1) % 3 == 1 && (3 * i + 2) % 3 == 2;
  }

  /**
   * `shuffle`: Fisher-Yates on a copy of `items`, from the last index down to 1, swapping index `i`
   * with `choices[i]`. The source draws `choices[i]` uniformly from 0..i; here it is a parameter.
   */
  method Shuffle<T>(items: seq<T>, choices: seq<nat>) returns (shuffled: seq<T>)
    requires |choices| == |items|
    requires forall i :: 0 <= i < |items| ==> choices[i] <= i
    ensures |shuffled| == |items|
    ensures multiset(shuffled) == multiset(items)
  {
    var a := new T[|items|](k requires 0 <= k < |items| => items[k]);
    assert a[..] == items;
    var i := |items| - 1;
    while i > 0
      invariant -1 <= i < |items|
      invariant multiset(a[..]) == multiset(items)
    {
      var j := choices[i];
      a[i], a[j] := a[j], a[i];
      i := i - 1;
    }
    shuffled := a[..];
  }

  /** A row holding the pieces of `cells` one per cell, in order. */
  function SingletonRow(cells: seq<Piece>): (row: seq<Cell>)
    ensures |row| == |cells| && forall c :: 0 <= c < |cells| ==> row[c] == [cells[c]]
  {
    seq(|cells|, c requires 0 <= c < |cells| => [cells[c]])
  }

  /**
   * One of the two placement loops: the 18 `pieces` go one per cell, row by row, into the three
   * rows starting at `firstRow`, which must be empty; no other row changes.
   */
  method PlaceRows(b: Board, pieces: seq<Piece>, firstRow: nat) returns (nb: Board)
    requires |pieces| == 18 && firstRow <= 3
    requires forall r, c :: firstRow <= r < firstRow + 3 && 0 <= c < 6 ==> b[r][c] == []
    ensures forall r :: firstRow <= r < firstRow + 3 ==>
              nb[r] == SingletonRow(pieces[6 * (r - firstRow)..6 * (r - firstRow) + 6])
    ensures forall r :: 0 <= r < 6 && !(firstRow <= r < firstRow + 3) ==> nb[r] == b[r]
    ensures forall r, c :: firstRow <= r < firstRow + 3 && 0 <= c < 6 ==> |nb[r][c]| == 1 && nb[r][c][0] in pieces
    ensures BoardPieces(nb) == BoardPieces(b) + multiset(pieces)
  {
    nb := b;
    var index := 0;
    for row := firstRow to firstRow + 3
      invariant index == 6 * (row - firstRow)
      invariant forall r :: firstRow <= r < row ==>
                  nb[r] == SingletonRow(pieces[6 * (r - firstRow)..6 * (r - firstRow) + 6])
      invariant forall r :: 0 <= r < 6 && !(firstRow <= r < row) ==> nb[r] == b[r]
    {
      ghost var start := index;
      var cells := nb[row];
      for col := 0 to 6
        invariant index == start + col && |cells| == 6
        invariant cells[..col] == SingletonRow(pieces[start..index])
        invariant cells[col..] == b[row][col..]
      {
        ghost var before := cells;
        cells := cells[col := [pieces[index]]];
        index := index + 1;
        forall c | 0 <= c < col + 1 ensures cells[..col + 1][c] == SingletonRow(pieces[start..index])[c] {
          if c < col {
            assert before[..col][c] == SingletonRow(pieces[start..index - 1])[c];
          }
        }
      }
      assert cells == cells[..6];
      nb := nb[row := cells];
    }
    PlacedBlockPieces(b, nb, pieces, firstRow);
    PlacedBlockCells(nb, pieces, firstRow);
  }

  /** Each cell of a filled block holds one piece, taken from `pieces`. */
  lemma PlacedBlockCells(nb: Board, pieces: seq<Piece>, firstRow: nat)
    requires |pieces| == 18 && firstRow <= 3
    requires forall r :: firstRow <= r < firstRow + 3 ==>
               nb[r] == SingletonRow(pieces[6 * (r - firstRow)..6 * (r - firstRow) + 6])
    ensures forall r, c :: firstRow <= r < firstRow + 3 && 0 <= c < 6 ==> |nb[r][c]| == 1 && nb[r][c][0] in pieces
  {
    forall r, c | firstRow <= r < firstRow + 3 && 0 <= c < 6 ensures |nb[r][c]| == 1 && nb[r][c][0] in pieces {
      var slice := pieces[6 * (r - firstRow)..6 * (r - firstRow) + 6];
      assert nb[r][c] == [slice[c]];
      assert slice[c] in slice;
    }
  }

  /** A block of three empty rows filled with the 18 `pieces` adds exactly those pieces to the board. */
  lemma PlacedBlockPieces(b: Board, nb: Board, pieces: seq<Piece>, firstRow: nat)
    requires |pieces| == 18 && firstRow <= 3
    requires forall r, c :: firstRow <= r < firstRow + 3 && 0 <= c < 6 ==> b[r][c] == []
    requires forall r :: firstRow <= r < firstRow + 3 ==>
               nb[r] == SingletonRow(pieces[6 * (r - firstRow)..6 * (r - firstRow) + 6])
    requires forall r :: 0 <= r < 6 && !(firstRow <= r < firstRow + 3) ==> nb[r] == b[r]
    ensures BoardPieces(nb) == BoardPieces(b) + multiset(pieces)
  {
    var p0, p1, p2 := pieces[..6], pieces[6..12], pieces[12..];
    assert nb[firstRow] == SingletonRow(p0);
    assert nb[firstRow + 1] == SingletonRow(p1);
    assert nb[firstRow + 2] == SingletonRow(p2);
    assert nb == b[firstRow := SingletonRow(p0)][firstRow + 1 := SingletonRow(p1)][firstRow + 2 := SingletonRow(p2)];
    assert pieces == p0 + p1 + p2;
    ThreeRowsPieces(b, firstRow, p0, p1, p2);
  }

  lemma ThreeRowsPieces(b: Board, firstRow: nat, p0: seq<Piece>, p1: seq<Piece>, p2: seq<Piece>)
    requires firstRow <= 3 && |p0| == |p1| == |p2| == 6
    requires forall r, c :: firstRow <= r < firstRow + 3 && 0 <= c < 6 ==> b[r][c] == []
    ensures BoardPieces(b[firstRow := SingletonRow(p0)][firstRow + 1 := SingletonRow(p1)][firstRow + 2 := SingletonRow(p2)])
            == BoardPieces(b) + multiset(p0 + p1 + p2)
  {
    var b1 := b[firstRow := SingletonRow(p0)];
    FillRowPieces(b, firstRow, SingletonRow(p0), p0);
    assert b1[firstRow + 1] == b[firstRow + 1];
    var b2 := b1[firstRow + 1 := SingletonRow(p1)];
    FillRowPieces(b1, firstRow + 1, SingletonRow(p1), p1);
    assert b2[firstRow + 2] == b[firstRow + 2];
    FillRowPieces(b2, firstRow + 2, SingletonRow(p2), p2);
    JoinThree(BoardPieces(b), p0, p1, p2);
  }

  lemma JoinThree(m: multiset<Piece>, p0: seq<Piece>, p1: seq<Piece>, p2: seq<Piece>)
    ensures m + multiset(p0) + multiset(p1) + multiset(p2) == m + multiset(p0 + p1 + p2)
  {
    assert multiset(p0 + p1 + p2) == multiset(p0) + multiset(p1) + multiset(p2);
    forall e ensures (m + multiset(p0) + multiset(p1) + multiset(p2))[e] == (m + multiset(p0 + p1 + p2))[e] {
    }
  }

  /** Filling the empty row `row` with `cells` adds the pieces of `cells` to the board. */
  lemma FillRowPieces(b: seq<seq<Cell>>, row: nat, cells: seq<Cell>, placed: seq<Piece>)
    requires row < |b| && forall c :: 0 <= c < |b[row]| ==> b[row][c] == []
    requires cells == SingletonRow(placed)
    ensures BoardPieces(b[row := cells]) == BoardPieces(b) + multiset(placed)
  {
    EmptyRowHoldsNothing(b[row]);
    SingletonRowPieces(placed);
    RowsSetPieces(b, row, cells);
  }

  lemma {:induction false} SingletonRowPieces(cells: seq<Piece>)
    ensures RowPieces(SingletonRow(cells)) == multiset(cells)
  {
    if cells != [] {
      assert SingletonRow(cells)[1..] == SingletonRow(cells[1..]);
      SingletonRowPieces(cells[1..]);
      assert cells == [cells[0]] + cells[1..];
    }
  }

  /** The board with no pieces at all. */
  function EmptyBoard(): (b: Board)
    ensures forall r, c :: 0 <= r < 6 && 0 <= c < 6 ==> b[r][c] == []
    ensures BoardPieces(b) == multiset{}
  {
    var b: Board := seq(6, _ => seq(6, _ => []));
    EmptyRowsHoldNothing(b);
    b
  }

  /**
   * `initializeBoard`, given the swap choices of the two shuffles: every cell holds one piece,
   * rows 0-2 black and rows 3-5 white, and the board holds exactly six pieces of each value per colour.
   */
  method InitializeBoard(blackChoices: seq<nat>, whiteChoices: seq<nat>) returns (board: Board)
    requires |blackChoices| == 18 && forall i :: 0 <= i < 18 ==> blackChoices[i] <= i
    requires |whiteChoices| == 18 && forall i :: 0 <= i < 18 ==> whiteChoices[i] <= i
    ensures forall r, c :: 0 <= r < 6 && 0 <= c < 6 ==> |board[r][c]| == 1
    ensures forall r, c :: 0 <= r < 6 && 0 <= c < 6 ==> board[r][c][0].color == if r < 3 then Black else White
    ensures BoardPieces(board) == Supply(Black) + Supply(White)
  {
    board := EmptyBoard();
    var blackPieces := CreatePieces(Black);
    blackPieces := Shuffle(blackPieces, blackChoices);
    OfColour(blackPieces, Black);
    board := PlaceRows(board, blackPieces, 0);
    ghost var blackRows := board;
    var whitePieces := CreatePieces(White);
    whitePieces := Shuffle(whitePieces, whiteChoices);
    OfColour(whitePieces, White);
    board := PlaceRows(board, whitePieces, 3);
    forall r, c | 0 <= r < 3 && 0 <= c < 6 ensures |board[r][c]| == 1 && board[r][c][0].color == Black {
      assert board[r] == blackRows[r];
    }
  }

  /** A sequence with the pieces of `Supply(c)` holds only pieces of colour `c`. */
  lemma OfColour(pieces: seq<Piece>, c: Player)
    requires multiset(pieces) == Supply(c)
    ensures forall q :: q in pieces ==> q.color == c
  {
    forall q | q in pieces ensures q.color == c {
      assert q in multiset(pieces);
    }
  }

  /** Six pieces of each value of each colour: the inventory fixed at setup. */
  lemma SupplyCounts(c: Player, v: Value)
    ensures (Supply(Black) + Supply(White))[Piece(c, v)] == 6
    ensures |Supply(Black) + Supply(White)| == 36
  {
  }
}

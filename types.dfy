/** The value types of the game (src/types.ts). */
module Types {

  datatype Option<T> = None | Some(value: T)

  /** The two players. */
  datatype Player = Black | White

  /** A piece value (its rank): I, II or III. */
  type Value = v: int | 1 <= v <= 3 witness 1

  datatype Piece = Piece(color: Player, value: Value)

  /** A cell is a stack of pieces, bottom to top: the last element is the top. */
  type Cell = seq<Piece>

  /** A position on the board; the type itself does not imply it is on the board. */
  datatype Position = Position(row: int, col: int)

  /** A unit step on the grid. */
  datatype Direction = Direction(dr: int, dc: int)

  /** The fixed 6x6 grid, indexed board[row][col]. */
  type Board = b: seq<seq<Cell>> | |b| == 6 && forall r :: 0 <= r < 6 ==> |b[r]| == 6
    witness seq(6, _ => seq(6, _ => []))
}

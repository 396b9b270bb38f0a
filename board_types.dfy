/** Value types shared by the square board and the game board: the cell
    identity, the four directions, and the optional / failing results that
    stand for Kotlin's nullable types and exceptions. */
module BoardTypes {

  /** A board position: row `i` and column `j`, both 1-based on a valid board.
      Equality is structural, as for the Kotlin data class. */
  datatype Cell = Cell(i: int, j: int)

  datatype Direction = Up | Down | Left | Right

  /** `T?` of the source: `None` is Kotlin's `null`. */
  datatype Option<T> = None | Some(value: T)

  /** The two exceptions the board can raise. */
  datatype BoardError =
    | OutOfBounds      // getCell: IllegalArgumentException
    | NotFound         // find: NoSuchElementException thrown by `first`

  datatype Result<T> = Success(value: T) | Failure(error: BoardError)

  /** The direction that undoes a step in `d`. */
  function Opposite(d: Direction): (r: Direction)
    ensures r != d
  {
    match d
    case Up => Down
    case Down => Up
    case Left => Right
    case Right => Left
  }
}

# Square board and game board, modelled in Dafny

This project models the board library of a Kotlin puzzle-game project, `board/BoardImpl.kt`.
The library has two layers:

- **`SquareBoardImpl`** is a square grid of `Cell(i, j)` for `1 <= i, j <= width`. It stores the grid in a
  map keyed by `(i, j)` and fills the map with nested loops at construction. It offers:
  - bounds-checked lookup: `getCellOrNull` returns null, `getCell` throws;
  - the list of all cells;
  - row and column slices along an arbitrary `IntProgression`, which skip coordinates that fall off the board;
  - the neighbour one step UP, DOWN, LEFT or RIGHT of a cell.
- **`GameBoardImpl<T>`** adds a mutable map from each cell to a nullable `T`. Every slot starts as null.
  It offers `get`, `set` and the predicate queries `filter`, `find`, `any` and `all`.

Files:

- `board_types.dfy` (module `BoardTypes`) holds the value types:
  - `Cell` and `Direction`;
  - `Option` for Kotlin's nullable results;
  - `Result` for the two exceptions, `OutOfBounds` from `getCell` and `NotFound` from `find`.
- `progression.dfy` (module `Progressions`) models Kotlin's `IntProgression` as `(first, last, step)`.
  `Elements` lists the values a `for` loop visits. The lemmas say those values stay between `first` and
  `last`, are strictly ordered in the direction of the step, that the k-th one is `first + k * step`,
  and that `a..b` is `a, a+1, ..., b`.
- `square_board.dfy` (module `SquareBoards`) holds class `SquareBoard` and its specification functions:
  - `width` and the `board` map are constants, fixed by the constructor's nested loops;
  - `Valid()` says the map holds exactly the in-grid coordinates, each mapped to its own cell;
  - `GetRow` and `GetColumn` are loops over the progression, proved equal to `RowSlice` / `ColumnSlice`;
  - those specification functions are the in-order, clipped subsequences of `[Cell(i, j) | j in jRange]`
    and `[Cell(i, j) | i in iRange]`, and lemmas state their members, order, length and edge cases.
- `game_board.dfy` (module `GameBoards`) holds class `GameBoard<T>`. It wraps a `SquareBoard` (field `grid`)
  and a mutable `data: map<Cell, Option<T>>`.
  - The query functions take Kotlin's predicates as total Dafny functions `Option<T> -> bool`.
  - Lemmas tie `any`, `all` and `filter` to one another and give their answers on a fresh board.

Two methods without contracts, `Width3Example` and `SetGetExample`, walk through a width-3 board as a
client would: row 2 over `1..3`, the neighbours of `(2, 2)` and `(1, 1)`, and a value set and then cleared.

Two behaviours of the code at the edges of its domain are kept as they are:

- A width of 0 or less builds an empty board; no width is rejected.
- `get` on a cell outside the board returns null. `set` on such a cell adds a slot for it, which
  `filter`, `find`, `any` and `all` then see.
  For this reason `GameBoard.Valid()` only requires every grid cell to have a slot. `KeysAreGrid()`,
  "the slots are exactly the grid cells", holds after construction and is kept by every `Set` on a grid cell.

## Model

| member | source | states |
|---|---|---|
| `SquareBoards.SquareBoard.constructor` | Games/Task/src/board/BoardImpl.kt:9-18 | the nested loops leave `board` holding exactly the in-grid coordinates `(i, j)`, each mapped to `Cell(i, j)` (`Valid()`), for any width |
| `SquareBoards.CreateSquareBoard` | Games/Task/src/board/BoardImpl.kt:6 | returns a fresh, valid board of the requested width |
| `SquareBoards.SquareBoard.GetCellOrNull` | Games/Task/src/board/BoardImpl.kt:20 | the result is present exactly when `1 <= i, j <= width`, and is then `Cell(i, j)` |
| `SquareBoards.SquareBoard.GetCell` | Games/Task/src/board/BoardImpl.kt:22-23 | fails with `OutOfBounds` exactly when `getCellOrNull` is null; otherwise returns the same cell, `Cell(i, j)` |
| `SquareBoards.SquareBoard.GetAllCells` | Games/Task/src/board/BoardImpl.kt:25 | the cells are exactly those with both coordinates in `[1, width]`, and there are `width * width` of them (0 when `width <= 0`) |
| `SquareBoards.GridCellsCount` | Games/Task/src/board/BoardImpl.kt:12-18 | the grid the constructor fills has `width * width` distinct cells (none when `width <= 0`) |
| `SquareBoards.SquareBoard.GetRow` | Games/Task/src/board/BoardImpl.kt:27-33 | the loop over `jRange` returns `RowSlice`: the in-order subsequence of `[Cell(i, j) | j in jRange]` that lies on the board |
| `SquareBoards.SquareBoard.GetColumn` | Games/Task/src/board/BoardImpl.kt:35-41 | the loop over `iRange` returns `ColumnSlice`: the in-order subsequence of `[Cell(i, j) | i in iRange]` that lies on the board |
| `SquareBoards.RowSliceMembers` | Games/Task/src/board/BoardImpl.kt:29-31 | a cell is in the row slice iff its row is `i`, its column is visited by the progression, and it is on the board; the slice is no longer than the progression |
| `SquareBoards.ColumnSliceMembers` | Games/Task/src/board/BoardImpl.kt:37-39 | a cell is in the column slice iff its column is `j`, its row is visited by the progression, and it is on the board; the slice is no longer than the progression |
| `SquareBoards.RowSliceOffBoard` | Games/Task/src/board/BoardImpl.kt:27-33 | a row index outside `[1, width]` gives an empty slice for every progression |
| `SquareBoards.ColumnSliceOffBoard` | Games/Task/src/board/BoardImpl.kt:35-41 | a column index outside `[1, width]` gives an empty slice for every progression |
| `SquareBoards.RowSliceOrdered` | Games/Task/src/board/BoardImpl.kt:29-31 | the slice keeps the progression's order: columns strictly increase for a positive step and strictly decrease for a negative one |
| `SquareBoards.ColumnSliceOrdered` | Games/Task/src/board/BoardImpl.kt:37-39 | the slice keeps the progression's order: rows strictly increase for a positive step and strictly decrease for a negative one |
| `SquareBoards.RowSliceAtMostWidth` | Games/Task/src/board/BoardImpl.kt:27-33 | however far the progression overshoots the board, a row slice has at most `width` cells |
| `SquareBoards.ColumnSliceAtMostWidth` | Games/Task/src/board/BoardImpl.kt:35-41 | however far the progression overshoots the board, a column slice has at most `width` cells |
| `SquareBoards.FullRow` | Games/Task/src/board/BoardImpl.kt:27-33 | `getRow(i, 1..width)` for a valid `i` is `Cell(i, 1), ..., Cell(i, width)` in that order |
| `SquareBoards.FullColumn` | Games/Task/src/board/BoardImpl.kt:35-41 | `getColumn(1..width, j)` for a valid `j` is `Cell(1, j), ..., Cell(width, j)` in that order |
| `Progressions.ElementsBounded` | Games/Task/src/board/BoardImpl.kt:29 | every value a `for` loop over a progression visits lies between its `first` and `last` |
| `Progressions.ElementsOrdered` | Games/Task/src/board/BoardImpl.kt:29 | a `for` loop over a progression visits strictly increasing values for a positive step and strictly decreasing values for a negative one, so no value repeats |
| `Progressions.IntRangeElements` | Games/Task/src/board/BoardImpl.kt:13-14 | `a..b` visits exactly `a, a+1, ..., b`, and nothing when `a > b` |
| `Progressions.ElementsAt` | Games/Task/src/board/BoardImpl.kt:29 | the k-th value a loop over a progression visits is `first + k * step`, for ascending, descending and stepped progressions alike |
| `SquareBoards.SquareBoard.GetNeighbour` | Games/Task/src/board/BoardImpl.kt:43-50 | UP gives `(i-1, j)`, DOWN `(i+1, j)`, LEFT `(i, j-1)` and RIGHT `(i, j+1)` when that cell is on the board, and null otherwise |
| `SquareBoards.SquareBoard.NeighbourRoundTrip` | Games/Task/src/board/BoardImpl.kt:43-50 | for a cell on the board, going to its neighbour in a direction and back in the opposite direction returns to the cell |
| `SquareBoards.SquareBoard.CornerNeighbours` | Games/Task/src/board/BoardImpl.kt:43-50 | `Cell(1, 1)` has no UP or LEFT neighbour; its DOWN and RIGHT neighbours are `(2, 1)` and `(1, 2)` once `width >= 2` |
| `GameBoards.GameBoard.constructor` | Games/Task/src/board/BoardImpl.kt:53-62 | the slots are exactly the grid cells (taken from `getCell`), all null, over a fresh grid of the given width |
| `GameBoards.CreateGameBoard` | Games/Task/src/board/BoardImpl.kt:7 | returns a fresh game board whose slots are exactly the grid cells, all null |
| `GameBoards.GameBoard.Get` | Games/Task/src/board/BoardImpl.kt:64 | the slot's value, and null for a cell that has no slot |
| `GameBoards.GameBoard.Set` | Games/Task/src/board/BoardImpl.kt:66-68 | afterwards `get(cell)` is the new value and every other cell's value is unchanged; the key set gains at most `cell`, and is unchanged for a grid cell |
| `GameBoards.GameBoard.Filter` | Games/Task/src/board/BoardImpl.kt:70 | a cell is in the result exactly when it has a slot (foreign slots added by `set` included) and `p(get(cell))` holds; on a valid board every grid cell has a slot, so a grid cell is in it exactly when `p(get(cell))` holds |
| `GameBoards.GameBoard.Find` | Games/Task/src/board/BoardImpl.kt:72 | fails with `NotFound` exactly when no slot satisfies `p`; otherwise returns a cell of `filter(p)` |
| `GameBoards.GameBoard.Any` | Games/Task/src/board/BoardImpl.kt:74 | the answer over the slot values is true exactly when some slot's cell has a value satisfying `p` |
| `GameBoards.GameBoard.All` | Games/Task/src/board/BoardImpl.kt:76 | the answer over the slot values is true exactly when every slot's cell has a value satisfying `p` |
| `GameBoards.NewBoardQueries` | Games/Task/src/board/BoardImpl.kt:56-62 | on a board whose slots are all null, `all(isNull)` holds and `any(isNonNull)` does not |
| `GameBoards.AnyIffFilterNonEmpty` | Games/Task/src/board/BoardImpl.kt:70-74 | `any(p)` holds exactly when `filter(p)` is not empty |
| `GameBoards.AllIffFilterEverything` | Games/Task/src/board/BoardImpl.kt:70-76 | `all(p)` holds exactly when `filter(p)` returns every slot |
| `GameBoards.AllIsNotAnyNot` | Games/Task/src/board/BoardImpl.kt:74-76 | `all(p)` is the negation of `any(not p)` |
| `GameBoards.FilterOnGrid` | Games/Task/src/board/BoardImpl.kt:70-76 | when the slots are exactly the grid cells, `filter(p)` is the set of grid cells whose value satisfies `p`, and `all(p)` says `p` holds of every grid cell's value |

## Left out

- GameBoards.GameBoard.Find: returns some matching cell rather than the first one. The Kotlin map is a `LinkedHashMap`, so its `first` scans keys in insertion order: row-major for the grid cells, then any foreign cells in the order they were set.
- SquareBoards.SquareBoard.GetAllCells: returns a set rather than Kotlin's collection of map values, whose order is insertion order. The values are pairwise distinct, so the size is the same.
- GameBoards.GameBoard.Filter: returns a set rather than Kotlin's list in key insertion order.
- 32-bit `Int` arithmetic: coordinates are unbounded integers. The `i + 1` / `j - 1` in `getNeighbour` wrap only for a cell whose coordinates are at the limits of `Int`. The wrapped coordinate lies on the board only when `width` is near 2^31, and such a board cannot be built, so the result is null either way. Kotlin's progression iteration stops at its normalised last element and never wraps.
- Inheritance: `GameBoardImpl` extends `SquareBoardImpl`. Here a `GameBoard` holds its `SquareBoard` in the field `grid` and delegates geometry to it.
- The `SquareBoard`/`GameBoard` interfaces, the `Cell` data class and the `Direction` enum are not part of this model. `Cell`, `Direction` and the progression are declared here with the fields the implementation uses.
- The exception message `"Out of bounds $i $j"`: failures are `Result` values `OutOfBounds` and `NotFound`, with no text.
- Predicates passed to `filter`, `find`, `any` and `all` are total, side-effect-free functions. A Kotlin lambda that throws or has effects is not modelled.
- Kotlin's `IntProgression` rejects a zero step when it is built. Here that is the precondition `step != 0` on `GetRow` and `GetColumn`.

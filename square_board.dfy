/** The square grid of `SquareBoardImpl`: one `Cell(i, j)` for every
    `1 <= i, j <= width`, bounds-checked lookup, row and column slices along
    an integer progression, and the four-way neighbour relation. */
module SquareBoards {
  import opened BoardTypes
  import opened Progressions

  // ---------------------------------------------------------------------
  // Geometry of a board of a given width
  // ---------------------------------------------------------------------

  predicate InGrid(width: int, i: int, j: int) {
    1 <= i <= width && 1 <= j <= width
  }

  /** The cells a board of side `width` owns. */
  function GridCells(width: int): set<Cell> {
    set i, j | 1 <= i <= width && 1 <= j <= width :: Cell(i, j)
  }

  lemma GridCellsMembers(width: int)
    ensures forall c :: c in GridCells(width) <==> InGrid(width, c.i, c.j)
  {
  }

  /** The cells of rows 1..n of a board of side `width`. */
  function FirstRows(n: int, width: int): set<Cell> {
    set i, j | 1 <= i <= n && 1 <= j <= width :: Cell(i, j)
  }

  /** The cells of row `i`, columns 1..n. */
  function RowPrefix(i: int, n: int): set<Cell> {
    set j | 1 <= j <= n :: Cell(i, j)
  }

  lemma {:induction false} RowPrefixCount(i: int, n: nat)
    ensures |RowPrefix(i, n)| == n
  {
    if n > 0 {
      RowPrefixCount(i, n - 1);
      assert RowPrefix(i, n) == RowPrefix(i, n - 1) + {Cell(i, n)};
      assert Cell(i, n) !in RowPrefix(i, n - 1);
    } else {
      assert RowPrefix(i, n) == {};
    }
  }

  /** Rows 1..n are rows 1..n-1 plus row n, which share no cell. */
  lemma FirstRowsSplit(n: int, width: int)
    requires n >= 1
    ensures FirstRows(n, width) == FirstRows(n - 1, width) + RowPrefix(n, width)
    ensures FirstRows(n - 1, width) !! RowPrefix(n, width)
  {
  }

  lemma {:induction false} FirstRowsCount(n: nat, width: nat)
    ensures |FirstRows(n, width)| == n * width
  {
    if n > 0 {
      FirstRowsCount(n - 1, width);
      RowPrefixCount(n, width);
      FirstRowsSplit(n, width);
      assert |FirstRows(n - 1, width) + RowPrefix(n, width)| == (n - 1) * width + width;
      assert (n - 1) * width + width == n * width;
    } else {
      assert FirstRows(n, width) == {};
    }
  }

  /** A board of side `width` owns `width * width` cells (none when `width <= 0`). */
  lemma GridCellsCount(width: int)
    ensures |GridCells(width)| == if width > 0 then width * width else 0
  {
    if width > 0 {
      FirstRowsCount(width, width);
      assert GridCells(width) == FirstRows(width, width);
    } else {
      assert GridCells(width) == {};
    }
  }

  // ---------------------------------------------------------------------
  // Row and column slices
  // ---------------------------------------------------------------------

  /** The in-order subsequence of `cs` that lies on a board of side `width`. */
  function Clip(width: int, cs: seq<Cell>): seq<Cell> {
    if cs == [] then []
    else (if InGrid(width, cs[0].i, cs[0].j) then [cs[0]] else []) + Clip(width, cs[1..])
  }

  /** `[Cell(i, j) | j in js]` */
  function RowOf(i: int, js: seq<int>): seq<Cell> {
    if js == [] then [] else [Cell(i, js[0])] + RowOf(i, js[1..])
  }

  /** `[Cell(i, j) | i in rows]` */
  function ColumnOf(rows: seq<int>, j: int): seq<Cell> {
    if rows == [] then [] else [Cell(rows[0], j)] + ColumnOf(rows[1..], j)
  }

  /** What `getRow(i, jRange)` returns when `jRange` visits `js`. */
  function RowSlice(width: int, i: int, js: seq<int>): seq<Cell> {
    Clip(width, RowOf(i, js))
  }

  /** What `getColumn(iRange, j)` returns when `iRange` visits `rows`. */
  function ColumnSlice(width: int, rows: seq<int>, j: int): seq<Cell> {
    Clip(width, ColumnOf(rows, j))
  }

  lemma {:induction false} ClipMembers(width: int, cs: seq<Cell>)
    ensures |Clip(width, cs)| <= |cs|
    ensures forall c :: c in Clip(width, cs) <==> c in cs && InGrid(width, c.i, c.j)
  {
    if cs != [] {
      ClipMembers(width, cs[1..]);
      assert cs == [cs[0]] + cs[1..];
    }
  }

  /** Clipping keeps the relative order of the cells it keeps. */
  lemma {:induction false} ClipOrdered(width: int, cs: seq<Cell>, key: Cell -> int, up: bool)
    requires forall a, b :: 0 <= a < b < |cs| ==> Before(key(cs[a]), key(cs[b]), up)
    ensures forall a, b :: 0 <= a < b < |Clip(width, cs)| ==>
      Before(key(Clip(width, cs)[a]), key(Clip(width, cs)[b]), up)
  {
    if cs != [] {
      var rest := cs[1..];
      ClipOrdered(width, rest, key, up);
      ClipMembers(width, rest);
      var r := Clip(width, cs);
      if InGrid(width, cs[0].i, cs[0].j) {
        assert r == [cs[0]] + Clip(width, rest);
        forall a, b | 0 <= a < b < |r| ensures Before(key(r[a]), key(r[b]), up) {
          if a == 0 {
            assert r[b] in rest;
            var k :| 0 <= k < |rest| && rest[k] == r[b];
            assert cs[k + 1] == r[b];
          } else {
            assert r[a] == Clip(width, rest)[a - 1] && r[b] == Clip(width, rest)[b - 1];
          }
        }
      }
    }
  }

  lemma {:induction false} RowOfAt(i: int, js: seq<int>)
    ensures |RowOf(i, js)| == |js|
    ensures forall k :: 0 <= k < |js| ==> RowOf(i, js)[k] == Cell(i, js[k])
  {
    if js != [] {
      RowOfAt(i, js[1..]);
    }
  }

  lemma {:induction false} ColumnOfAt(rows: seq<int>, j: int)
    ensures |ColumnOf(rows, j)| == |rows|
    ensures forall k :: 0 <= k < |rows| ==> ColumnOf(rows, j)[k] == Cell(rows[k], j)
  {
    if rows != [] {
      ColumnOfAt(rows[1..], j);
    }
  }

  /** `RowSlice` holds exactly the in-grid cells of row `i` whose column is visited,
      and is no longer than the progression. */
  lemma RowSliceMembers(width: int, i: int, js: seq<int>)
    ensures |RowSlice(width, i, js)| <= |js|
    ensures forall c :: c in RowSlice(width, i, js) <==>
      c.i == i && c.j in js && InGrid(width, i, c.j)
  {
    RowOfAt(i, js);
    ClipMembers(width, RowOf(i, js));
    forall c: Cell | c.i == i && c.j in js ensures c in RowOf(i, js) {
      var k :| 0 <= k < |js| && js[k] == c.j;
      assert RowOf(i, js)[k] == c;
    }
  }

  /** Symmetric to `RowSliceMembers`, with the column fixed. */
  lemma ColumnSliceMembers(width: int, rows: seq<int>, j: int)
    ensures |ColumnSlice(width, rows, j)| <= |rows|
    ensures forall c :: c in ColumnSlice(width, rows, j) <==>
      c.j == j && c.i in rows && InGrid(width, c.i, j)
  {
    ColumnOfAt(rows, j);
    ClipMembers(width, ColumnOf(rows, j));
    forall c: Cell | c.j == j && c.i in rows ensures c in ColumnOf(rows, j) {
      var k :| 0 <= k < |rows| && rows[k] == c.i;
      assert ColumnOf(rows, j)[k] == c;
    }
  }

  lemma {:induction false} ClipOffGrid(width: int, cs: seq<Cell>)
    requires forall k :: 0 <= k < |cs| ==> !InGrid(width, cs[k].i, cs[k].j)
    ensures Clip(width, cs) == []
  {
    if cs != [] {
      ClipOffGrid(width, cs[1..]);
    }
  }

  /** A row outside the board gives an empty slice, whatever the progression. */
  lemma RowSliceOffBoard(width: int, i: int, js: seq<int>)
    requires !(1 <= i <= width)
    ensures RowSlice(width, i, js) == []
  {
    RowOfAt(i, js);
    ClipOffGrid(width, RowOf(i, js));
  }

  /** A column outside the board gives an empty slice, whatever the progression. */
  lemma ColumnSliceOffBoard(width: int, rows: seq<int>, j: int)
    requires !(1 <= j <= width)
    ensures ColumnSlice(width, rows, j) == []
  {
    ColumnOfAt(rows, j);
    ClipOffGrid(width, ColumnOf(rows, j));
  }

  /** A row slice follows the progression's order: columns strictly increase
      for a positive step and strictly decrease for a negative one. */
  lemma RowSliceOrdered(width: int, i: int, p: Progression)
    requires p.step != 0
    ensures forall a, b :: 0 <= a < b < |RowSlice(width, i, Elements(p))| ==>
      Before(RowSlice(width, i, Elements(p))[a].j, RowSlice(width, i, Elements(p))[b].j, p.step > 0)
  {
    var js := Elements(p);
    ElementsOrdered(p);
    RowOfAt(i, js);
    ClipOrdered(width, RowOf(i, js), (c: Cell) => c.j, p.step > 0);
  }

  /** A column slice follows the progression's order along the rows. */
  lemma ColumnSliceOrdered(width: int, p: Progression, j: int)
    requires p.step != 0
    ensures forall a, b :: 0 <= a < b < |ColumnSlice(width, Elements(p), j)| ==>
      Before(ColumnSlice(width, Elements(p), j)[a].i, ColumnSlice(width, Elements(p), j)[b].i, p.step > 0)
  {
    var rows := Elements(p);
    ElementsOrdered(p);
    ColumnOfAt(rows, j);
    ClipOrdered(width, ColumnOf(rows, j), (c: Cell) => c.i, p.step > 0);
  }

  /** Cells strictly ordered by a key that stays within [lo, hi] number at most hi - lo + 1. */
  lemma {:induction false} OrderedWithinBound(cs: seq<Cell>, key: Cell -> int, up: bool, lo: int, hi: int)
    requires forall a, b :: 0 <= a < b < |cs| ==> Before(key(cs[a]), key(cs[b]), up)
    requires forall k :: 0 <= k < |cs| ==> lo <= key(cs[k]) <= hi
    ensures |cs| <= if hi < lo then 0 else hi - lo + 1
  {
    if cs != [] {
      var x := key(cs[0]);
      var rest := cs[1..];
      assert forall k :: 0 <= k < |rest| ==> rest[k] == cs[k + 1];
      if up {
        OrderedWithinBound(rest, key, up, x + 1, hi);
      } else {
        OrderedWithinBound(rest, key, up, lo, x - 1);
      }
    }
  }

  /** However far the progression overshoots the board, a row slice holds at
      most `width` cells. */
  lemma RowSliceAtMostWidth(width: int, i: int, p: Progression)
    requires p.step != 0
    ensures |RowSlice(width, i, Elements(p))| <= if width < 0 then 0 else width
  {
    var r := RowSlice(width, i, Elements(p));
    RowSliceOrdered(width, i, p);
    RowSliceMembers(width, i, Elements(p));
    assert forall k :: 0 <= k < |r| ==> r[k] in r;
    OrderedWithinBound(r, (c: Cell) => c.j, p.step > 0, 1, width);
  }

  /** However far the progression overshoots the board, a column slice holds
      at most `width` cells. */
  lemma ColumnSliceAtMostWidth(width: int, p: Progression, j: int)
    requires p.step != 0
    ensures |ColumnSlice(width, Elements(p), j)| <= if width < 0 then 0 else width
  {
    var r := ColumnSlice(width, Elements(p), j);
    ColumnSliceOrdered(width, p, j);
    ColumnSliceMembers(width, Elements(p), j);
    assert forall k :: 0 <= k < |r| ==> r[k] in r;
    OrderedWithinBound(r, (c: Cell) => c.i, p.step > 0, 1, width);
  }

  lemma {:induction false} ClipInGrid(width: int, cs: seq<Cell>)
    requires forall k :: 0 <= k < |cs| ==> InGrid(width, cs[k].i, cs[k].j)
    ensures Clip(width, cs) == cs
  {
    if cs != [] {
      ClipInGrid(width, cs[1..]);
    }
  }

  /** `getRow(i, 1..width)` on a valid row is the whole row, columns 1 to width in order. */
  lemma FullRow(width: int, i: int)
    requires 1 <= i <= width
    ensures RowSlice(width, i, Elements(IntRange(1, width))) == seq(width, k => Cell(i, k + 1))
  {
    IntRangeElements(1, width);
    var js := Elements(IntRange(1, width));
    RowOfAt(i, js);
    ClipInGrid(width, RowOf(i, js));
  }

  /** `getColumn(1..width, j)` on a valid column is the whole column, rows 1 to width in order. */
  lemma FullColumn(width: int, j: int)
    requires 1 <= j <= width
    ensures ColumnSlice(width, Elements(IntRange(1, width)), j) == seq(width, k => Cell(k + 1, j))
  {
    IntRangeElements(1, width);
    var rows := Elements(IntRange(1, width));
    ColumnOfAt(rows, j);
    ClipInGrid(width, ColumnOf(rows, j));
  }

  // ---------------------------------------------------------------------
  // The board object
  // ---------------------------------------------------------------------

  class SquareBoard {
    const width: int
    /** The source's `board` map from `(i, j)` to its cell, filled once at construction. */
    const board: map<(int, int), Cell>

    ghost predicate Valid() {
      && (forall k :: k in board <==> InGrid(width, k.0, k.1))
      && (forall k :: k in board ==> board[k] == Cell(k.0, k.1))
    }

    /** `init`: the nested loops over 1..width insert `Cell(i, j)` under `(i, j)`. */
    constructor (width: int)
      ensures this.width == width && Valid()
    {
      this.width := width;
      var m: map<(int, int), Cell> := map[];
      var i := 1;
      while i <= width
        invariant 1 <= i <= if width < 1 then 1 else width + 1
        invariant forall k :: k in m <==> InGrid(width, k.0, k.1) && k.0 < i
        invariant forall k :: k in m ==> m[k] == Cell(k.0, k.1)
      {
        var j := 1;
        while j <= width
          invariant 1 <= j <= width + 1
          invariant forall k :: k in m <==> InGrid(width, k.0, k.1) && (k.0 < i || (k.0 == i && k.1 < j))
          invariant forall k :: k in m ==> m[k] == Cell(k.0, k.1)
        {
          m := m[(i, j) := Cell(i, j)];
          j := j + 1;
        }
        i := i + 1;
      }
      board := m;
    }

    /** `getCellOrNull`: the cell at `(i, j)` exactly when it is on the board. */
    function GetCellOrNull(i: int, j: int): (r: Option<Cell>)
      requires Valid()
      ensures r.Some? <==> InGrid(width, i, j)
      ensures r.Some? ==> r.value == Cell(i, j)
    {
      if (i, j) in board then Some(board[(i, j)]) else None
    }

    /** `getCell`: the same lookup, failing with `OutOfBounds` where
        `getCellOrNull` gives null. */
    function GetCell(i: int, j: int): (r: Result<Cell>)
      requires Valid()
      ensures r.Failure? <==> GetCellOrNull(i, j).None?
      ensures r.Failure? ==> r.error == OutOfBounds
      ensures r.Success? ==> GetCellOrNull(i, j) == Some(r.value) && r.value == Cell(i, j)
    {
      match GetCellOrNull(i, j)
      case Some(c) => Success(c)
      case None => Failure(OutOfBounds)
    }

    /** `getAllCells`: the values of the board map, i.e. every cell of the grid. */
    function GetAllCells(): (r: set<Cell>)
      requires Valid()
      ensures r == GridCells(width)
      ensures forall c :: c in r <==> InGrid(width, c.i, c.j)
      ensures |r| == if width > 0 then width * width else 0
    {
      GridCellsMembers(width);
      GridCellsCount(width);
      assert forall c :: c in board.Values ==> InGrid(width, c.i, c.j);
      assert forall c: Cell :: InGrid(width, c.i, c.j) ==> c in board.Values by {
        forall c: Cell | InGrid(width, c.i, c.j) ensures c in board.Values {
          assert board[(c.i, c.j)] == c;
        }
      }
      board.Values
    }

    /** `getRow`: walks the progression and keeps the cells that exist. */
    method GetRow(i: int, jRange: Progression) returns (cells: seq<Cell>)
      requires Valid() && jRange.step != 0
      ensures cells == RowSlice(width, i, Elements(jRange))
    {
      cells := [];
      var j := jRange.first;
      while Reaches(jRange, j)
        invariant cells + RowSlice(width, i, Elements(Progression(j, jRange.last, jRange.step)))
               == RowSlice(width, i, Elements(jRange))
        decreases Span(Progression(j, jRange.last, jRange.step))
      {
        var rest := Progression(j + jRange.step, jRange.last, jRange.step);
        assert Elements(Progression(j, jRange.last, jRange.step)) == [j] + Elements(rest);
        assert RowOf(i, [j] + Elements(rest)) == [Cell(i, j)] + RowOf(i, Elements(rest));
        var c := GetCellOrNull(i, j);
        if c.Some? {
          cells := cells + [c.value];
        }
        j := j + jRange.step;
      }
    }

    /** `getColumn`: walks the progression over rows and keeps the cells that exist. */
    method GetColumn(iRange: Progression, j: int) returns (cells: seq<Cell>)
      requires Valid() && iRange.step != 0
      ensures cells == ColumnSlice(width, Elements(iRange), j)
    {
      cells := [];
      var i := iRange.first;
      while Reaches(iRange, i)
        invariant cells + ColumnSlice(width, Elements(Progression(i, iRange.last, iRange.step)), j)
               == ColumnSlice(width, Elements(iRange), j)
        decreases Span(Progression(i, iRange.last, iRange.step))
      {
        var rest := Progression(i + iRange.step, iRange.last, iRange.step);
        assert Elements(Progression(i, iRange.last, iRange.step)) == [i] + Elements(rest);
        assert ColumnOf([i] + Elements(rest), j) == [Cell(i, j)] + ColumnOf(Elements(rest), j);
        var c := GetCellOrNull(i, j);
        if c.Some? {
          cells := cells + [c.value];
        }
        i := i + iRange.step;
      }
    }

    /** `Cell.getNeighbour`: the adjacent cell in direction `d` if it is on this board. */
    function GetNeighbour(c: Cell, d: Direction): (r: Option<Cell>)
      requires Valid()
      ensures d == Up ==> r == if InGrid(width, c.i - 1, c.j) then Some(Cell(c.i - 1, c.j)) else None
      ensures d == Down ==> r == if InGrid(width, c.i + 1, c.j) then Some(Cell(c.i + 1, c.j)) else None
      ensures d == Left ==> r == if InGrid(width, c.i, c.j - 1) then Some(Cell(c.i, c.j - 1)) else None
      ensures d == Right ==> r == if InGrid(width, c.i, c.j + 1) then Some(Cell(c.i, c.j + 1)) else None
    {
      match d
      case Down => GetCellOrNull(c.i + 1, c.j)
      case Left => GetCellOrNull(c.i, c.j - 1)
      case Right => GetCellOrNull(c.i, c.j + 1)
      case Up => GetCellOrNull(c.i - 1, c.j)
    }

    /** Stepping to a neighbour of a cell of this board and back returns to it. */
    lemma NeighbourRoundTrip(c: Cell, d: Direction)
      requires Valid() && InGrid(width, c.i, c.j)
      requires GetNeighbour(c, d).Some?
      ensures GetNeighbour(GetNeighbour(c, d).value, Opposite(d)) == Some(c)
    {
    }

    /** The top-left corner has no neighbour above or to the left, and has
        both others once the board is at least 2 wide. */
    lemma CornerNeighbours()
      requires Valid()
      ensures GetNeighbour(Cell(1, 1), Up) == None && GetNeighbour(Cell(1, 1), Left) == None
      ensures width >= 2 ==>
        GetNeighbour(Cell(1, 1), Down) == Some(Cell(2, 1)) && GetNeighbour(Cell(1, 1), Right) == Some(Cell(1, 2))
    {
    }
  }

  /** `createSquareBoard` */
  method CreateSquareBoard(width: int) returns (b: SquareBoard)
    ensures fresh(b) && b.Valid() && b.width == width
  {
    b := new SquareBoard(width);
  }

  /** The width-3 walk-through: row 2 read along 1..3, and the neighbours above (2, 2) and (1, 1). */
  method Width3Example() {
    var b := CreateSquareBoard(3);
    var row := b.GetRow(2, IntRange(1, 3));
    FullRow(3, 2);
    assert row == [Cell(2, 1), Cell(2, 2), Cell(2, 3)];
    var c := b.GetCell(2, 2);
    assert b.GetNeighbour(c.value, Up) == Some(Cell(1, 2));
    assert b.GetNeighbour(Cell(1, 1), Up) == None;
  }
}

/** The value layer of `GameBoardImpl<T>`: an optional value per cell of a
    square board, with `get`/`set` and the predicate queries `filter`,
    `find`, `any` and `all`. The Kotlin class extends the square board; here
    the game board holds one (`grid`) and reaches its geometry through it. */
module GameBoards {
  import opened BoardTypes
  import opened SquareBoards

  class GameBoard<T(==)> {
    /** The geometry: `width`, cell lookup, slices and neighbours. */
    const grid: SquareBoard
    /** The source's `boardData`: the value slot of each cell, `None` for null. */
    var data: map<Cell, Option<T>>

    /** Every cell of the grid has a slot. A `set` on a cell from elsewhere
        adds a slot for it, as the Kotlin map does, so extra keys may exist. */
    ghost predicate Valid()
      reads this
    {
      && grid.Valid()
      && forall c: Cell :: InGrid(grid.width, c.i, c.j) ==> c in data
    }

    /** The slots are exactly the grid's cells. */
    ghost predicate KeysAreGrid()
      reads this
    {
      forall c :: c in data <==> InGrid(grid.width, c.i, c.j)
    }

    /** Every slot holds null. */
    ghost predicate AllEmpty()
      reads this
    {
      forall c :: c in data ==> data[c] == None
    }

    /** `init`: the nested loops over 1..width give every grid cell a null slot. */
    constructor (width: int)
      ensures Valid() && KeysAreGrid() && AllEmpty()
      ensures grid.width == width && fresh(grid)
    {
      var g := new SquareBoard(width);
      var m: map<Cell, Option<T>> := map[];
      var i := 1;
      while i <= width
        invariant 1 <= i <= if width < 1 then 1 else width + 1
        invariant forall c :: c in m <==> InGrid(width, c.i, c.j) && c.i < i
        invariant forall c :: c in m ==> m[c] == None
      {
        var j := 1;
        while j <= width
          invariant 1 <= j <= width + 1
          invariant forall c :: c in m <==> InGrid(width, c.i, c.j) && (c.i < i || (c.i == i && c.j < j))
          invariant forall c :: c in m ==> m[c] == None
        {
          var c := g.GetCell(i, j);
          m := m[c.value := None];
          j := j + 1;
        }
        i := i + 1;
      }
      grid := g;
      data := m;
    }

    /** `get`: the value in the slot of `cell`; a cell without a slot reads as null. */
    function Get(cell: Cell): (r: Option<T>)
      reads this
      ensures cell !in data ==> r == None
      ensures cell in data ==> r == data[cell]
    {
      if cell in data then data[cell] else None
    }

    /** `set`: overwrites the slot of `cell` and touches no other slot. */
    method Set(cell: Cell, value: Option<T>)
      requires Valid()
      modifies this
      ensures Valid()
      ensures Get(cell) == value
      ensures forall d :: d != cell ==> Get(d) == old(Get(d))
      ensures data.Keys == old(data.Keys) + {cell}
      ensures InGrid(grid.width, cell.i, cell.j) ==> data.Keys == old(data.Keys)
    {
      data := data[cell := value];
    }

    /** `filter`: the cells whose slot satisfies `p`. */
    function Filter(p: Option<T> -> bool): (r: set<Cell>)
      reads this
      requires Valid()
      ensures forall c :: c in r <==> c in data && p(Get(c))
      ensures forall c: Cell :: InGrid(grid.width, c.i, c.j) ==> (c in r <==> p(Get(c)))
    {
      set c | c in data && p(data[c])
    }

    /** `any`: some slot value satisfies `p`. */
    function Any(p: Option<T> -> bool): (r: bool)
      reads this
      ensures r <==> exists c :: c in data && p(Get(c))
    {
      exists v :: v in data.Values && p(v)
    }

    /** `all`: every slot value satisfies `p`. */
    function All(p: Option<T> -> bool): (r: bool)
      reads this
      ensures r <==> forall c :: c in data ==> p(Get(c))
    {
      forall v :: v in data.Values ==> p(v)
    }

    /** `find`: some cell whose slot satisfies `p`; when there is none,
        `first` throws, here `NotFound`. */
    method Find(p: Option<T> -> bool) returns (r: Result<Cell>)
      requires Valid()
      ensures r.Failure? <==> !Any(p)
      ensures r.Failure? ==> r.error == NotFound
      ensures r.Success? ==> r.value in Filter(p)
    {
      if c :| c in data && p(data[c]) {
        r := Success(c);
      } else {
        r := Failure(NotFound);
      }
    }
  }

  /** `createGameBoard` */
  method CreateGameBoard<T(==)>(width: int) returns (b: GameBoard<T>)
    ensures fresh(b) && fresh(b.grid)
    ensures b.Valid() && b.KeysAreGrid() && b.AllEmpty() && b.grid.width == width
  {
    b := new GameBoard<T>(width);
  }

  function IsNull<T>(v: Option<T>): bool { v.None? }

  function IsNonNull<T>(v: Option<T>): bool { v.Some? }

  /** A fresh board: every slot is null, so `all(isNull)` holds and `any(isNonNull)` does not. */
  lemma NewBoardQueries<T>(b: GameBoard<T>)
    requires b.AllEmpty()
    ensures b.All(IsNull)
    ensures !b.Any(IsNonNull)
  {
  }

  /** `any(p)` holds exactly when `filter(p)` is not empty. */
  lemma AnyIffFilterNonEmpty<T>(b: GameBoard<T>, p: Option<T> -> bool)
    requires b.Valid()
    ensures b.Any(p) <==> b.Filter(p) != {}
  {
    if b.Any(p) {
      var c :| c in b.data && p(b.Get(c));
      assert c in b.Filter(p);
    }
  }

  /** `all(p)` holds exactly when `filter(p)` returns every slot. */
  lemma AllIffFilterEverything<T>(b: GameBoard<T>, p: Option<T> -> bool)
    requires b.Valid()
    ensures b.All(p) <==> b.Filter(p) == b.data.Keys
  {
  }

  /** `all(p)` is the negation of `any(not p)`. */
  lemma AllIsNotAnyNot<T>(b: GameBoard<T>, p: Option<T> -> bool)
    ensures b.All(p) <==> !b.Any(v => !p(v))
  {
  }

  /** On a board whose slots are exactly its cells, `filter(p)` is exactly the
      set of grid cells whose value satisfies `p`, and `all(p)` says that of every cell. */
  lemma FilterOnGrid<T>(b: GameBoard<T>, p: Option<T> -> bool)
    requires b.Valid() && b.KeysAreGrid()
    ensures b.Filter(p) == set c | c in GridCells(b.grid.width) && p(b.Get(c))
    ensures b.All(p) <==> forall c :: c in GridCells(b.grid.width) ==> p(b.Get(c))
  {
  }

  /** Writing a value and then null leaves the cell null again, and a fresh
      board answers the empty-board queries. */
  method SetGetExample() {
    var b := CreateGameBoard<int>(3);
    NewBoardQueries(b);
    var c := b.grid.GetCell(2, 2);
    b.Set(c.value, Some(7));
    assert b.Get(Cell(2, 2)) == Some(7);
    assert b.Get(Cell(1, 1)) == None;
    b.Set(c.value, None);
    assert b.Get(Cell(2, 2)) == None;
  }
}

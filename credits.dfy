/** The cellular automaton behind the credits screen of credits.cpp: a grid
    of 19 rows of 40 cells, read with `getCellAt` (dead off the grid) and
    advanced by `step`, which counts the live cells of the 3 x 3 block around
    each cell (the cell itself included) and replaces the whole grid at once. */
module Credits {
  const CREDITS_WIDTH := 40
  const CREDITS_HEIGHT := 19

  /** `std::vector<std::vector<bool>>`, indexed [y][x]; rows may differ in
      length. */
  type Grid = seq<seq<bool>>

  /** The grid has the credits' shape. */
  predicate Shaped(cells: Grid)
  {
    |cells| == CREDITS_HEIGHT && forall y :: 0 <= y < |cells| ==> |cells[y]| == CREDITS_WIDTH
  }

  // ---------------------------------------------------------------- the rule

  /** `getCellAt(x, y)` on `cells`: false for a negative coordinate, a row
      past the last one or a column past the end of its row. */
  function CellAt(cells: Grid, x: int, y: int): bool
  {
    if x < 0 || y < 0 || y >= |cells| then false
    else if x >= |cells[y]| then false
    else cells[y][x]
  }

  /** 1 for a live cell, 0 for a dead one or a position off the grid. */
  function Alive(cells: Grid, x: int, y: int): (n: int)
    ensures n == 0 || n == 1
  {
    if CellAt(cells, x, y) then 1 else 0
  }

  /** The inner loop of `step`: the live cells at (x, y + yOffset) for
      yOffset from -1 up to but not including `upTo`. */
  function ColumnUpTo(cells: Grid, x: int, y: int, upTo: int): int
    requires -1 <= upTo <= 2
    decreases upTo
  {
    if upTo == -1 then 0 else ColumnUpTo(cells, x, y, upTo - 1) + Alive(cells, x, y + upTo - 1)
  }

  /** The two offset loops of `step`: the columns x + xOffset for xOffset
      from -1 up to but not including `upTo`. */
  function NearUpTo(cells: Grid, x: int, y: int, upTo: int): int
    requires -1 <= upTo <= 2
    decreases upTo
  {
    if upTo == -1 then 0 else NearUpTo(cells, x, y, upTo - 1) + ColumnUpTo(cells, x + upTo - 1, y, 2)
  }

  /** `near` in `step`: the live cells of the 3 x 3 block centred on (x, y),
      the cell itself included. */
  function Near(cells: Grid, x: int, y: int): int
  {
    NearUpTo(cells, x, y, 2)
  }

  /** The live cells among the eight positions around (x, y), the cell itself
      excluded. */
  function Neighbours(cells: Grid, x: int, y: int): int
  {
    Alive(cells, x - 1, y - 1) + Alive(cells, x, y - 1) + Alive(cells, x + 1, y - 1)
    + Alive(cells, x - 1, y) + Alive(cells, x + 1, y)
    + Alive(cells, x - 1, y + 1) + Alive(cells, x, y + 1) + Alive(cells, x + 1, y + 1)
  }

  /** The new value of the cell at (x, y): alive when `near` is 3, or when it
      was alive and `near` is 2. */
  function NextCell(cells: Grid, x: int, y: int): bool
  {
    Near(cells, x, y) == 3 || (CellAt(cells, x, y) && Near(cells, x, y) == 2)
  }

  /** The grid `step` builds from `cells`: 19 rows of 40 new cells, each
      computed from the old grid. */
  function NextGeneration(cells: Grid): (next: Grid)
    ensures Shaped(next)
  {
    seq(CREDITS_HEIGHT, y => seq(CREDITS_WIDTH, x => NextCell(cells, x, y)))
  }

  // ---------------------------------------------------------------- the object

  class Credits {
    var cells: Grid

    /** `Credits()`: 19 rows of 40 cells, filled row by row from the source
        of random bits, which is a parameter here: `coin(i)` is the i-th
        value of `rand() % 2`. */
    constructor (coin: int -> bool)
      ensures Shaped(cells)
      ensures forall y, x :: 0 <= y < CREDITS_HEIGHT && 0 <= x < CREDITS_WIDTH ==>
        cells[y][x] == coin(y * CREDITS_WIDTH + x)
    {
      var rows: Grid := [];
      for y := 0 to CREDITS_HEIGHT
        invariant |rows| == y
        invariant forall j :: 0 <= j < y ==> |rows[j]| == CREDITS_WIDTH
        invariant forall j, i :: 0 <= j < y && 0 <= i < CREDITS_WIDTH ==> rows[j][i] == coin(j * CREDITS_WIDTH + i)
      {
        var row: seq<bool> := [];
        for x := 0 to CREDITS_WIDTH
          invariant |row| == x
          invariant forall i :: 0 <= i < x ==> row[i] == coin(y * CREDITS_WIDTH + i)
        {
          row := row + [coin(y * CREDITS_WIDTH + x)];
        }
        rows := rows + [row];
      }
      cells := rows;
    }

    /** `getCellAt(x, y)`: the stored cell when (x, y) is on the grid, and
        false otherwise. */
    function GetCellAt(x: int, y: int): (alive: bool)
      reads this
      ensures alive <==> 0 <= y < |cells| && 0 <= x < |cells[y]| && cells[y][x]
    {
      if x < 0 || y < 0 || y >= |cells| then false
      else
        var row := cells[y];
        if x >= |row| then false else row[x]
    }

    /** The offset loops of `step` for the cell at (x, y). */
    method CountNear(x: int, y: int) returns (near: int)
      ensures near == Near(cells, x, y)
    {
      near := 0;
      for xOffset := -1 to 2
        invariant near == NearUpTo(cells, x, y, xOffset)
      {
        var column := 0;
        for yOffset := -1 to 2
          invariant column == ColumnUpTo(cells, x + xOffset, y, yOffset)
        {
          if GetCellAt(x + xOffset, y + yOffset) {
            column := column + 1;
          }
        }
        near := near + column;
      }
    }

    /** The body of the loops of `step` for the cell at (x, y). */
    method UpdatedCell(x: int, y: int) returns (result: bool)
      ensures result == NextCell(cells, x, y)
    {
      var near := CountNear(x, y);
      result := false;
      if near == 3 {
        result := true;
      }
      if GetCellAt(x, y) {
        if near == 2 {
          result := true;
        }
      }
    }

    /** `step()`: build the next grid row by row from the current one, then
        replace the current grid with it. */
    method Step()
      modifies this
      ensures cells == NextGeneration(old(cells))
    {
      ghost var next := NextGeneration(cells);
      var updatedCells: Grid := [];
      for y := 0 to CREDITS_HEIGHT
        invariant cells == old(cells)
        invariant updatedCells == next[..y]
      {
        var updatedRow: seq<bool> := [];
        for x := 0 to CREDITS_WIDTH
          invariant cells == old(cells)
          invariant updatedRow == next[y][..x]
        {
          var result := UpdatedCell(x, y);
          assert next[y][..x + 1] == next[y][..x] + [result];
          updatedRow := updatedRow + [result];
        }
        assert next[y][..CREDITS_WIDTH] == next[y];
        assert next[..y + 1] == next[..y] + [next[y]];
        updatedCells := updatedCells + [updatedRow];
      }
      cells := updatedCells;
    }
  }

  // ---------------------------------------------------------------- facts

  /** Positions off the grid read as dead: there is no wrap-around. */
  lemma CellAtMeans(cells: Grid, x: int, y: int)
    ensures CellAt(cells, x, y) <==> 0 <= y < |cells| && 0 <= x < |cells[y]| && cells[y][x]
  {
  }

  /** `near` counts the nine cells of the block one by one. */
  lemma NearExpanded(cells: Grid, x: int, y: int)
    ensures Near(cells, x, y) ==
      Alive(cells, x - 1, y - 1) + Alive(cells, x - 1, y) + Alive(cells, x - 1, y + 1)
      + Alive(cells, x, y - 1) + Alive(cells, x, y) + Alive(cells, x, y + 1)
      + Alive(cells, x + 1, y - 1) + Alive(cells, x + 1, y) + Alive(cells, x + 1, y + 1)
  {
    assert ColumnUpTo(cells, x - 1, y, 2) ==
      Alive(cells, x - 1, y - 1) + Alive(cells, x - 1, y) + Alive(cells, x - 1, y + 1);
    assert ColumnUpTo(cells, x, y, 2) == Alive(cells, x, y - 1) + Alive(cells, x, y) + Alive(cells, x, y + 1);
    assert ColumnUpTo(cells, x + 1, y, 2) ==
      Alive(cells, x + 1, y - 1) + Alive(cells, x + 1, y) + Alive(cells, x + 1, y + 1);
  }

  /** `near` is the cell itself plus its eight neighbours, so it lies
      between 0 and 9. */
  lemma NearIsSelfPlusNeighbours(cells: Grid, x: int, y: int)
    ensures Near(cells, x, y) == Alive(cells, x, y) + Neighbours(cells, x, y)
    ensures 0 <= Near(cells, x, y) <= 9
  {
    NearExpanded(cells, x, y);
  }

  /** The rule of `step` in terms of the eight neighbours: a dead cell comes
      alive with exactly three live neighbours, and a live cell stays alive
      with one or two (the count includes the cell itself, so this is not
      Conway's two-or-three). */
  lemma RuleByNeighbours(cells: Grid, x: int, y: int)
    ensures var n := Neighbours(cells, x, y);
      NextCell(cells, x, y) <==> if CellAt(cells, x, y) then n == 1 || n == 2 else n == 3
  {
    NearIsSelfPlusNeighbours(cells, x, y);
  }

  /** A grid with no live cell stays without one. */
  lemma DeadStaysDead(cells: Grid)
    requires forall y, x :: 0 <= y < |cells| && 0 <= x < |cells[y]| ==> !cells[y][x]
    ensures forall y, x :: 0 <= y < CREDITS_HEIGHT && 0 <= x < CREDITS_WIDTH ==> !NextGeneration(cells)[y][x]
  {
    forall y, x | 0 <= y < CREDITS_HEIGHT && 0 <= x < CREDITS_WIDTH
      ensures !NextCell(cells, x, y)
    {
      NearExpanded(cells, x, y);
    }
  }

  /** Only the old grid decides the new one: two grids that agree on every
      position give the same next grid. */
  lemma StepIsSimultaneous(a: Grid, b: Grid)
    requires forall x, y :: CellAt(a, x, y) == CellAt(b, x, y)
    ensures NextGeneration(a) == NextGeneration(b)
  {
    forall y | 0 <= y < CREDITS_HEIGHT
      ensures NextGeneration(a)[y] == NextGeneration(b)[y]
    {
      forall x | 0 <= x < CREDITS_WIDTH
        ensures NextCell(a, x, y) == NextCell(b, x, y)
      {
        NearExpanded(a, x, y);
        NearExpanded(b, x, y);
      }
    }
  }
}

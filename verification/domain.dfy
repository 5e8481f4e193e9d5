/** The data of the two on-screen entities, without their textures, and
    the cell-labelling loop that draws the grid over a battlemap. */
module Domain {
  import opened Text
  import Chess

  /** A battlemap: its background image and its grid, `rows` by `columns`.
      `Battlemap::new` takes the rows before the columns, as this
      constructor does. */
  datatype Battlemap = Battlemap(imagePath: string, rows: I32, columns: I32)

  /** A token on the map, with the fields `Token::new` stores. */
  datatype Token = Token(
    id: string,
    image: string,
    name: string,
    size: string,
    maxHealth: I32,
    pos: string,
    initiative: I32)

  /** A grid cell as (column, row), both zero-based. */
  type Cell = (int, int)

  predicate InGrid(cell: Cell, columns: int, rows: int) {
    0 <= cell.0 < columns && 0 <= cell.1 < rows
  }

  /** The first `count` cells of column `col`, top to bottom. */
  function ColumnCells(col: int, count: int): (cells: seq<Cell>)
    ensures |cells| == if count > 0 then count else 0
    ensures forall k :: 0 <= k < |cells| ==> cells[k] == (col, k)
  {
    seq(if count > 0 then count else 0, k => (col, k))
  }

  /** The cells in the order the grid is drawn: column by column, and
      within a column row by row. */
  function GridCells(columns: int, rows: int): (cells: seq<Cell>)
    ensures forall k :: 0 <= k < |cells| ==> InGrid(cells[k], columns, rows)
    decreases columns
  {
    if columns <= 0 then []
    else GridCells(columns - 1, rows) + ColumnCells(columns - 1, rows)
  }

  /** Every cell of the grid is drawn. */
  lemma {:induction false} GridCellsComplete(columns: int, rows: int, cell: Cell)
    requires InGrid(cell, columns, rows)
    ensures cell in GridCells(columns, rows)
    decreases columns
  {
    if cell.0 < columns - 1 {
      GridCellsComplete(columns - 1, rows, cell);
    } else {
      assert ColumnCells(columns - 1, rows)[cell.1] == cell;
    }
  }

  /** No cell is drawn twice. */
  lemma {:induction false} GridCellsDistinct(columns: int, rows: int)
    ensures forall i, j :: 0 <= i < j < |GridCells(columns, rows)| ==>
      GridCells(columns, rows)[i] != GridCells(columns, rows)[j]
    decreases columns
  {
    if columns > 0 {
      GridCellsDistinct(columns - 1, rows);
      var front, back := GridCells(columns - 1, rows), ColumnCells(columns - 1, rows);
      var cells := front + back;
      forall i, j | 0 <= i < j < |cells|
        ensures cells[i] != cells[j]
      {
        if j < |front| {
          assert cells[i] == front[i] && cells[j] == front[j];
        } else if i < |front| {
          assert cells[i].0 < columns - 1 == cells[j].0;
        } else {
          assert cells[i] == back[i - |front|] && cells[j] == back[j - |front|];
        }
      }
    }
  }

  /** The grid's cells stay below the encoder's column limit exactly when the
      map has at most 702 columns or no rows at all. */
  lemma GridWithinLabelRange(columns: int, rows: int)
    ensures (forall k :: 0 <= k < |GridCells(columns, rows)| ==> GridCells(columns, rows)[k].0 < Chess.ColumnLimit)
        <==> (columns <= Chess.ColumnLimit || rows <= 0)
  {
    if columns > Chess.ColumnLimit && rows > 0 {
      GridCellsComplete(columns, rows, (Chess.ColumnLimit, 0));
    }
  }

  /** A cell the encoder can name. */
  predicate Labelable(cell: Cell) {
    0 <= cell.0 < Chess.ColumnLimit && 0 <= cell.1 < MaxI32
  }

  /** Every cell `render_grid` visits on this map can be named, so drawing
      the grid never reaches the encoder's panic. */
  predicate GridLabelable(bm: Battlemap) {
    forall k :: 0 <= k < |GridCells(bm.columns, bm.rows)| ==> Labelable(GridCells(bm.columns, bm.rows)[k])
  }

  /** The grid of a map can be labelled exactly when the map has at most
      702 columns or no rows; a map with more columns and at least one row
      makes `render_grid` call the encoder on column 702 and panic. */
  lemma GridLabelableIff(bm: Battlemap)
    ensures GridLabelable(bm) <==> (bm.columns <= Chess.ColumnLimit || bm.rows <= 0)
  {
    GridWithinLabelRange(bm.columns, bm.rows);
  }

  /** The chess name of a cell. */
  function CellLabel(cell: Cell): string
    requires Labelable(cell)
  {
    Chess.FromMapCoordinates(cell.0, cell.1)
  }

  /** Distinct cells have distinct names. */
  lemma LabelsDistinct(cells: seq<Cell>, labels: seq<string>)
    requires |labels| == |cells|
    requires forall k :: 0 <= k < |cells| ==> Labelable(cells[k]) && labels[k] == CellLabel(cells[k])
    requires forall i, j :: 0 <= i < j < |cells| ==> cells[i] != cells[j]
    ensures forall i, j :: 0 <= i < j < |labels| ==> labels[i] != labels[j]
  {
    forall i, j | 0 <= i < j < |labels|
      ensures labels[i] != labels[j]
    {
      if labels[i] == labels[j] {
        Chess.FromMapInjective(cells[i].0, cells[i].1, cells[j].0, cells[j].1);
      }
    }
  }

  /** The labelling loop of `render_grid`: the label of every cell, in
      drawing order. Each label is the chess name of its cell, every cell
      of the grid is labelled once, and no two labels are equal. */
  method GridLabels(columns: I32, rows: I32) returns (labels: seq<string>)
    requires columns <= Chess.ColumnLimit || rows <= 0
    ensures |labels| == |GridCells(columns, rows)|
    ensures forall k :: 0 <= k < |labels| ==>
      Labelable(GridCells(columns, rows)[k]) && labels[k] == CellLabel(GridCells(columns, rows)[k])
    ensures forall i, j :: 0 <= i < j < |labels| ==> labels[i] != labels[j]
  {
    labels := [];
    var col := 0;
    while col < columns
      invariant 0 <= col <= (if columns > 0 then columns else 0)
      invariant |labels| == |GridCells(col, rows)|
      invariant forall k :: 0 <= k < |labels| ==>
        Labelable(GridCells(col, rows)[k]) && labels[k] == CellLabel(GridCells(col, rows)[k])
    {
      var column := ColumnLabels(col, rows);
      ColumnLabelled(col, rows, GridCells(col, rows), labels, column);
      labels := labels + column;
      col := col + 1;
    }
    assert col == columns || GridCells(columns, rows) == GridCells(col, rows) == [];
    GridCellsDistinct(columns, rows);
    LabelsDistinct(GridCells(columns, rows), labels);
  }

  /** The inner loop of `render_grid`: the labels of one column, top to
      bottom. */
  method ColumnLabels(col: int, rows: I32) returns (column: seq<string>)
    requires 0 <= col < Chess.ColumnLimit || rows <= 0
    ensures |column| == (if rows > 0 then rows else 0)
    ensures forall k :: 0 <= k < |column| ==> Labelable((col, k)) && column[k] == CellLabel((col, k))
  {
    column := [];
    var row := 0;
    while row < rows
      invariant 0 <= row <= (if rows > 0 then rows else 0)
      invariant |column| == row
      invariant forall k :: 0 <= k < row ==> Labelable((col, k)) && column[k] == CellLabel((col, k))
    {
      column := column + [CellLabel((col, row))];
      row := row + 1;
    }
  }

  /** One more column of labels extends the labelled grid by one column. */
  lemma ColumnLabelled(col: int, rows: int, done: seq<Cell>, labels: seq<string>, column: seq<string>)
    requires 0 <= col && (rows <= 0 || col < Chess.ColumnLimit) && rows <= MaxI32
    requires done == GridCells(col, rows)
    requires |labels| == |done|
    requires forall k :: 0 <= k < |labels| ==> Labelable(done[k]) && labels[k] == CellLabel(done[k])
    requires |column| == (if rows > 0 then rows else 0)
    requires forall k :: 0 <= k < |column| ==> Labelable((col, k)) && column[k] == CellLabel((col, k))
    ensures |labels + column| == |GridCells(col + 1, rows)|
    ensures forall k :: 0 <= k < |labels + column| ==>
      Labelable(GridCells(col + 1, rows)[k]) && (labels + column)[k] == CellLabel(GridCells(col + 1, rows)[k])
  {
    var cells := GridCells(col + 1, rows);
    assert cells == done + ColumnCells(col, rows);
    forall k | 0 <= k < |labels + column|
      ensures Labelable(cells[k]) && (labels + column)[k] == CellLabel(cells[k])
    {
      if k >= |labels| {
        assert cells[k] == (col, k - |labels|);
      }
    }
  }
}

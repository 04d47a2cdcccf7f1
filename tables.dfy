/** Tables: the working table held in the session, and the step that gives it
    its annotation columns.

    A sheet read from the workbook is a pandas DataFrame with the default
    integer index, so the row at position i carries the index label i; the
    model therefore identifies a row by its position. */
module Tables {

  datatype Option<+T> = None | Some(value: T)

  /** A cell: a value, or unset (pandas' None / missing value). */
  type Cell = Option<string>

  /** A row maps every column name of its table to that row's cell. */
  type Row = map<string, Cell>

  /** A DataFrame: its column names in order, and its rows in index order. */
  datatype Frame = Frame(columns: seq<string>, rows: seq<Row>)

  function ColumnSet(f: Frame): set<string>
  {
    set c | c in f.columns
  }

  /** A rectangular table: column names are distinct and every row has
      exactly the table's columns. */
  predicate WellFormed(f: Frame)
  {
    && (forall j, k :: 0 <= j < k < |f.columns| ==> f.columns[j] != f.columns[k])
    && (forall i :: 0 <= i < |f.rows| ==> f.rows[i].Keys == ColumnSet(f))
  }

  /** `frame[col] = None` for a column the frame does not have yet: the
      column is appended after the existing ones and is unset in every row. */
  function WithColumn(f: Frame, col: string): (r: Frame)
    requires WellFormed(f) && col !in f.columns
    ensures WellFormed(r)
    ensures ColumnSet(r) == ColumnSet(f) + {col}
    ensures |r.columns| == |f.columns| + 1 && r.columns[..|f.columns|] == f.columns
    ensures |r.rows| == |f.rows|
    ensures forall i, c :: 0 <= i < |f.rows| && c in f.rows[i] ==> r.rows[i][c] == f.rows[i][c]
    ensures forall i :: 0 <= i < |r.rows| ==> r.rows[i][col] == None
  {
    Frame(f.columns + [col], seq(|f.rows|, i requires 0 <= i < |f.rows| => f.rows[i][col := None]))
  }

  /** One turn of the column loop: add `col` unset unless the frame has it.
      Afterwards the frame has `col`, and a frame that had it is unchanged. */
  function AddColumn(f: Frame, col: string): (r: Frame)
    requires WellFormed(f)
    ensures WellFormed(r) && |r.rows| == |f.rows|
    ensures ColumnSet(r) == ColumnSet(f) + {col}
    ensures |r.columns| >= |f.columns| && r.columns[..|f.columns|] == f.columns
    ensures col in f.columns ==> r == f
  {
    if col in f.columns then f else WithColumn(f, col)
  }

  /** The column loop over `cols`, in order. */
  function AddColumns(f: Frame, cols: seq<string>): (r: Frame)
    requires WellFormed(f)
    ensures WellFormed(r) && |r.rows| == |f.rows|
    decreases |cols|
  {
    if cols == [] then f
    else AddColumn(AddColumns(f, cols[..|cols| - 1]), cols[|cols| - 1])
  }

  /** One more column extends the loop by one turn. */
  lemma AddColumnsSnoc(f: Frame, cols: seq<string>, col: string)
    requires WellFormed(f)
    ensures AddColumns(f, cols + [col]) == AddColumn(AddColumns(f, cols), col)
  {
    assert (cols + [col])[..|cols|] == cols;
  }

  /** Turn k of the loop over `cols` extends the first k turns by one. */
  lemma AddColumnsPrefixStep(f: Frame, cols: seq<string>, k: nat)
    requires WellFormed(f) && k < |cols|
    ensures AddColumns(f, cols[..k + 1]) == AddColumn(AddColumns(f, cols[..k]), cols[k])
  {
    assert cols[..k + 1] == cols[..k] + [cols[k]];
    AddColumnsSnoc(f, cols[..k], cols[k]);
  }

  /** What the column loop promises about `r`, the table after adding
      `cols` to `f`: every row kept, the existing columns kept in front with
      their cells as they were, every listed column present, and each newly
      added column unset in every row. */
  ghost predicate AddsColumns(f: Frame, cols: seq<string>, r: Frame)
  {
    KeepsShape(f, cols, r) && KeepsCells(f, r) && NewColumnsUnset(f, cols, r)
  }

  ghost predicate KeepsShape(f: Frame, cols: seq<string>, r: Frame)
  {
    && WellFormed(f) && WellFormed(r)
    && |r.rows| == |f.rows|
    && ColumnSet(r) == ColumnSet(f) + (set c | c in cols)
    && |r.columns| >= |f.columns| && r.columns[..|f.columns|] == f.columns
  }

  ghost predicate KeepsCells(f: Frame, r: Frame)
  {
    forall i, c :: 0 <= i < |f.rows| && i < |r.rows| && c in f.rows[i] ==>
      c in r.rows[i] && r.rows[i][c] == f.rows[i][c]
  }

  ghost predicate NewColumnsUnset(f: Frame, cols: seq<string>, r: Frame)
  {
    forall i, c :: 0 <= i < |f.rows| && i < |r.rows| && c in cols && c !in f.columns ==>
      c in r.rows[i] && r.rows[i][c] == None
  }

  lemma ShapeStep(f: Frame, init: seq<string>, g: Frame, col: string)
    requires KeepsShape(f, init, g) && col !in g.columns
    ensures KeepsShape(f, init + [col], WithColumn(g, col))
  {
  }

  lemma CellsStep(f: Frame, g: Frame, col: string)
    requires WellFormed(g) && col !in g.columns && |g.rows| == |f.rows|
    requires KeepsCells(f, g)
    ensures KeepsCells(f, WithColumn(g, col))
  {
  }

  lemma UnsetStep(f: Frame, init: seq<string>, g: Frame, col: string)
    requires WellFormed(g) && col !in g.columns && |g.rows| == |f.rows|
    requires NewColumnsUnset(f, init, g)
    ensures NewColumnsUnset(f, init + [col], WithColumn(g, col))
  {
  }

  /** One more turn of the loop keeps what the earlier turns established. */
  lemma AddColumnStep(f: Frame, init: seq<string>, g: Frame, col: string)
    requires WellFormed(f) && WellFormed(g)
    requires AddsColumns(f, init, g)
    ensures AddsColumns(f, init + [col], AddColumn(g, col))
  {
    if col in g.columns {
      assert (set c | c in init + [col]) == (set c | c in init) + {col};
      forall i, c | 0 <= i < |f.rows| && i < |g.rows| && c in init + [col] && c !in f.columns
        ensures c in g.rows[i] && g.rows[i][c] == None
      {
        if c != col {
          assert c in init;
        } else {
          assert col in ColumnSet(g);
        }
      }
    } else {
      ShapeStep(f, init, g, col);
      CellsStep(f, g, col);
      UnsetStep(f, init, g, col);
    }
  }

  lemma {:induction false} AddColumnsProperties(f: Frame, cols: seq<string>)
    requires WellFormed(f)
    ensures AddsColumns(f, cols, AddColumns(f, cols))
    decreases |cols|
  {
    if cols == [] {
      assert f.columns[..|f.columns|] == f.columns;
    } else {
      var init := cols[..|cols| - 1];
      AddColumnsProperties(f, init);
      assert cols == init + [cols[|cols| - 1]];
      AddColumnStep(f, init, AddColumns(f, init), cols[|cols| - 1]);
    }
  }

  /** Adding columns that are all present already changes nothing. */
  lemma {:induction false} AddColumnsPresent(f: Frame, cols: seq<string>)
    requires WellFormed(f)
    requires forall c :: c in cols ==> c in f.columns
    ensures AddColumns(f, cols) == f
    decreases |cols|
  {
    if cols != [] {
      AddColumnsPresent(f, cols[..|cols| - 1]);
    }
  }

  /** Running the column step twice is the same as running it once. */
  lemma AddColumnsIdempotent(f: Frame, cols: seq<string>)
    requires WellFormed(f)
    ensures AddColumns(AddColumns(f, cols), cols) == AddColumns(f, cols)
  {
    var r := AddColumns(f, cols);
    AddColumnsProperties(f, cols);
    assert forall c :: c in cols ==> c in ColumnSet(r);
    AddColumnsPresent(r, cols);
  }
}

/** The part of a pandas DataFrame that `load_data` touches: an ordered list
    of column labels and an ordered list of rows, each row holding one cell
    per column, addressed by position so that repeated labels and the order
    of columns are kept as pandas keeps them. */
module Frames {
  import opened Strings

  /** One cell as pandas holds it after reading the CSV: missing (NaN) or a
      value. Numbers such as coordinates are kept as their text, unexamined. */
  datatype Cell = NaN | Str(value: string) {
    /** `Series.fillna(v)` on one cell. */
    function Filled(v: string): (c: Cell)
      ensures c.Str?
      ensures Str? ==> c == this
      ensures NaN? ==> c.value == v
    {
      if NaN? then Str(v) else this
    }
  }

  datatype Frame = Frame(columns: seq<string>, rows: seq<seq<Cell>>) {
    /** Every row has exactly one cell per column. */
    predicate Rectangular() {
      forall i :: 0 <= i < |rows| ==> |rows[i]| == |columns|
    }
  }

  /** A DataFrame is always rectangular. */
  type Table = f: Frame | f.Rectangular() witness Frame([], [])

  /** `pd.DataFrame()`: no columns and no rows. */
  const EMPTY_TABLE: Table := Frame([], [])

  /** A mutable DataFrame holding the fields `load_data` reassigns. */
  class DataFrame {
    var columns: seq<string>
    var rows: seq<seq<Cell>>

    ghost predicate Valid()
      reads this
    {
      Frame(columns, rows).Rectangular()
    }

    /** The table the object currently holds. */
    function Value(): (t: Table)
      reads this
      requires Valid()
      ensures t.columns == columns && t.rows == rows
    {
      Frame(columns, rows)
    }

    constructor (t: Table)
      ensures Valid() && Value() == t
    {
      columns := t.columns;
      rows := t.rows;
    }

    /** `name in df.columns` */
    predicate HasColumn(name: string)
      reads this
    {
      name in columns
    }

    /** `df.columns = df.columns.str.strip()`: every label is replaced by its
        stripped form; the cells stay where they are. */
    method StripColumns()
      requires Valid()
      modifies this
      ensures Valid()
      ensures |columns| == |old(columns)| && rows == old(rows)
      ensures forall j :: 0 <= j < |columns| ==> columns[j] == Strip(old(columns)[j])
    {
      var labels := columns;
      columns := seq(|labels|, j requires 0 <= j < |labels| => Strip(labels[j]));
    }

    /** `df[name] = v` with a scalar `v`: every column labelled `name` is set
        to `v` in every row; when there is none, a column `name` holding `v`
        in every row is appended after the existing ones. */
    method SetColumn(name: string, v: string)
      requires Valid()
      modifies this
      ensures Valid() && |rows| == |old(rows)|
      ensures name in old(columns) ==> columns == old(columns)
      ensures name in old(columns) ==> forall i, j :: 0 <= i < |rows| && 0 <= j < |columns| ==>
        rows[i][j] == if columns[j] == name then Str(v) else old(rows)[i][j]
      ensures name !in old(columns) ==> columns == old(columns) + [name]
      ensures name !in old(columns) ==> forall i :: 0 <= i < |rows| ==> rows[i] == old(rows)[i] + [Str(v)]
    {
      var labels: seq<string>, cells: seq<seq<Cell>> := columns, rows;
      if name in labels {
        rows := seq(|cells|, i requires 0 <= i < |cells| =>
          seq(|labels|, j requires 0 <= j < |labels| =>
            if labels[j] == name then Str(v) else cells[i][j]));
      } else {
        columns := labels + [name];
        rows := seq(|cells|, i requires 0 <= i < |cells| => cells[i] + [Str(v)]);
      }
    }

    /** `df[name] = df[name].fillna(v)`: in every column labelled `name`, each
        missing cell becomes `v` and each present cell is kept. Selecting a
        label that is not there raises `KeyError`, so the column must exist. */
    method FillMissing(name: string, v: string)
      requires Valid() && name in columns
      modifies this
      ensures Valid()
      ensures columns == old(columns) && |rows| == |old(rows)|
      ensures forall i, j :: 0 <= i < |rows| && 0 <= j < |columns| ==>
        rows[i][j] == if columns[j] == name then old(rows)[i][j].Filled(v) else old(rows)[i][j]
    {
      var labels: seq<string>, cells: seq<seq<Cell>> := columns, rows;
      rows := seq(|cells|, i requires 0 <= i < |cells| =>
        seq(|labels|, j requires 0 <= j < |labels| =>
          if labels[j] == name then cells[i][j].Filled(v) else cells[i][j]));
    }
  }
}

/** `load_data` of the town-hub dashboard: read the events sheet, tidy its
    column labels, make sure the image and description columns exist and
    have no missing cells, and turn any failure into an empty table. */
module App {
  import opened Strings
  import opened Frames

  const IMAGE_COLUMN := "Image_URL"
  const DESCRIPTION_COLUMN := "Description"
  /** Used both for a missing image column and for a missing image cell. */
  const PLACEHOLDER_IMAGE := "https://via.placeholder.com/300?text=No+Image"
  /** Fills a description column that the sheet does not have at all. */
  const NEW_COLUMN_DESCRIPTION := "No description available yet."
  /** Fills a missing cell of a description column the sheet does have. */
  const MISSING_CELL_DESCRIPTION := "No description available."

  /** What `pd.read_csv` of the sheet URL gives: a parsed table, or an
      exception (network error, empty or malformed CSV). */
  datatype ReadOutcome = Parsed(table: Table) | ReadFailed

  /** `DataFrame.empty`: no columns or no rows. */
  predicate IsEmpty(t: Table) {
    |t.columns| == 0 || |t.rows| == 0
  }

  /** The value one cell of a column labelled `name` ends up with. */
  function Defaulted(name: string, c: Cell): (d: Cell)
    ensures c.Str? ==> d == c
    ensures c.NaN? && name == IMAGE_COLUMN ==> d == Str(PLACEHOLDER_IMAGE)
    ensures c.NaN? && name == DESCRIPTION_COLUMN ==> d == Str(MISSING_CELL_DESCRIPTION)
    ensures name != IMAGE_COLUMN && name != DESCRIPTION_COLUMN ==> d == c
  {
    if name == IMAGE_COLUMN then c.Filled(PLACEHOLDER_IMAGE)
    else if name == DESCRIPTION_COLUMN then c.Filled(MISSING_CELL_DESCRIPTION)
    else c
  }

  /** `Index.str.strip()`: each label stripped, in place. */
  function StripAll(labels: seq<string>): (r: seq<string>)
    ensures |r| == |labels|
    ensures forall j :: 0 <= j < |r| ==> r[j] == Strip(labels[j])
    ensures forall j :: 0 <= j < |r| ==> Trimmed(r[j])
  {
    seq(|labels|, j requires 0 <= j < |labels| => Strip(labels[j]))
  }

  /** The columns that are appended to labels that lack them, in order. */
  function AddedLabels(labels: seq<string>): seq<string> {
    (if IMAGE_COLUMN in labels then [] else [IMAGE_COLUMN]) +
    (if DESCRIPTION_COLUMN in labels then [] else [DESCRIPTION_COLUMN])
  }

  /** The constants the appended columns hold in every row. */
  function AddedCells(labels: seq<string>): (cells: seq<Cell>)
    ensures |cells| == |AddedLabels(labels)|
  {
    (if IMAGE_COLUMN in labels then [] else [Str(PLACEHOLDER_IMAGE)]) +
    (if DESCRIPTION_COLUMN in labels then [] else [Str(NEW_COLUMN_DESCRIPTION)])
  }

  /** One row of the result: the row's own cells, the image and description
      cells defaulted, followed by the constants of the added columns. */
  function NormalizedRow(labels: seq<string>, row: seq<Cell>): (r: seq<Cell>)
    requires |row| == |labels|
    ensures |r| == |labels| + |AddedLabels(labels)|
  {
    seq(|labels|, j requires 0 <= j < |labels| => Defaulted(labels[j], row[j])) + AddedCells(labels)
  }

  /** The table `load_data` returns for a sheet that was read as `t`, in one
      step: the stripped labels followed by whichever of the two columns were
      missing, and each row normalised in place. */
  function Normalize(t: Table): Table {
    var labels := StripAll(t.columns);
    Frame(labels + AddedLabels(labels),
          seq(|t.rows|, i requires 0 <= i < |t.rows| => NormalizedRow(labels, t.rows[i])))
  }

  /** Cell `(i, j)` of the result: for one of the sheet's own columns, the
      stripped label and the defaulted cell; past them, an added column and
      its constant. */
  lemma NormalizeAt(t: Table, i: nat, j: nat)
    requires i < |t.rows| && j < |Normalize(t).columns|
    ensures var r := Normalize(t); var labels := StripAll(t.columns); var n := |t.columns|;
      if j < n then
        r.columns[j] == Strip(t.columns[j]) && r.rows[i][j] == Defaulted(Strip(t.columns[j]), t.rows[i][j])
      else
        r.columns[j] == AddedLabels(labels)[j - n] && r.rows[i][j] == AddedCells(labels)[j - n]
  {
    var labels := StripAll(t.columns);
    assert Normalize(t).rows[i] == NormalizedRow(labels, t.rows[i]);
  }

  /** What the caller of `load_data` receives: the normalised table, or the
      empty table when reading failed; no error reaches the caller. */
  function Load(read: ReadOutcome): Table {
    match read
    case ReadFailed => EMPTY_TABLE
    case Parsed(t) => Normalize(t)
  }

  /** The table after the two conditional insertions: the stripped labels and
      the untouched cells, then the added columns and their constants. */
  ghost predicate Widened(t: Table, labels: seq<string>, w: Table) {
    && labels == StripAll(t.columns)
    && w.columns == labels + AddedLabels(labels)
    && |w.rows| == |t.rows|
    && forall i :: 0 <= i < |w.rows| ==> w.rows[i] == t.rows[i] + AddedCells(labels)
  }

  /** The constant of an added column is already what defaulting gives. */
  lemma AddedCellsKept(labels: seq<string>, k: nat)
    requires k < |AddedLabels(labels)|
    ensures Defaulted(AddedLabels(labels)[k], AddedCells(labels)[k]) == AddedCells(labels)[k]
  {
  }

  /** Defaulting every cell of the widened table gives the normalised table. */
  lemma DefaultedWidenedIsNormalized(t: Table, labels: seq<string>, w: Table, f: Table)
    requires Widened(t, labels, w)
    requires f.columns == w.columns && |f.rows| == |w.rows|
    requires forall i, j :: 0 <= i < |f.rows| && 0 <= j < |f.columns| ==>
      f.rows[i][j] == Defaulted(w.columns[j], w.rows[i][j])
    ensures f == Normalize(t)
  {
    var r := Normalize(t);
    var extra := AddedCells(labels);
    forall i | 0 <= i < |t.rows|
      ensures f.rows[i] == r.rows[i]
    {
      forall j | 0 <= j < |f.columns|
        ensures f.rows[i][j] == r.rows[i][j]
      {
        assert f.rows[i][j] == Defaulted(w.columns[j], w.rows[i][j]);
        if j < |labels| {
          assert w.columns[j] == labels[j];
          assert w.rows[i][j] == t.rows[i][j];
          assert r.rows[i][j] == Defaulted(labels[j], t.rows[i][j]);
        } else {
          var k := j - |labels|;
          assert w.rows[i][j] == extra[k] == r.rows[i][j];
          assert w.columns[j] == AddedLabels(labels)[k];
          AddedCellsKept(labels, k);
        }
      }
    }
  }

  /** app.py:45-49: add an image column holding the placeholder
      and a description column holding its text, each only when missing. */
  method AddMissingColumns(df: DataFrame)
    requires df.Valid()
    modifies df
    ensures df.Valid() && |df.rows| == |old(df.rows)|
    ensures df.columns == old(df.columns) + AddedLabels(old(df.columns))
    ensures forall i :: 0 <= i < |df.rows| ==> df.rows[i] == old(df.rows)[i] + AddedCells(old(df.columns))
  {
    ghost var labels, cells := df.columns, df.rows;
    ghost var extra: seq<Cell> := [];
    if !df.HasColumn(IMAGE_COLUMN) {
      df.SetColumn(IMAGE_COLUMN, PLACEHOLDER_IMAGE);
      extra := [Str(PLACEHOLDER_IMAGE)];
    }
    assert forall i :: 0 <= i < |df.rows| ==> df.rows[i] == cells[i] + extra;
    if !df.HasColumn(DESCRIPTION_COLUMN) {
      ghost var before := df.rows;
      df.SetColumn(DESCRIPTION_COLUMN, NEW_COLUMN_DESCRIPTION);
      forall i | 0 <= i < |df.rows|
        ensures df.rows[i] == cells[i] + (extra + [Str(NEW_COLUMN_DESCRIPTION)])
      {
        assert before[i] == cells[i] + extra;
      }
      extra := extra + [Str(NEW_COLUMN_DESCRIPTION)];
    }
    assert extra == AddedCells(labels);
  }

  /** app.py:52-53: fill the missing cells of the image and the
      description columns, each with its own text. */
  method FillDefaults(df: DataFrame)
    requires df.Valid() && IMAGE_COLUMN in df.columns && DESCRIPTION_COLUMN in df.columns
    modifies df
    ensures df.Valid() && df.columns == old(df.columns) && |df.rows| == |old(df.rows)|
    ensures forall i, j :: 0 <= i < |df.rows| && 0 <= j < |df.columns| ==>
      df.rows[i][j] == Defaulted(df.columns[j], old(df.rows)[i][j])
  {
    df.FillMissing(IMAGE_COLUMN, PLACEHOLDER_IMAGE);
    df.FillMissing(DESCRIPTION_COLUMN, MISSING_CELL_DESCRIPTION);
  }

  /** `load_data` (app.py:38-59), step by step: read, strip the labels, add
      the missing columns, fill the missing cells. */
  method LoadData(read: ReadOutcome) returns (df: DataFrame)
    ensures fresh(df) && df.Valid() && df.Value() == Load(read)
  {
    match read
    case ReadFailed =>
      df := new DataFrame(EMPTY_TABLE);
    case Parsed(t) =>
      df := new DataFrame(t);
      df.StripColumns();
      ghost var labels := df.columns;
      assert labels == StripAll(t.columns);
      AddMissingColumns(df);
      ghost var widened := df.Value();
      assert Widened(t, labels, widened);
      FillDefaults(df);
      DefaultedWidenedIsNormalized(t, labels, widened, df.Value());
  }
}

/** What `load_data` promises about the table it returns, proved about the
    reference definitions `App.Normalize` and `App.Load`. */
module LoadProperties {
  import opened Strings
  import opened Frames
  import opened App

  /** The sheet has a column that is labelled `name` once its label is stripped. */
  predicate Present(t: Table, name: string) {
    name in StripAll(t.columns)
  }

  lemma PresentMeans(t: Table, name: string)
    ensures Present(t, name) <==> exists j :: 0 <= j < |t.columns| && Strip(t.columns[j]) == name
  {
    if Present(t, name) {
      var j :| 0 <= j < |t.columns| && StripAll(t.columns)[j] == name;
    }
  }

  /** Every label of the result is stripped; the sheet's own columns keep
      their place, each with its stripped label. */
  lemma NormalizeHeadersTrimmed(t: Table)
    ensures |t.columns| <= |Normalize(t).columns|
    ensures forall j :: 0 <= j < |t.columns| ==> Normalize(t).columns[j] == Strip(t.columns[j])
    ensures forall j :: 0 <= j < |Normalize(t).columns| ==> Trimmed(Normalize(t).columns[j])
  {
    var r := Normalize(t);
    var labels := StripAll(t.columns);
    forall j | |t.columns| <= j < |r.columns|
      ensures Trimmed(r.columns[j])
    {
      assert r.columns[j] in AddedLabels(labels);
    }
  }

  /** A column is appended only for a name the sheet lacks: first the image
      column, then the description column. Both are there afterwards. */
  lemma NormalizeAppendsMissingColumns(t: Table)
    ensures var r := Normalize(t); var n := |t.columns|;
      && |r.columns| == n + (if Present(t, IMAGE_COLUMN) then 0 else 1)
                          + (if Present(t, DESCRIPTION_COLUMN) then 0 else 1)
      && (!Present(t, IMAGE_COLUMN) ==> r.columns[n] == IMAGE_COLUMN)
      && (!Present(t, DESCRIPTION_COLUMN) ==> r.columns[|r.columns| - 1] == DESCRIPTION_COLUMN)
      && (Present(t, IMAGE_COLUMN) ==> IMAGE_COLUMN !in r.columns[n..])
      && (Present(t, DESCRIPTION_COLUMN) ==> DESCRIPTION_COLUMN !in r.columns[n..])
      && IMAGE_COLUMN in r.columns && DESCRIPTION_COLUMN in r.columns
  {
    var r := Normalize(t);
    var n := |t.columns|;
    var labels := StripAll(t.columns);
    assert r.columns[..n] == labels;
    assert r.columns[n..] == AddedLabels(labels);
  }

  /** A sheet without an image column gets the placeholder in every row. */
  lemma NormalizeImageWhenAbsent(t: Table)
    requires !Present(t, IMAGE_COLUMN)
    ensures var r := Normalize(t);
      forall i, j :: 0 <= i < |r.rows| && 0 <= j < |r.columns| && r.columns[j] == IMAGE_COLUMN ==>
        r.rows[i][j] == Str(PLACEHOLDER_IMAGE)
  {
    var r := Normalize(t);
    var labels := StripAll(t.columns);
    forall i, j | 0 <= i < |r.rows| && 0 <= j < |r.columns| && r.columns[j] == IMAGE_COLUMN
      ensures r.rows[i][j] == Str(PLACEHOLDER_IMAGE)
    {
      NormalizeAt(t, i, j);
      if j < |labels| {
        assert false;
      }
    }
  }

  /** A sheet without a description column gets "No description available
      yet." in every row. */
  lemma NormalizeDescriptionWhenAbsent(t: Table)
    requires !Present(t, DESCRIPTION_COLUMN)
    ensures var r := Normalize(t);
      forall i, j :: 0 <= i < |r.rows| && 0 <= j < |r.columns| && r.columns[j] == DESCRIPTION_COLUMN ==>
        r.rows[i][j] == Str(NEW_COLUMN_DESCRIPTION)
  {
    var r := Normalize(t);
    var labels := StripAll(t.columns);
    forall i, j | 0 <= i < |r.rows| && 0 <= j < |r.columns| && r.columns[j] == DESCRIPTION_COLUMN
      ensures r.rows[i][j] == Str(NEW_COLUMN_DESCRIPTION)
    {
      NormalizeAt(t, i, j);
      if j < |labels| {
        assert false;
      }
    }
  }

  /** A missing cell of a sheet's own image column becomes the placeholder,
      one of its own description column "No description available.". */
  lemma NormalizeFillsMissingCells(t: Table)
    ensures var r := Normalize(t);
      forall i, j :: 0 <= i < |t.rows| && 0 <= j < |t.columns| && t.rows[i][j] == NaN ==>
        && (Strip(t.columns[j]) == IMAGE_COLUMN ==> r.rows[i][j] == Str(PLACEHOLDER_IMAGE))
        && (Strip(t.columns[j]) == DESCRIPTION_COLUMN ==> r.rows[i][j] == Str(MISSING_CELL_DESCRIPTION))
  {
    forall i, j | 0 <= i < |t.rows| && 0 <= j < |t.columns| && t.rows[i][j] == NaN {
      NormalizeAt(t, i, j);
    }
  }

  /** Defaulting never touches a cell that holds a value, whatever its
      column: an empty or blank string that was read as a value stays. */
  lemma NormalizeKeepsPresentCells(t: Table)
    ensures var r := Normalize(t);
      forall i, j :: 0 <= i < |t.rows| && 0 <= j < |t.columns| && t.rows[i][j].Str? ==>
        r.rows[i][j] == t.rows[i][j]
  {
    forall i, j | 0 <= i < |t.rows| && 0 <= j < |t.columns| && t.rows[i][j].Str?
      ensures Normalize(t).rows[i][j] == t.rows[i][j]
    {
      NormalizeAt(t, i, j);
      var c := t.rows[i][j];
      assert Defaulted(Strip(t.columns[j]), c) == c;
    }
  }

  /** Every cell of every other column (event, date, type, coordinates, ...)
      is the sheet's, row for row. */
  lemma NormalizeKeepsOtherColumns(t: Table)
    ensures |Normalize(t).rows| == |t.rows|
    ensures var r := Normalize(t);
      forall i, j ::
        (0 <= i < |t.rows| && 0 <= j < |t.columns| &&
         Strip(t.columns[j]) != IMAGE_COLUMN && Strip(t.columns[j]) != DESCRIPTION_COLUMN) ==>
        r.rows[i][j] == t.rows[i][j]
  {
    forall i, j | 0 <= i < |t.rows| && 0 <= j < |t.columns| {
      NormalizeAt(t, i, j);
    }
  }

  /** No image or description cell of the result is missing. */
  lemma NormalizeNoMissingDefaults(t: Table)
    ensures var r := Normalize(t);
      forall i, j ::
        (0 <= i < |r.rows| && 0 <= j < |r.columns| &&
         (r.columns[j] == IMAGE_COLUMN || r.columns[j] == DESCRIPTION_COLUMN)) ==> r.rows[i][j].Str?
  {
    var r := Normalize(t);
    var labels := StripAll(t.columns);
    forall i, j | 0 <= i < |r.rows| && 0 <= j < |r.columns| &&
        (r.columns[j] == IMAGE_COLUMN || r.columns[j] == DESCRIPTION_COLUMN)
      ensures r.rows[i][j].Str?
    {
      NormalizeAt(t, i, j);
      if j >= |labels| {
        assert r.rows[i][j] in AddedCells(labels);
      }
    }
  }

  /** A one-row sheet with a description column whose cell is missing gets
      "No description available." there. */
  lemma MissingDescriptionCellExample()
    ensures Normalize(Frame([DESCRIPTION_COLUMN], [[NaN]])).rows[0][0] == Str(MISSING_CELL_DESCRIPTION)
  {
    var t: Table := Frame([DESCRIPTION_COLUMN], [[NaN]]);
    assert Strip(DESCRIPTION_COLUMN) == DESCRIPTION_COLUMN by {
      StripTrimmed(DESCRIPTION_COLUMN);
    }
    NormalizeAt(t, 0, 0);
  }

  /** A one-row sheet with only an `Event` column keeps it and gets the
      image column and then the description column after it, the latter
      holding the other text, "No description available yet.". */
  lemma MissingDescriptionColumnExample()
    ensures var r := Normalize(Frame(["Event"], [[Str("Fair")]]));
      && r.columns == ["Event", IMAGE_COLUMN, DESCRIPTION_COLUMN]
      && r.rows[0] == [Str("Fair"), Str(PLACEHOLDER_IMAGE), Str(NEW_COLUMN_DESCRIPTION)]
      && MISSING_CELL_DESCRIPTION != NEW_COLUMN_DESCRIPTION
  {
    var t: Table := Frame(["Event"], [[Str("Fair")]]);
    assert StripAll(t.columns) == ["Event"] by {
      StripTrimmed("Event");
    }
    NormalizeAt(t, 0, 0);
    NormalizeAt(t, 0, 1);
    NormalizeAt(t, 0, 2);
  }

  /** Labels that differ only in surrounding whitespace give the same result:
      " Image_URL " counts as the image column. */
  lemma NormalizeIgnoresHeaderPadding(t: Table, u: Table)
    requires |t.columns| == |u.columns| && t.rows == u.rows
    requires forall j :: 0 <= j < |t.columns| ==> Strip(t.columns[j]) == Strip(u.columns[j])
    ensures Normalize(t) == Normalize(u)
  {
    assert StripAll(t.columns) == StripAll(u.columns);
  }

  /** A label padded with whitespace around "Image_URL" makes the image
      column present: no placeholder column is added and its cells are kept
      or filled in place. */
  lemma PaddedImageHeaderIsPresent(t: Table, j: nat, lead: string, trail: string)
    requires j < |t.columns| && AllSpace(lead) && AllSpace(trail)
    requires t.columns[j] == lead + IMAGE_COLUMN + trail
    ensures Present(t, IMAGE_COLUMN)
    ensures Normalize(t).columns[j] == IMAGE_COLUMN
    ensures IMAGE_COLUMN !in Normalize(t).columns[|t.columns|..]
    ensures forall i :: 0 <= i < |t.rows| ==>
      Normalize(t).rows[i][j] == t.rows[i][j].Filled(PLACEHOLDER_IMAGE)
  {
    StripPadded(lead, IMAGE_COLUMN, trail);
    assert StripAll(t.columns)[j] == IMAGE_COLUMN;
    NormalizeAppendsMissingColumns(t);
    forall i | 0 <= i < |t.rows|
      ensures Normalize(t).rows[i][j] == t.rows[i][j].Filled(PLACEHOLDER_IMAGE)
    {
      NormalizeAt(t, i, j);
    }
  }

  /** Labels that are all trimmed strip to themselves. */
  lemma StripAllTrimmed(labels: seq<string>)
    requires forall j :: 0 <= j < |labels| ==> Trimmed(labels[j])
    ensures StripAll(labels) == labels
  {
    forall j | 0 <= j < |labels|
      ensures StripAll(labels)[j] == labels[j]
    {
      StripTrimmed(labels[j]);
    }
  }

  /** Loading the result of a load again changes nothing: its labels are
      stripped, both columns are there and none of their cells is missing. */
  lemma NormalizeIdempotent(t: Table)
    ensures Normalize(Normalize(t)) == Normalize(t)
  {
    var r := Normalize(t);
    var rr := Normalize(r);
    var labels := StripAll(r.columns);
    assert labels == r.columns by {
      NormalizeHeadersTrimmed(t);
      StripAllTrimmed(r.columns);
    }
    assert AddedLabels(labels) == [] by {
      NormalizeAppendsMissingColumns(t);
    }
    assert rr.columns == r.columns;
    forall i | 0 <= i < |r.rows|
      ensures rr.rows[i] == r.rows[i]
    {
      NormalizeNoMissingDefaults(t);
      forall j | 0 <= j < |r.columns|
        ensures rr.rows[i][j] == r.rows[i][j]
      {
        NormalizeAt(r, i, j);
      }
    }
  }

  /** A failed read gives the empty table; a successful one never does, since
      it has at least the image and description columns. */
  lemma LoadEmptyOnlyOnFailure(read: ReadOutcome)
    ensures read.ReadFailed? ==> Load(read) == EMPTY_TABLE
    ensures |Load(read).columns| == 0 <==> read.ReadFailed?
  {
    if read.Parsed? {
      NormalizeAppendsMissingColumns(read.table);
    }
  }

  /** The page's "database is empty" test (`df.empty`) holds exactly when the
      read failed or the sheet had no rows. */
  lemma LoadIsEmptyIff(read: ReadOutcome)
    ensures IsEmpty(Load(read)) <==> read.ReadFailed? || |read.table.rows| == 0
  {
    LoadEmptyOnlyOnFailure(read);
  }
}

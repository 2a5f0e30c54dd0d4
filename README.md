# Town-hub event sheet loader, modelled in Dafny

The dashboard in `app.py` reads a published spreadsheet tab ("Events") as CSV
into a pandas DataFrame and hands it to the map and feed views. Its only
logic is `load_data`:

1. strip surrounding whitespace from every column label;
2. add an `Image_URL` column holding the placeholder image URL, and a
   `Description` column holding "No description available yet.", each only
   when the sheet lacks it;
3. fill the missing (NaN) cells of `Image_URL` with the placeholder URL and
   those of `Description` with "No description available." (a different
   text from the one a new column gets);
4. turn any failure into an empty DataFrame.

The project models that function and proves what it promises.

- `strings.dfy`, module `Strings`: Python's `str.strip()`, with whitespace
  meaning what `str.isspace()` accepts. `LeadingSpace` and `TrailingSpace`
  count the whitespace that `lstrip` and `rstrip` remove, and `Strip` keeps
  what lies between. Lemmas show that stripping removes only whitespace,
  undoes any padding and is idempotent.
- `frames.dfy`, module `Frames`: a cell is `NaN` or `Str(text)`. A `Table` is
  a rectangular frame made of a list of column labels and a list of rows.
  Cells are addressed by position, so repeated labels and column order are
  kept as in pandas. The class `DataFrame` holds the two fields that
  `load_data` reassigns. Its methods are the pandas operations `load_data`
  uses: `StripColumns` (`df.columns = df.columns.str.strip()`), `SetColumn`
  (`df[name] = scalar`) and `FillMissing` (`df[name] = df[name].fillna(v)`).
- `app.dfy`, module `App`: the constants of `app.py`, and the read step as
  an input, `ReadOutcome = Parsed(table) | ReadFailed`. `Normalize` is a
  one-step reference definition of the table `load_data` returns, and `Load`
  is the whole function. `LoadData` is the method that performs the
  steps of `load_data` in order on a `DataFrame`. Its postcondition is that the
  object ends up holding `Load(read)`.
- `properties.dfy`, module `LoadProperties`: the promises of `load_data`,
  proved about `Normalize` and `Load`. They cover trimmed labels, both
  columns present, constant columns when absent, per-cell filling with two
  different texts, present cells and other columns untouched, row count and
  order kept, tolerance of label padding, idempotence, and failure giving
  the empty table.

`load_data` parses no dates, coerces no coordinates and filters no rows. A
missing column gets a fixed text, not an empty string. Only NaN cells are
filled, and a blank string that pandas read as a value is kept.

## Model

| member | source | states |
|---|---|---|
| Strings.IsSpace | app.py:42 | whitespace is exactly the set `str.isspace()` accepts: TAB to CR, FS to SPACE, NEL, NO-BREAK SPACE, OGHAM SPACE MARK, EN QUAD to HAIR SPACE, the line and paragraph separators, NARROW NO-BREAK SPACE, MEDIUM MATHEMATICAL SPACE and IDEOGRAPHIC SPACE |
| Strings.IsSpaceSamples | app.py:42 | ASCII blanks, NO-BREAK SPACE, EM SPACE and IDEOGRAPHIC SPACE are whitespace; letters, `_`, ZERO WIDTH SPACE and SOFT HYPHEN are not |
| Strings.LeadingSpace | app.py:42 | the count of leading characters removed: all of them are whitespace, and the character after them, if any, is not |
| Strings.TrailingSpace | app.py:42 | the count of trailing characters removed: all of them are whitespace, and the character before them, if any, is not |
| Strings.Strip | app.py:42 | the stripped label is no longer than the original and neither starts nor ends with whitespace |
| Strings.StripRemovesOnlySpace | app.py:42 | the stripped label is the stretch of the original after its leading whitespace, and everything before and after it is whitespace |
| Strings.LeadingSpacePadded | app.py:42 | in front of a part that does not start with whitespace, exactly the whitespace prefix counts as leading whitespace |
| Strings.TrailingSpacePadded | app.py:42 | behind a part that does not end with whitespace, exactly the whitespace suffix counts as trailing whitespace |
| Strings.StripPadded | app.py:42 | stripping any whitespace padding around a trimmed label gives back that label |
| Strings.StripTrimmed | app.py:42 | a label that is already trimmed is left unchanged |
| Strings.StripIdempotent | app.py:42 | stripping twice gives the same as stripping once |
| Frames.Cell.Filled | app.py:52-53 | filling a cell leaves no NaN; a present value is kept; a NaN becomes the fill text |
| Frames.DataFrame.constructor | app.py:41 | the DataFrame holds the table that was read |
| Frames.DataFrame.HasColumn | app.py:45-48 | `name in df.columns`: whether some current label equals the name exactly |
| Frames.DataFrame.StripColumns | app.py:42 | each label is replaced by its stripped form; the number of columns and all rows are unchanged |
| Frames.DataFrame.SetColumn | app.py:46 | assigning a scalar to a label that is not present appends that label and adds the value at the end of every row; a label that is present is set to the value in every row, and every other cell is unchanged |
| Frames.DataFrame.FillMissing | app.py:52-53 | the column must exist (selecting an absent label raises KeyError); in each column with that label every cell is filled, and every other cell and all labels are unchanged |
| App.StripAll | app.py:42 | every label of the result is trimmed, and it stands in the place of the label it was stripped from |
| App.Defaulted | app.py:52-53 | a present cell is kept in every column; a NaN image cell becomes the placeholder URL and a NaN description cell "No description available."; a cell of any other column is unchanged |
| App.Normalize | app.py:41-55 | the table `load_data` returns for a parsed sheet, in one step; what it promises is stated by the `LoadProperties` lemmas `NormalizeHeadersTrimmed`, `NormalizeAppendsMissingColumns`, `NormalizeImageWhenAbsent`, `NormalizeDescriptionWhenAbsent`, `NormalizeFillsMissingCells`, `NormalizeKeepsPresentCells`, `NormalizeKeepsOtherColumns`, `NormalizeNoMissingDefaults` and `NormalizeIdempotent` |
| App.Load | app.py:40-59 | the table `load_data` returns: the normalised sheet, or `pd.DataFrame()` when reading failed; `LoadEmptyOnlyOnFailure` and `LoadIsEmptyIff` state its properties |
| App.IsEmpty | app.py:66 | `df.empty`: the table has no columns or no rows |
| App.AddMissingColumns | app.py:44-49 | the image column and then the description column are appended only when absent, each with its constant in every row; the existing cells are unchanged |
| App.FillDefaults | app.py:51-53 | every image cell is filled with the placeholder URL, every description cell with "No description available.", and all other cells and labels are unchanged |
| App.LoadData | app.py:38-59 | the step-by-step method leaves the new DataFrame holding exactly `Load(read)`: the empty table on a failed read, and the normalised table otherwise |
| LoadProperties.PresentMeans | app.py:45 | a column counts as present exactly when some label strips to its name |
| LoadProperties.NormalizeHeadersTrimmed | app.py:42 | every label of the result is trimmed; the sheet's own columns keep their positions, each with its stripped label |
| LoadProperties.NormalizeAppendsMissingColumns | app.py:45-49 | one column is appended for each of the two names that is absent and none for a name that is present; the image column comes before the description column |
| LoadProperties.NormalizeImageWhenAbsent | app.py:45-46 | when the sheet lacks an image column, every image cell of every row is the placeholder URL |
| LoadProperties.NormalizeDescriptionWhenAbsent | app.py:48-49 | when the sheet lacks a description column, every description cell of every row is "No description available yet." |
| LoadProperties.NormalizeFillsMissingCells | app.py:52-53 | a NaN cell of the sheet's own image column becomes the placeholder URL; a NaN cell of its own description column becomes "No description available." |
| LoadProperties.NormalizeKeepsPresentCells | app.py:52-53 | a cell that holds a value keeps it, in every column, including an empty or blank string |
| LoadProperties.NormalizeKeepsOtherColumns | app.py:41-55 | the result has as many rows as the sheet, and every cell of every other column equals the sheet's cell in the same row and position |
| LoadProperties.NormalizeNoMissingDefaults | app.py:45-53 | no image or description cell of the result is NaN |
| LoadProperties.MissingDescriptionCellExample | app.py:53 | a present description column with a NaN cell gets "No description available." |
| LoadProperties.MissingDescriptionColumnExample | app.py:45-49 | a one-column sheet (`Event`) keeps its column and gets `Image_URL` then `Description` after it, the latter holding "No description available yet.", which differs from the missing-cell text |
| LoadProperties.NormalizeIgnoresHeaderPadding | app.py:42 | two sheets whose labels differ only in surrounding whitespace give the same result |
| LoadProperties.PaddedImageHeaderIsPresent | app.py:42-46 | a label such as " Image_URL " makes the image column present: it is labelled `Image_URL` in place, each of its cells is kept or filled with the placeholder there, and no placeholder column is appended |
| LoadProperties.StripAllTrimmed | app.py:42 | stripping labels that are all trimmed changes none of them |
| LoadProperties.NormalizeIdempotent | app.py:41-55 | normalising a result again changes nothing |
| LoadProperties.LoadEmptyOnlyOnFailure | app.py:56-59 | a failed read gives the empty table, and a result has no columns exactly when the read failed |
| LoadProperties.LoadIsEmptyIff | app.py:59 | the result is empty in the pandas sense exactly when the read failed or the sheet had no rows |

## Left out

- `pd.read_csv(SHEET_URL)` (app.py:41): the network fetch and CSV decoding are I/O through a library. The model takes their result as the input `ReadOutcome`. Which texts pandas reads as NaN, and how numbers are parsed, are part of that step. Cells are kept as opaque text.
- Processing failures: for a parsed table, the steps at app.py:42-53 cannot raise in the model. `FillMissing` needs its column, and the proof shows the guard at lines 45-49 supplies it. So the only failure path modelled is the read.
- `@st.cache_data(ttl=10)` (app.py:38): time-based memoisation depends on the wall clock and is left out; each call is modelled as a fresh load.
- `st.error` (app.py:58) and all page, CSS, banner, map and feed output (app.py:7-30, 61-113): these are presentation only. The `df.empty` test at app.py:66 appears only as the predicate `IsEmpty`.
- Floating-point values of `Lat`/`Lon`, dates and categories: the code does not coerce, parse or filter them, so the model keeps their cells unchanged.
- Repeated labels: the model treats `df[name]` on a label that occurs several times as acting on every column with that label. This is how pandas selects such a label, but the model does not describe how pandas aligns the assigned frame.

# A/B testing annotation tool — Dafny model of the session logic

The A/B testing annotation tool is a Streamlit script. A reviewer uploads an
Excel workbook and picks a sheet ("comparison group"). Each row of the sheet
holds a context and two candidate texts, A and B. The reviewer rates every
row on five metrics (Prosociality, Engaged, Respect, Coherency, Overall)
with a three-way radio: "Option A wins", "Tie" or "Option B wins". The rows
are shown five to a page.

Under the widgets, each rerun of the script does a short series of steps on
the session state. This project models those steps and proves what they
guarantee:

- **Working table** (`tables.dfy`, `session.dfy`). The slot
  `st.session_state['df']` is filled with a copy of the selected sheet only
  while it is empty. After that it is kept, whichever sheet is selected
  later. Each of the five metric columns the table lacks is then appended,
  unset in every row. `Tables.Frame` models a DataFrame: its column names in
  order, plus its rows, each row a map from column name to an optional cell.
  A sheet read from a workbook has the default integer index. So the index
  label `i` that `iterrows` yields and `.at` uses is the row's position, and
  the model identifies rows by position.
- **Pagination** (`pagination.dfy`). The page size is 5. The page count is
  `n // 5`, plus one when there is a remainder. Page `p` is the positional
  slice `iloc[(p-1)*5 : (p-1)*5+5]`, cut off at the end of the table.
- **Rating writes** (`ratings.dfy`, `session.dfy`). For every row on the
  current page, the script writes each of the five metric cells with
  `.at[i, metric] = st.radio(...)`. The radio returns the label of the
  user's pick, or "Tie" (`index=1`) when there is none. The radios' widget
  state is an input: a map from (metric, row label) to the picked option.
  It stands for the state under the widget key `f"{metric}_{i}"`, and
  `Ratings.WidgetKeysDistinct` shows that those keys never collide.
- **Session** (`session.dfy`). The class `AnnotationSession.Session` holds
  the slot. Its methods are the script's steps in place: a loop adding
  columns, and a loop over the page's rows writing cells. Each method's
  postcondition ties the new slot to a specification function (`AddColumns`,
  `RatePage`, `Run`). Lemmas prove what those functions guarantee, including
  over any sequence of reruns (`RunAll`).

The script keeps one working copy, not one per sheet: once the slot is
filled it is never replaced, whichever sheet is selected later. It always
defaults the radios to "Tie", whatever the stored cell holds. It raises no
errors of its own for a bad metric, label or row, and it computes no summary
statistics. The model follows the script.

## Model

| member | source | states |
|---|---|---|
| `Pagination.TotalPages` | AB_testing.py:32 | the page count is the ceiling of n/5: pages times 5 reaches n, one page fewer does not, and it is 0 exactly for an empty table |
| `Pagination.StartIdx` | AB_testing.py:34 | page p starts on a multiple of the page size, after exactly p-1 full pages |
| `Pagination.EndIdx` | AB_testing.py:35 | a page spans exactly one page size, and it ends where the next page starts |
| `Pagination.SliceIndices` | AB_testing.py:36 | `iloc[lo:hi]` selects positions lo, lo+1, … in order, stops at the end of the table, and is empty when lo is past the end |
| `Pagination.PageIndices` | AB_testing.py:33-36 | page p lists positions starting at (p-1)*5, in order, all inside the table, at most 5 of them; a page in [1, total pages] is non-empty and ends at min(p*5, n); a page past the last is empty |
| `Pagination.PageRows` | AB_testing.py:36 | the page slice of the table holds exactly the rows at the page's positions, in order |
| `Pagination.OnPageIffListed` | AB_testing.py:34-36 | a row position is on page p if and only if p's slice lists it |
| `Pagination.PagesUpToPrefix` | AB_testing.py:32-36 | pages 1..k together list the positions 0 up to min(5k, n), each once and in order |
| `Pagination.PagesPartitionTable` | AB_testing.py:32-36 | pages 1..total, concatenated, list every row position 0..n-1 exactly once, in table order |
| `Pagination.PageRowsUpToPrefix` | AB_testing.py:32-36 | the rows of pages 1..k, concatenated, are the table's first min(5k, n) rows |
| `Pagination.PagesReassembleTable` | AB_testing.py:32-36 | concatenating the rows of all pages in order gives back the whole table |
| `Tables.WithColumn` | AB_testing.py:28 | assigning None to a new column appends it after the existing columns, keeps every row and every existing cell, and leaves the new column unset in every row |
| `Tables.AddColumn` | AB_testing.py:27-28 | one turn of the column loop leaves the column present, keeps the table rectangular, its rows and its columns in front; a column already there leaves the table unchanged |
| `Tables.AddColumns` | AB_testing.py:26-28 | the column loop keeps the table rectangular and keeps its row count |
| `Tables.AddColumnsProperties` | AB_testing.py:26-28 | after the column loop every listed column exists; the old columns stay in front; every old cell is kept; each newly added column is unset in every row |
| `Tables.AddColumnsSnoc` | AB_testing.py:26 | one more column name runs one more turn of the loop on the result so far |
| `Tables.AddColumnsPrefixStep` | AB_testing.py:26-28 | turn k of the loop over a column list runs on the result of the first k turns |
| `Tables.AddColumnsPresent` | AB_testing.py:27 | when every listed column is present, the column loop changes nothing |
| `Tables.AddColumnsIdempotent` | AB_testing.py:26-28 | running the column step twice gives the same table as running it once |
| `Ratings.WithMetricColumns` | AB_testing.py:26-28 | after the column step the table has all five metric columns, stays rectangular and keeps its row count |
| `Ratings.Choice.Index` | AB_testing.py:88 | each pick is one of the radio's three option positions |
| `Ratings.ChoiceOf` | AB_testing.py:88 | a cell text stands for a pick if and only if it is one of the three labels, and that pick's label is the text |
| `Ratings.Radio` | AB_testing.py:87-89 | the radio always returns one of the three labels; with no pick it returns "Tie"; with a pick, its label gives the pick back |
| `Ratings.Decimal` | AB_testing.py:88 | `str(i)` in the f-string key: at least one character, every one a decimal digit, and two or more exactly when i >= 10 |
| `Ratings.WidgetKey` | AB_testing.py:88 | the key `f"{metric}_{i}"` reads back as the metric name, then `_`, then the decimal text of i |
| `Ratings.DecimalInjective` | AB_testing.py:88 | the decimal text of a row label, as in the f-string key, determines the label |
| `Ratings.WidgetKeysDistinct` | AB_testing.py:88 | the widget keys `f"{metric}_{i}"` of two radios are equal exactly when both metric and row label are, so each radio keeps its own state |
| `Ratings.Picked` | AB_testing.py:88 | the pick read for a radio is present exactly when the user has touched that radio, and is what was picked there |
| `Ratings.SetCell` | AB_testing.py:87 | `.at[i, metric] = v` changes only row i, where only that one cell changes; the columns and all other rows are kept |
| `Ratings.RateRow` | AB_testing.py:87-105 | the five writes for one row keep the row's columns and add the five metric columns |
| `Ratings.RateRowMetricCells` | AB_testing.py:87-105 | after the five writes, each metric cell holds its radio's label |
| `Ratings.RateRowOtherCells` | AB_testing.py:87-105 | the five writes keep every cell outside the metric columns |
| `Ratings.RowsAgree` | AB_testing.py:87-105 | two rows that agree outside the metric columns are equal once rated: the writes leave nothing of the old metric cells |
| `Ratings.RateRowKeepsShape` | AB_testing.py:87-105 | rating a row of a table that has the metric columns keeps the table rectangular |
| `Ratings.RateRange` | AB_testing.py:38 | rating positions lo..hi-1 replaces exactly those rows with their rated versions; all other rows and the columns are kept |
| `Ratings.RateRangeStep` | AB_testing.py:38 | rating one more row extends the rated range by that row |
| `Ratings.RatePage` | AB_testing.py:36-38 | rating page p writes only the five metric cells of the rows on p, each with a radio label; all other cells of all rows, the columns, and the row count and order are kept |
| `Ratings.UntouchedPageIsAllTie` | AB_testing.py:87-105 | with no radio touched, every metric of every row on the page reads "Tie" afterwards, whatever it held before |
| `Ratings.RateRowLastWriteWins` | AB_testing.py:87-105 | rating a row again replaces its earlier rating completely |
| `Ratings.RatePageLastWriteWins` | AB_testing.py:87-105 | rating a page again replaces its earlier ratings: only the last widget state counts |
| `Ratings.RatePageIdempotent` | AB_testing.py:87-105 | rating a page twice with the same picks equals rating it once |
| `Ratings.PageEntryLabels` | AB_testing.py:46 | a page has one heading per row on it |
| `Ratings.EntryLabel` | AB_testing.py:46 | as written, the heading number is the row's 1-based position plus start_idx, so on any page after the first it is too large |
| `Ratings.EntryLabelCountsOffsetTwice` | AB_testing.py:46 | as written, a heading on page p is its row's 1-based position plus (p-1)*5, so from page 2 on it is too large |
| `Ratings.EntryLabelExceedsRowCount` | AB_testing.py:46 | in a six-row table the sixth row is alone on page 2 and is headed "Entry 11" |
| `Ratings.IntendedPageEntryLabels` | AB_testing.py:46 | with the intended numbering, a page has one heading per row on it |
| `Ratings.IntendedEntryLabelsNumberTable` | AB_testing.py:46 | with the intended numbering, paging through the table shows headings 1, 2, …, n, each once and in order |
| `AnnotationSession.Run` | AB_testing.py:15-38 | one rerun leaves a rectangular working table with all metric columns and the row count of the table it worked on |
| `AnnotationSession.RunAll` | AB_testing.py:22-38 | an empty list of reruns leaves the slot as it was; one or more reruns always leave a rectangular working table in it |
| `AnnotationSession.FirstRunCopiesSheet` | AB_testing.py:22-28 | the first rerun turns the selected sheet into a copy of it with the metric columns added: same rows in the same order, same source cells |
| `AnnotationSession.RunKeepsCopy` | AB_testing.py:22-38 | a rerun on a working copy of a sheet keeps it a copy of that sheet (same columns, rows and source cells), whichever sheet is selected now |
| `AnnotationSession.RunAllKeepsCopy` | AB_testing.py:22-38 | any number of reruns keep a working copy of a sheet a copy of that sheet |
| `AnnotationSession.FirstSheetStaysWorkingTable` | AB_testing.py:22-23 | from an empty session, after any reruns, the working table is still a copy of the sheet selected first: its columns are exactly that sheet's plus the metric columns, so later selections never replace it or merge into it, and its rows, row order and source cells never change |
| `AnnotationSession.Session.constructor` | AB_testing.py:22 | a new session has no working table |
| `AnnotationSession.Session.InitWorkingTable` | AB_testing.py:22-23 | the slot gets the selected sheet only when it is empty; a table already there is kept unchanged |
| `AnnotationSession.Session.AddAnnotationColumns` | AB_testing.py:26-28 | the in-place column loop leaves the slot equal to the column step applied to the old table |
| `AnnotationSession.Session.RateRowAt` | AB_testing.py:87-105 | the five `.at` writes for row i replace that row by its rated version and keep every other row |
| `AnnotationSession.Session.RenderEntries` | AB_testing.py:38-46 | the loop over a page slice rates exactly the slice's rows, and returns one heading per row, as the script computes it |
| `AnnotationSession.Session.RenderPage` | AB_testing.py:31-38 | rendering page p leaves the slot equal to the old table with page p rated, and returns the page's headings as the script computes them |
| `AnnotationSession.Session.Rerun` | AB_testing.py:15-38 | one rerun with a workbook leaves the slot as the functional `Run` describes, given the old slot and the selected sheet |

## Left out

- Uploading the file and parsing it with `pd.read_excel` (AB_testing.py:4-5, 13-16) are I/O through a foreign library. The workbook is an input map from sheet name to table, and each sheet is assumed rectangular with distinct column names.
- All HTML and markdown output, column layout and styling (AB_testing.py:9-11, 40-85, 107-109) are not modelled. The only displayed value modelled is the entry number in each heading.
- Sheets are assumed to have `context`, `A` and `B` columns. The headings read `row['context']`, `row['A']` and `row['B']` (AB_testing.py:47, 59, 69). On a sheet without one of them, the script raises `KeyError` on the page's first row, before any rating is written at AB_testing.py:87-105. The slot then keeps the copy with the metric columns added but unset. `Run` and `Session.RenderPage` do not model this error and rate such a sheet anyway.
- Streamlit's widget machinery is not modelled: which widget states Streamlit keeps or drops between reruns, and what triggers a rerun. The page number and the radios' picks of each rerun are inputs. The page number must lie in [1, total pages], which the `number_input` bounds give.
- An empty working table is not modelled. It has 0 pages, so the page widget's bounds are invalid and Streamlit raises an error at AB_testing.py:33. The page-number precondition of `Session.RenderPage` and `Session.Rerun` rules this case out.
- Saving, the Excel export and the download button (AB_testing.py:112-118) are file I/O.
- Cell values are modelled as optional text. pandas dtypes, NaN as opposed to None, and numeric cells are not distinguished.
- Index labels are assumed to be the default 0..n-1, as `read_excel` and `copy` give them. A sheet with any other index is not modelled.

## Findings

| source | as written | input that shows it | evidently intended | confidence | as-written member | corrected member |
|---|---|---|---|---|---|---|
| AB_testing.py:46 | heading `Entry {i+1+start_idx}`, where `i` is already the row's absolute label, so the page offset is added twice | a 6-row sheet, page 2: its only row (label 5) is headed "Entry 11" | `Entry {i+1}`, the row's 1-based position | not executed; high | `Ratings.EntryLabelExceedsRowCount` | `Ratings.IntendedEntryLabelsNumberTable` |

`Session.RenderPage` returns the headings as the script computes them, using
`Ratings.EntryLabel`. The intended numbering, `Ratings.IntendedEntryLabel`,
is defined next to it and proved to number the table 1..n.

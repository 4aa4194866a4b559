# Facilitator evaluations: form write path and dashboard read pipeline

This project models the part of the facilitator-evaluation app that links its two pages. It is written in Dafny.

The **form** (`Formulario.py`) handles one submission:

- It refuses a submission with no facilitator selected.
- Otherwise it joins the selected facilitators with `", "`.
- It stamps the current time as `%Y-%m-%d %H:%M:%S`.
- It appends one 18-cell row to the response sheet.

The **dashboard** (`Dashboard.py`) reads the sheet and works through these steps:

1. It strips the column headers.
2. It splits the `Facilitador` cell on the regular expression `,\s*`.
3. It explodes the table into one row per name and strips each name.
4. It numbers the rows in a new `ID` column, unless the sheet already has one.
5. It offers a selector: `"Todos"` followed by the sorted distinct names.
6. It keeps either every row (for `"Todos"`) or the rows naming the selected facilitator.
7. For each of the ten questions, it counts the answers per category, reindexed to the five categories in fixed order with zero fill.
8. For `"Todos"`, it counts the evaluations per facilitator over the unfiltered expanded table.

Modules, one per file:

| module | file | what it holds |
|---|---|---|
| `Outcomes` | `outcomes.dfy` | `Option`, `Result`, and the one error the pipeline raises (`KeyError` on a missing column) |
| `Text` | `text.dfy` | `str.strip()`, the `,\s*` split, `", ".join` and the name round trip |
| `Digits` | `digits.dfy` | zero-padded and plain decimal numerals, with their parsers |
| `Ordering` | `ordering.dfy` | Python's string order and `sorted(set(...))` |
| `Counting` | `counting.dfy` | `value_counts()`, `reindex(..., fill_value=0)` and sums of counts |
| `Survey` | `survey.dfy` | the row schema both pages share: categories, questions, roster and key column names |
| `Frames` | `frames.dfy` | the table read from the sheet, header cleaning and column lookup |
| `Expansion` | `expansion.dfy` | split, explode and strip of the facilitator column |
| `Dashboard` | `dashboard.dfy` | ID numbering, selector, filter, per-question counts and the whole page |
| `Form` | `form.dfy` | timestamp, row encoding and the submit action |
| `Pipeline` | `pipeline.dfy` | properties of the whole page, and of the form and dashboard together |

Conventions of the model:

- The sheet is a header row plus a sequence of data rows, and every cell is a string.
- The clock reading is a parameter of the form. It is not read from the system.
- The page's result is `Err(MissingColumn(name))` wherever pandas would raise `KeyError`.

Behaviour worth noting:

- The form writes 18 cells per row, not 17. The row is the timestamp, five participant fields, ten ratings and two comments.
- A sheet with no data rows does not produce ten all-zero distributions. `pd.DataFrame([])` has no columns, so the page fails before any chart is drawn. Which exception pandas raises first depends on its version: `KeyError` from `data["Facilitador"]`, or an `AttributeError` from `.str.strip()` on the empty column index. The model reports both as `Err(MissingColumn("Facilitador"))`, and `Dashboard.Page` returns that error for every empty sheet.
- An empty facilitator cell is not dropped by the split. `"".split(",\s*")` is `[""]`, so the cell becomes one expanded row with an empty name (`Text.SplitEmpty`). Likewise `"Ana,"` keeps a trailing empty name (`Text.SplitTrailingComma`).

## Model

| member | source | states |
|---|---|---|
| `Text.Strip` | Dashboard.py:25 | the result has no whitespace at either end and is never longer than the input; a comma-free input stays comma-free |
| `Text.StripCuts` | Dashboard.py:25 | the stripped string is a contiguous piece of the input with only whitespace cut from each side |
| `Text.StripFixedPoint` | Dashboard.py:25 | stripping leaves a string unchanged exactly when it has no surrounding whitespace |
| `Text.StripIdempotent` | Dashboard.py:25 | stripping twice is stripping once |
| `Text.Split` | Dashboard.py:23 | splitting on `,\s*` yields at least one piece, no piece holds a comma, and no piece after the first starts with whitespace; a comma-free cell is its own single piece, and otherwise the first piece is exactly the text before the first comma |
| `Text.SplitLength` | Dashboard.py:23 | a cell with n commas splits into exactly n+1 pieces, so nothing is dropped |
| `Text.LeadingSpaceRun` | Dashboard.py:23 | the whitespace run `\s*` matches after a comma is all of the whitespace there, up to the first non-space character |
| `Text.SplitComma` | Dashboard.py:23 | a comma followed by any run of whitespace, none of it kept, separates a comma-free piece from the split of the rest |
| `Text.SplitEmpty` | Dashboard.py:23 | the empty cell splits into one empty piece |
| `Text.SplitTrailingComma` | Dashboard.py:23 | `"Ana,"` splits into `"Ana"` and an empty piece |
| `Text.SplitNoComma` | Dashboard.py:23 | a cell without a comma is one piece, the cell itself |
| `Text.SplitLeadingComma` | Dashboard.py:23 | a cell starting with a comma has an empty first piece |
| `Text.SplitDoubleComma` | Dashboard.py:23 | two adjacent commas leave an empty piece between them |
| `Text.Join` | Formulario.py:78 | a single selected name is stored as itself, with no separator |
| `Text.SplitJoin` | Formulario.py:78 | splitting a `", "`-joined list gives the list back when no part holds a comma and no later part starts with whitespace |
| `Text.Names` | Dashboard.py:23-25 | a cell yields one name per split piece, name i being piece i stripped, so each is stripped and comma-free |
| `Text.NamesJoin` | Dashboard.py:23-25 | the names the dashboard reads out of a joined selection of plain names are that selection, in order |
| `Digits.Padded` | Formulario.py:81 | a zero-padded field has exactly the requested width and only digits |
| `Digits.PaddedRoundTrip` | Formulario.py:81 | a zero-padded field reads back as the number it was written from |
| `Digits.Decimal` | Dashboard.py:29 | a row number is written as digits without a leading zero |
| `Digits.DecimalRoundTrip` | Dashboard.py:29 | a row number reads back as itself |
| `Digits.DecimalInjective` | Dashboard.py:29 | different row numbers have different numerals |
| `Ordering.Below` | Dashboard.py:35 | Python's `<` on strings: code-point order with a proper prefix first; it never holds between equal strings |
| `Ordering.BelowIrreflexive` | Dashboard.py:35 | no name sorts before itself |
| `Ordering.BelowTransitive` | Dashboard.py:35 | the sort order is transitive |
| `Ordering.BelowTotal` | Dashboard.py:35 | of two different names, one sorts before the other |
| `Ordering.Insert` | Dashboard.py:35 | inserting into a strictly increasing list keeps it strictly increasing and adds exactly the new name |
| `Ordering.SortedDistinct` | Dashboard.py:35 | `sorted(unique(...))` is strictly increasing and holds exactly the names of its input |
| `Ordering.SortedUnique` | Dashboard.py:35 | two strictly increasing lists with the same names are equal |
| `Counting.Count` | Dashboard.py:108 | a count never exceeds the column length and is zero exactly when the value is absent |
| `Counting.ValueCounts` | Dashboard.py:108 | the counts have a key for exactly the values present, each at least 1 |
| `Counting.Tally` | Dashboard.py:108 | one pass over the column builds the value counts, each key mapped to its number of occurrences |
| `Counting.TotalValueCounts` | Dashboard.py:108 | reading any name off the counts gives its number of occurrences, zero for an absent name |
| `Counting.Reindex` | Dashboard.py:67 | reindexing reads one count per label in label order, with 0 for a label that has no count |
| `Counting.DistributionCounts` | Dashboard.py:67 | entry c of the reindexed counts is how often label c occurs |
| `Counting.DistributionSum` | Dashboard.py:67 | the reindexed counts of distinct labels add up to the number of entries that are labels: at most the column length, and exactly that when every entry is a label |
| `Counting.SumCountsIsCountIn` | Dashboard.py:67 | adding the counts of distinct keys counts each entry that is a key exactly once |
| `Survey.Label` | Formulario.py:57-66 | every rating the form can store is one of the five categories |
| `Survey.OptionsInCategoryOrder` | Formulario.py:55 | the form lists its options in the dashboard's category order, and the categories are distinct |
| `Survey.LabelInjective` | Formulario.py:55 | different ratings are stored as different texts |
| `Survey.QuestionsAreNotKeys` | Dashboard.py:51-61 | no question column is the facilitator column or the ID column |
| `Frames.Column` | Dashboard.py:23 | a column has one cell per row, in row order |
| `Frames.Fit` | Dashboard.py:17 | a record is read at the header's width, with missing trailing cells empty |
| `Frames.Read` | Dashboard.py:17 | the table has one well-formed row per record under the header's names, and no columns at all when there are no records |
| `Frames.StripAll` | Dashboard.py:20 | the names keep their number and order, and every cleaned header is its own original stripped, with no surrounding whitespace |
| `Frames.CleanHeaders` | Dashboard.py:20 | cleaning touches only the headers and keeps the table well formed |
| `Frames.CleanHeadersIdempotent` | Dashboard.py:20 | cleaning the headers twice is cleaning them once |
| `Frames.StripAllClean` | Dashboard.py:20 | headers that are already clean are left unchanged |
| `Frames.ColumnIndex` | Dashboard.py:23 | a column name is found exactly when present, at its first position |
| `Frames.ColumnIndexAt` | Dashboard.py:23 | conversely, a name at position `k` and at no earlier position is found at `k` |
| `Frames.ColumnIndexShift` | Dashboard.py:29 | putting a column in front moves every other column one place right |
| `Frames.Lookup` | Dashboard.py:67 | `df[name]` fails exactly when the column is missing, and otherwise gives that column's cell from every row |
| `Frames.LookupCells` | Dashboard.py:67 | a property holds of every looked-up value exactly when it holds of every row's cell in that column |
| `Expansion.ExplodeRow` | Dashboard.py:23-25 | a row whose cell has n commas becomes n+1 rows in split order, each carrying one stripped name and otherwise identical to the source row |
| `Expansion.Explode` | Dashboard.py:23-25 | every expanded facilitator cell is stripped and comma-free |
| `Expansion.ExplodeLength` | Dashboard.py:24 | the expanded table has one row per source row plus one per comma in the facilitator column |
| `Expansion.ExplodeWidth` | Dashboard.py:24 | expansion keeps the width of the rows |
| `Expansion.ExplodeAppend` | Dashboard.py:24 | expanding two blocks of rows is expanding each and concatenating |
| `Expansion.ExplodeSingle` | Dashboard.py:24 | a single row expands to exactly its own pieces |
| `Expansion.ExplodedColumn` | Dashboard.py:23-25 | the expanded facilitator column is the cells' name lists one after another |
| `Expansion.AllNamesAppend` | Dashboard.py:23-25 | the names of two blocks of rows are the names of each, concatenated |
| `Expansion.ExplodeKeepsCells` | Dashboard.py:24 | expansion copies every other column's cells, so what holds of all of them before holds after |
| `Dashboard.InsertId` | Dashboard.py:28-29 | without an `ID` column, a first column is added whose cell in row i is the numeral of i+1, the other cells move one place right unchanged; with one, nothing changes |
| `Dashboard.IdShiftColumn` | Dashboard.py:28-29 | after numbering, the column that was at k is at k+1 with the same cells |
| `Dashboard.IdColumnIndex` | Dashboard.py:28-29 | after numbering, a column other than `ID` is found one place further right, or at the same place when the sheet already had `ID` |
| `Dashboard.IdKeepsCells` | Dashboard.py:28-29 | numbering leaves the cells themselves alone |
| `Dashboard.IdsNumberRows` | Dashboard.py:28-29 | the inserted IDs read 1..n in row order, and no two rows share one |
| `Dashboard.Selector` | Dashboard.py:35 | the selector starts with `"Todos"`, then lists strictly increasing names, exactly the names in the data |
| `Dashboard.SelectorCanonical` | Dashboard.py:35 | any strictly increasing listing of the data's names is the selector's listing |
| `Dashboard.Select` | Dashboard.py:42-47 | the kept rows are exactly the rows naming the selection, in their original order, and as many as the facilitator column holds the selected name, so no duplicate row is dropped |
| `Dashboard.SelectIdempotent` | Dashboard.py:42 | selecting twice by the same name is selecting once |
| `Dashboard.Filter` | Dashboard.py:39-42 | `"Todos"` keeps the table unchanged; any other name keeps exactly the rows naming it, as a subsequence, one kept row per occurrence of the name, with the same columns |
| `Dashboard.FilterKeepsCells` | Dashboard.py:39-42 | filtering keeps only rows of the table |
| `Dashboard.FilterIdempotent` | Dashboard.py:39-42 | filtering twice by the same selection is filtering once |
| `Dashboard.Tabulate` | Dashboard.py:67 | five counts in category order, each the number of cells holding that exact category; they add up to at most the number of cells, and to exactly that iff every cell is a category |
| `Dashboard.FirstMissing` | Dashboard.py:65-67 | the question reported missing is absent, and every question before it is present |
| `Dashboard.Distributions` | Dashboard.py:65-67 | the page fails exactly when a question column is missing, naming the first such question; otherwise question i's counts are the tabulation of that column |
| `Dashboard.Cleaned` | Dashboard.py:17-20 | the cleaned table is well formed, has one row per record, and has the stripped header as its columns, or none for an empty sheet |
| `Dashboard.Expanded` | Dashboard.py:17-29 | reading fails with `KeyError` exactly when no cleaned header is `Facilitador`, always for an empty sheet; otherwise the facilitator column is found at the position returned |
| `Dashboard.Page` | Dashboard.py:35-108 | an empty sheet fails; the selector starts with `"Todos"`; the response count is the number of rows shown; the summary exists exactly for `"Todos"`; each of the ten distributions has five counts adding up to at most the response count |
| `Form.IsoDate` | Formulario.py:82 | the workshop date is written as `YYYY-MM-DD` |
| `Form.IsoDateRoundTrip` | Formulario.py:82 | the year, month and day of a valid date read back from their fields of the written date |
| `Form.Timestamp` | Formulario.py:81 | the stamp has 19 characters, `-` at 4 and 7, a space at 10, `:` at 13 and 16, and digits elsewhere |
| `Form.TimestampRoundTrip` | Formulario.py:81 | every valid clock reading is read back exactly from its stamp |
| `Form.EncodeRow` | Formulario.py:80-85 | the row has 18 cells: timestamp, name, position, delegation, joined facilitators, date, p1..p10, positives, suggestions |
| `Form.EncodeRowRated` | Formulario.py:57-66 | every rating cell the form writes is one of the five categories |
| `Form.RosterPlain` | Formulario.py:48-49 | no roster name holds a comma or has surrounding whitespace |
| `Form.PlainFromRoster` | Formulario.py:48-49 | any roster name survives the join/split round trip |
| `Form.RosterRoundTrip` | Formulario.py:45-51 | any non-empty selection from the roster is read back by the dashboard exactly, in selection order |
| `Form.Submit` | Formulario.py:73-88 | an empty selection is rejected with the warning and the sheet unchanged; otherwise exactly one row, the encoded submission, is appended after the unchanged earlier rows, with the success message |
| `Pipeline.ExpandedOk` | Dashboard.py:17-29 | the expansion succeeds exactly when the sheet has responses and its stripped header names the facilitator column; otherwise pandas raises `KeyError` |
| `Pipeline.FacilitatorAtIndex` | Dashboard.py:23 | the facilitator column being the `k`-th stripped header and no earlier one is exactly the lookup finding it at `k` |
| `Pipeline.ExplodeNumbered` | Dashboard.py:23-29 | after splitting and numbering, the facilitator column holds the old cells' name lists one after the other, one row per name |
| `Pipeline.ExpandedColumn` | Dashboard.py:23-25 | the expanded facilitator column is the concatenated name lists of the cells, one row per name |
| `Pipeline.ExpandedColumns` | Dashboard.py:28-29 | the expanded table has the cleaned columns, with `ID` in front when there was none |
| `Pipeline.QuestionsExpanded` | Dashboard.py:28-29 | numbering adds only `ID`, so a question column is in the expanded table exactly when it is in the stripped header |
| `Pipeline.ExpandedCells` | Dashboard.py:23-29 | every non-facilitator column keeps its values through expansion and numbering |
| `Pipeline.ExpandKeepsCells` | Dashboard.py:23-29 | splitting the facilitator column and numbering the rows keep every other column's cells, at the column's new position |
| `Pipeline.PageParts` | Dashboard.py:35-67 | the page exists exactly when the expanded table has every question column; it is built from the selector, the filter and the distributions of the expanded table |
| `Pipeline.SelectionKeepsOutcome` | Dashboard.py:39-42 | whether the page can be drawn does not depend on the selection |
| `Pipeline.PageOk` | Dashboard.py:17-67 | a page is drawn exactly when the sheet has responses, a facilitator column and all ten question columns, whatever the selection |
| `Pipeline.ResponsesCountName` | Dashboard.py:42-47 | for one facilitator, the response count is how often the name occurs in the expanded column |
| `Pipeline.TotalsMatchResponses` | Dashboard.py:105-108 | each facilitator's total in the `"Todos"` summary equals the response count when that facilitator is selected |
| `Pipeline.TotalsSum` | Dashboard.py:108 | the summary has an entry for exactly the selector's names, and its totals add up to the `"Todos"` response count |
| `Pipeline.FormHeaderColumns` | Dashboard.py:51-61 | the form's header names the facilitator column and every question column |
| `Pipeline.FormSheetPage` | Dashboard.py:17-67 | a form-laid-out sheet with at least one response always yields a page |
| `Pipeline.CleanedRowsExact` | Dashboard.py:17-20 | records that fill the header exactly become the table's rows unchanged |
| `Pipeline.CleanedAppend` | Formulario.py:21-22 | appending a full-width row adds it unchanged at the end of the cleaned table |
| `Pipeline.AppendThenNames` | Formulario.py:21-22 | an appended row's facilitator names land at the end of the expanded column |
| `Pipeline.SubmitThenNames` | Formulario.py:78-87 | one accepted submission adds exactly its selected names, in order, at the end of the expanded column |
| `Pipeline.SubmitThenTotals` | Formulario.py:78-87 | after one accepted submission, each selected facilitator's total grows by one per selection, every other total stays, and the `"Todos"` count grows by the number of names |
| `Pipeline.CategoryColumnSums` | Dashboard.py:67 | when every answer under a question is a category, that question's counts add up to the response count |
| `Pipeline.FormSheetRated` | Formulario.py:80-85 | in a sheet written only by the form, every question column holds only categories |
| `Pipeline.FormSheetDistributions` | Dashboard.py:67 | in a sheet written only by the form, every question's five counts add up to the response count, for any selection |

## Left out

- The network is not modelled: Google credentials, `gspread` authorisation, opening the sheet, `get_all_records` and `append_row`. The sheet is a value, and a failed append cannot happen in the model.
- The user interface is not modelled: Streamlit widgets, titles, markdown and the table display. The selection and the form's fields are parameters.
- The QR code is not modelled (Formulario.py:28-36). It needs a foreign library and an image buffer.
- The Plotly charts, their alternation between pie and bar, and their styling are not modelled. The model keeps only the numbers they plot.
- `datetime.now()` is a parameter of `Form.Submit`.
- `Frames.Read`: `get_all_records` numericises cells (a numeric-looking name or answer becomes a number, and `.str.split` then yields NaN). The model does not do this. It also does not model duplicate or empty header names. Cells are strings, and a record is padded with empty cells or cut to the header's width.
- `Dashboard.InsertId`: the `ID` cells are decimal numerals, where pandas stores integers. Only their values matter to the properties.
- `Counting.ValueCounts`: a map, so the descending-count order `value_counts()` gives its index is not modelled. Only the bar chart's x-axis order depends on it.
- `Text.Strip`: whitespace is the six ASCII whitespace characters, both for `str.strip()` and for `\s`. Python's Unicode whitespace is not modelled.
- Day-of-month limits (such as 30 February) are not checked by `Form.ValidDate`. The date picker never produces such dates.
- `Form.Timestamp`: years are always padded to four digits. The C library may write years below 1000 unpadded, but the current clock never produces them.
- The pandas row index, and the table `st.dataframe` renders from it, is not modelled. It is display only.
- A facilitator literally named `"Todos"` cannot be selected on its own: choosing that entry shows every row (`Dashboard.Filter`). The model keeps this behaviour. The roster has no such name.

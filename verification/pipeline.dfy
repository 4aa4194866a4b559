/**
 Properties of the dashboard page as a whole, and of the form and the
 dashboard together: what the facilitator column holds after expansion,
 how the per-facilitator totals relate to the filtered views, and how one
 submission changes the page.
 */
module Pipeline {
  import opened Text
  import opened Ordering
  import opened Counting
  import opened Outcomes
  import opened Frames
  import opened Expansion
  import opened Survey
  import opened Dashboard
  import opened Form

  /** The sheet has responses and its stripped header names the facilitator
      column. */
  predicate HasFacilitators(header: seq<string>, records: seq<Row>) {
    |records| > 0 && FacilitatorColumn in StripAll(header)
  }

  /** ... and every question column as well. */
  predicate Drawable(header: seq<string>, records: seq<Row>) {
    HasFacilitators(header, records) && forall q <- Questions :: q in StripAll(header)
  }

  /** The sheet has responses and the facilitator column is the `k`-th
      header, the first one that strips to that name. */
  predicate FacilitatorAt(header: seq<string>, records: seq<Row>, k: nat) {
    && |records| > 0 && k < |header| && StripAll(header)[k] == FacilitatorColumn
    && FacilitatorColumn !in StripAll(header)[..k]
  }

  /** Dashboard.py lines 17-29 succeed exactly when the sheet has responses and a
      facilitator column; otherwise pandas raises `KeyError`. */
  lemma ExpandedOk(header: seq<string>, records: seq<Row>)
    ensures Expanded(header, records).Ok? <==> HasFacilitators(header, records)
  {
  }

  /** `FacilitatorAt` is where the table lookup finds the facilitator column. */
  lemma FacilitatorAtIndex(header: seq<string>, records: seq<Row>, k: nat)
    ensures FacilitatorAt(header, records, k)
            <==> |records| > 0 && ColumnIndex(StripAll(header), FacilitatorColumn) == Some(k)
  {
    var cols := StripAll(header);
    if FacilitatorAt(header, records, k) {
      forall j | 0 <= j < k ensures cols[j] != FacilitatorColumn {
        assert cols[..k][j] == cols[j];
      }
      ColumnIndexAt(cols, FacilitatorColumn, k);
    }
  }

  /** Splitting the column at `k` and numbering the rows: the column's new
      cells are the old cells' name lists one after the other, and there is
      one row per name. */
  lemma ExplodeNumbered(data: Frame, k: nat)
    requires WellFormed(data) && k < |data.columns|
    ensures HasColumn(data.rows, k)
    ensures var numbered := InsertId(Frame(data.columns, Explode(data.rows, k)));
            var col := if IdColumn in data.columns then k else k + 1;
            && HasColumn(numbered.rows, col)
            && Column(numbered.rows, col) == AllNames(data.rows, k)
            && |numbered.rows| == |data.rows| + Commas(data.rows, k)
  {
    assert HasColumn(data.rows, k);
    assert Width(data.rows, |data.columns|);
    ExplodeWidth(data.rows, k, |data.columns|);
    var exploded := Frame(data.columns, Explode(data.rows, k));
    ExplodedColumn(data.rows, k);
    ExplodeLength(data.rows, k);
    if IdColumn !in data.columns {
      IdShiftColumn(exploded, k);
    }
  }

  /** The expanded facilitator column is the cells' name lists one after the
      other, and there is one expanded row per name. */
  lemma ExpandedColumn(header: seq<string>, records: seq<Row>, k: nat)
    requires FacilitatorAt(header, records, k)
    ensures HasColumn(Cleaned(header, records).rows, k)
    ensures Expanded(header, records).Ok?
    ensures Column(Expanded(header, records).value.0.rows, Expanded(header, records).value.1)
            == AllNames(Cleaned(header, records).rows, k)
    ensures |Expanded(header, records).value.0.rows| == |records| + Commas(Cleaned(header, records).rows, k)
  {
    FacilitatorAtIndex(header, records, k);
    var data := Cleaned(header, records);
    ExplodeNumbered(data, k);
    var col := if IdColumn in data.columns then k else k + 1;
    assert Expanded(header, records) == Ok((InsertId(Frame(data.columns, Explode(data.rows, k))), col));
  }

  /** The page for `sel` is built from the expanded table: its selector lists
      the expanded names, its table is that table filtered by `sel`. */
  lemma PageParts(header: seq<string>, records: seq<Row>, sel: string)
    requires HasFacilitators(header, records)
    ensures Expanded(header, records).Ok?
    ensures var (data, k) := Expanded(header, records).value;
            && (Page(header, records, sel).Ok? <==> forall q <- Questions :: q in data.columns)
            && (Page(header, records, sel).Ok? ==>
                  && Page(header, records, sel).value.options == Selector(Column(data.rows, k))
                  && Page(header, records, sel).value.table == Filter(data, k, sel)
                  && Distributions(Filter(data, k, sel), Questions) == Ok(Page(header, records, sel).value.distributions)
                  && (sel == AllFacilitators ==>
                        Page(header, records, sel).value.totals == Some(ValueCounts(Column(data.rows, k)))))
  {
    ExpandedOk(header, records);
    var (data, k) := Expanded(header, records).value;
    var shown := Filter(data, k, sel);
    assert shown.columns == data.columns;
    assert Distributions(shown, Questions).Ok? <==> forall q <- Questions :: q in data.columns;
  }

  /** Whether the page can be drawn does not depend on the selection: the
      filter keeps every column. */
  lemma SelectionKeepsOutcome(header: seq<string>, records: seq<Row>, a: string, b: string)
    ensures Page(header, records, a).Ok? <==> Page(header, records, b).Ok?
  {
    ExpandedOk(header, records);
    if Expanded(header, records).Ok? {
      PageParts(header, records, a);
      PageParts(header, records, b);
    }
  }

  /** A page is drawn exactly when the sheet has responses, a facilitator
      column and all ten question columns, whatever the selection. */
  lemma PageOk(header: seq<string>, records: seq<Row>, sel: string)
    ensures Page(header, records, sel).Ok? <==> Drawable(header, records)
  {
    ExpandedOk(header, records);
    if HasFacilitators(header, records) {
      PageParts(header, records, sel);
      QuestionsExpanded(header, records);
    }
  }

  /** Numbering adds only the `ID` column, so a question column is in the
      expanded table exactly when it is in the stripped header. */
  lemma QuestionsExpanded(header: seq<string>, records: seq<Row>)
    requires HasFacilitators(header, records)
    ensures Expanded(header, records).Ok?
    ensures forall q <- Questions :: q in Expanded(header, records).value.0.columns <==> q in StripAll(header)
  {
    ExpandedColumns(header, records);
    QuestionsAreNotKeys();
    var cleaned := Cleaned(header, records).columns;
    assert cleaned == StripAll(header);
    forall q <- Questions ensures q in Expanded(header, records).value.0.columns <==> q in cleaned {
      NumberedHasName(cleaned, q);
    }
  }

  /** A name other than `ID` is among the numbered columns exactly when it is
      among the columns before numbering. */
  lemma NumberedHasName(columns: seq<string>, name: string)
    requires name != IdColumn
    ensures name in (if IdColumn in columns then columns else [IdColumn] + columns) <==> name in columns
  {
  }

  /** For a single facilitator, the response count is the number of times
      the name occurs in the expanded facilitator column. */
  lemma ResponsesCountName(header: seq<string>, records: seq<Row>, name: string)
    requires name != AllFacilitators
    requires Drawable(header, records)
    ensures Page(header, records, name).Ok? && Expanded(header, records).Ok?
    ensures Page(header, records, name).value.responses
            == Count(Column(Expanded(header, records).value.0.rows, Expanded(header, records).value.1), name)
  {
    PageOk(header, records, name);
    PageParts(header, records, name);
    var (data, k) := Expanded(header, records).value;
  }

  /** Dashboard.py lines 42-47 and 108: the "Todos" summary shows each facilitator with
      exactly the response count the page reports when that facilitator is
      selected, zero for a name without evaluations. */
  lemma TotalsMatchResponses(header: seq<string>, records: seq<Row>, name: string)
    requires Drawable(header, records)
    requires name != AllFacilitators
    ensures Page(header, records, AllFacilitators).Ok? && Page(header, records, name).Ok?
    ensures Page(header, records, AllFacilitators).value.totals.Some?
    ensures Page(header, records, name).value.responses
            == Total(Page(header, records, AllFacilitators).value.totals.value, name)
  {
    PageOk(header, records, AllFacilitators);
    PageParts(header, records, AllFacilitators);
    var (data, k) := Expanded(header, records).value;
    ResponsesCountName(header, records, name);
    TotalValueCounts(Column(data.rows, k), name);
  }

  /** Dashboard.py line 108: the summary's bars, read off in selector order, add up to
      the number of expanded rows, which is the "Todos" response count; and
      the summary has a bar for exactly the names the selector offers. */
  lemma TotalsSum(header: seq<string>, records: seq<Row>)
    requires Drawable(header, records)
    ensures Page(header, records, AllFacilitators).Ok?
    ensures var report := Page(header, records, AllFacilitators).value;
            && report.totals.Some?
            && (forall n :: n in report.totals.value <==> n in report.options[1..])
            && Sum(Reindex(report.totals.value, report.options[1..])) == report.responses
  {
    PageOk(header, records, AllFacilitators);
    PageParts(header, records, AllFacilitators);
    var (data, k) := Expanded(header, records).value;
    var names := Column(data.rows, k);
    var listed := Selector(names)[1..];
    assert Distinct(listed) by {
      forall i, j | 0 <= i < j < |listed| ensures listed[i] != listed[j] {
        SortedNoDuplicates(listed, i, j);
      }
    }
    SumReindex(names, listed);
    SumCountsIsCountIn(listed, names);
  }

  /** The expanded table keeps the cleaned table's columns, with `ID` put in
      front when the sheet has none. */
  lemma ExpandedColumns(header: seq<string>, records: seq<Row>)
    requires HasFacilitators(header, records)
    ensures Expanded(header, records).Ok?
    ensures var data := Expanded(header, records).value.0;
            var cleaned := Cleaned(header, records).columns;
            data.columns == if IdColumn in cleaned then cleaned else [IdColumn] + cleaned
  {
    ExpandedOk(header, records);
  }

  /** The form's header names every column the dashboard reads. */
  lemma FormHeaderColumns(header: seq<string>)
    requires FormHeader(header)
    ensures FacilitatorColumn in StripAll(header)
    ensures forall q <- Questions :: q in StripAll(header)
  {
    var cleaned := StripAll(header);
    forall q <- Questions ensures q in cleaned {
      var i :| 0 <= i < |Questions| && Questions[i] == q;
      assert ColumnIndex(cleaned, Questions[i]).Some?;
    }
  }

  /** A sheet with the form's header and at least one response always yields
      a page, whatever the selection. */
  lemma FormSheetPage(header: seq<string>, records: seq<Row>, sel: string)
    requires FormHeader(header) && |records| > 0
    ensures Page(header, records, sel).Ok?
  {
    FormHeaderColumns(header);
    PageOk(header, records, sel);
  }

  /** The rows of the cleaned table gain the appended row as it is, when it
      fills the header exactly. */
  lemma CleanedAppend(header: seq<string>, records: seq<Row>, row: Row)
    requires |records| > 0 && |row| == |header|
    ensures Cleaned(header, records + [row]).columns == Cleaned(header, records).columns
    ensures Cleaned(header, records + [row]).rows == Cleaned(header, records).rows + [row]
  {
    var before := Cleaned(header, records).rows;
    var after := Cleaned(header, records + [row]).rows;
    assert Fit(row, |header|) == row;
    forall i | 0 <= i < |records| ensures after[i] == before[i] {
      assert (records + [row])[i] == records[i];
    }
    assert (records + [row])[|records|] == row;
  }

  /** Appending a full-width row adds the names of its facilitator cell at
      the end of the expanded facilitator column. */
  lemma AppendThenNames(header: seq<string>, records: seq<Row>, row: Row, k: nat)
    requires FacilitatorAt(header, records, k) && |row| == |header|
    ensures Expanded(header, records).Ok? && Expanded(header, records + [row]).Ok?
    ensures var (before, c) := Expanded(header, records).value;
            var (after, c') := Expanded(header, records + [row]).value;
            k < |row| && Column(after.rows, c') == Column(before.rows, c) + Names(row[k])
  {
    CleanedAppend(header, records, row);
    var rows := Cleaned(header, records).rows;
    assert FacilitatorAt(header, records + [row], k);
    ExpandedColumn(header, records, k);
    ExpandedColumn(header, records + [row], k);
    var single: seq<Row> := [row];
    AllNamesAppend(rows, single, k);
    assert AllNames(single, k) == Names(row[k]) by {
      assert single[1..] == [];
    }
  }

  /** One accepted submission of plain names adds exactly those names, in
      selection order, at the end of the expanded facilitator column. */
  lemma SubmitThenNames(header: seq<string>, records: seq<Row>, s: Submission, now: DateTime)
    requires |header| == 18 && FacilitatorAt(header, records, 4)
    requires WellFormedSubmission(s) && |s.facilitators| > 0
    requires forall i :: 0 <= i < |s.facilitators| ==> PlainName(s.facilitators[i])
    ensures Expanded(header, records).Ok? && Expanded(header, records + [EncodeRow(s, now)]).Ok?
    ensures var (before, k) := Expanded(header, records).value;
            var (after, k') := Expanded(header, records + [EncodeRow(s, now)]).value;
            Column(after.rows, k') == Column(before.rows, k) + s.facilitators
  {
    var row := EncodeRow(s, now);
    AppendThenNames(header, records, row, 4);
    NamesJoin(s.facilitators);
  }

  /** Formulario.py lines 78 and 87 with Dashboard.py line 108: after one accepted submission of plain
      names, the "Todos" summary counts each selected facilitator once more
      and every other name as before, and the response count grows by the
      number of names selected. */
  lemma SubmitThenTotals(header: seq<string>, records: seq<Row>, s: Submission, now: DateTime)
    requires FormHeader(header) && |records| > 0
    requires WellFormedSubmission(s) && |s.facilitators| > 0
    requires forall i :: 0 <= i < |s.facilitators| ==> PlainName(s.facilitators[i])
    ensures Page(header, records, AllFacilitators).Ok?
    ensures Page(header, records + [EncodeRow(s, now)], AllFacilitators).Ok?
    ensures var before := Page(header, records, AllFacilitators).value;
            var after := Page(header, records + [EncodeRow(s, now)], AllFacilitators).value;
            && before.totals.Some? && after.totals.Some?
            && after.responses == before.responses + |s.facilitators|
            && forall n :: Total(after.totals.value, n) == Total(before.totals.value, n) + Count(s.facilitators, n)
  {
    var more := records + [EncodeRow(s, now)];
    FacilitatorAtIndex(header, records, 4);
    FormSheetPage(header, records, AllFacilitators);
    FormSheetPage(header, more, AllFacilitators);
    SubmitThenNames(header, records, s, now);
    PageParts(header, records, AllFacilitators);
    PageParts(header, more, AllFacilitators);
    var (before, k) := Expanded(header, records).value;
    var (after, k') := Expanded(header, more).value;
    var namesBefore := Column(before.rows, k);
    var namesAfter := Column(after.rows, k');
    forall n ensures Total(ValueCounts(namesAfter), n) == Total(ValueCounts(namesBefore), n) + Count(s.facilitators, n) {
      TotalValueCounts(namesAfter, n);
      TotalValueCounts(namesBefore, n);
      CountAppend(namesBefore, s.facilitators, n);
    }
  }

  /** Splitting the column at `k` and numbering the rows keep every other
      column's cells: what holds of all values under one heading still
      holds. */
  lemma ExpandKeepsCells(cleaned: Frame, k: nat, name: string, allowed: seq<string>)
    requires WellFormed(cleaned)
    requires ColumnIndex(cleaned.columns, FacilitatorColumn) == Some(k)
    requires name != FacilitatorColumn && name != IdColumn
    requires Lookup(cleaned, name).Some?
    requires forall x <- Lookup(cleaned, name).value :: x in allowed
    ensures HasColumn(cleaned.rows, k)
    ensures var data := InsertId(Frame(cleaned.columns, Explode(cleaned.rows, k)));
            && ColumnIndex(data.columns, name).Some?
            && forall row <- data.rows :: ColumnIndex(data.columns, name).value < |row|
                                        && row[ColumnIndex(data.columns, name).value] in allowed
  {
    var q := ColumnIndex(cleaned.columns, name).value;
    LookupCells(cleaned, name, q, allowed);
    ExplodeKeepsCells(cleaned.rows, k, q, allowed);
    var exploded := Frame(cleaned.columns, Explode(cleaned.rows, k));
    IdKeepsCells(exploded, q, allowed);
    IdColumnIndex(exploded, name, q);
  }

  /** The expanded table keeps every column other than the facilitator's
      as it was. */
  lemma ExpandedCells(header: seq<string>, records: seq<Row>, name: string, allowed: seq<string>)
    requires HasFacilitators(header, records)
    requires name != FacilitatorColumn && name != IdColumn
    requires Lookup(Cleaned(header, records), name).Some?
    requires forall x <- Lookup(Cleaned(header, records), name).value :: x in allowed
    ensures Expanded(header, records).Ok?
    ensures var data := Expanded(header, records).value.0;
            && ColumnIndex(data.columns, name).Some?
            && forall row <- data.rows :: ColumnIndex(data.columns, name).value < |row|
                                        && row[ColumnIndex(data.columns, name).value] in allowed
  {
    ExpandedOk(header, records);
    var cleaned := Cleaned(header, records);
    var k := ColumnIndex(cleaned.columns, FacilitatorColumn).value;
    ExpandKeepsCells(cleaned, k, name, allowed);
    assert Expanded(header, records).value.0 == InsertId(Frame(cleaned.columns, Explode(cleaned.rows, k)));
  }

  /** Dashboard.py line 67 over the whole pipeline: when every answer the sheet holds for
      question `i` is one of the five categories, that question's counts add
      up to the response count, for any selection. */
  lemma CategoryColumnSums(header: seq<string>, records: seq<Row>, sel: string, i: nat)
    requires Drawable(header, records) && i < |Questions|
    requires Lookup(Cleaned(header, records), Questions[i]).Some?
    requires forall x <- Lookup(Cleaned(header, records), Questions[i]).value :: x in Categories
    ensures Page(header, records, sel).Ok?
    ensures Sum(Page(header, records, sel).value.distributions[i]) == Page(header, records, sel).value.responses
  {
    PageOk(header, records, sel);
    var question := Questions[i];
    QuestionsAreNotKeys();
    assert question in Questions;
    ExpandedCells(header, records, question, Categories);
    var (data, col) := Expanded(header, records).value;
    var q := ColumnIndex(data.columns, question).value;
    PageParts(header, records, sel);
    var shown := Filter(data, col, sel);
    FilterKeepsCells(data, col, sel, q, Categories);
    LookupCells(shown, question, q, Categories);
    var cells := Lookup(shown, question).value;
    assert Page(header, records, sel).value.distributions[i] == Tabulate(cells);
    assert Sum(Tabulate(cells)) == |cells| == |shown.rows|;
  }

  /** A cleaned form sheet holds, under each question, only answer
      categories, when every row in it was written by the form. */
  lemma FormSheetRated(header: seq<string>, records: seq<Row>, i: nat)
    requires FormHeader(header) && |records| > 0 && i < |Questions|
    requires forall row <- records :: RatedRow(row)
    ensures Lookup(Cleaned(header, records), Questions[i]).Some?
    ensures forall x <- Lookup(Cleaned(header, records), Questions[i]).value :: x in Categories
  {
    var cleaned := Cleaned(header, records);
    var q := RatingsStart + i;
    assert ColumnIndex(cleaned.columns, Questions[i]) == Some(q);
    CleanedRowsExact(header, records);
    forall row <- cleaned.rows ensures row[q] in Categories {
      assert RatedRow(row);
    }
    LookupCells(cleaned, Questions[i], q, Categories);
  }

  /** Records that fill the header exactly are read as they are. */
  lemma CleanedRowsExact(header: seq<string>, records: seq<Row>)
    requires forall row <- records :: |row| == |header|
    ensures Cleaned(header, records).rows == records
  {
    var rows := Cleaned(header, records).rows;
    forall j | 0 <= j < |records| ensures rows[j] == records[j] {
      assert records[j] in records;
    }
  }

  /** For a sheet written only by the form, every question's five counts add
      up to the response count shown, whatever the selection: each expanded
      row is counted exactly once per question. */
  lemma FormSheetDistributions(header: seq<string>, records: seq<Row>, sel: string)
    requires FormHeader(header) && |records| > 0
    requires forall row <- records :: RatedRow(row)
    ensures Page(header, records, sel).Ok?
    ensures forall i :: 0 <= i < |Questions| ==>
              Sum(Page(header, records, sel).value.distributions[i]) == Page(header, records, sel).value.responses
  {
    FormSheetPage(header, records, sel);
    FormHeaderColumns(header);
    forall i | 0 <= i < |Questions|
      ensures Sum(Page(header, records, sel).value.distributions[i]) == Page(header, records, sel).value.responses
    {
      FormSheetRated(header, records, i);
      CategoryColumnSums(header, records, sel, i);
    }
  }
}

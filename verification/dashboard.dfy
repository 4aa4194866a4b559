/**
 The dashboard's data pipeline: read the sheet, clean the headers, expand
 the facilitator column, number the rows, build the selector, filter by the
 selected facilitator, count each question's answers per category, and,
 for "Todos", count the evaluations per facilitator.
 */
module Dashboard {
  import opened Text
  import opened Digits
  import opened Ordering
  import opened Counting
  import opened Outcomes
  import opened Frames
  import opened Expansion
  import opened Survey

  /** `data.insert(0, "ID", range(1, 1 + len(data)))` when there is no `ID`
      column yet: a first column numbering the rows; otherwise nothing. */
  function InsertId(f: Frame): (r: Frame)
    ensures IdColumn in f.columns ==> r == f
    ensures IdColumn !in f.columns ==>
              r.columns == [IdColumn] + f.columns && |r.rows| == |f.rows|
              && forall i :: 0 <= i < |r.rows| ==>
                   |r.rows[i]| == 1 + |f.rows[i]| && r.rows[i][0] == Decimal(i + 1) && r.rows[i][1..] == f.rows[i]
    ensures WellFormed(f) ==> WellFormed(r)
  {
    if IdColumn in f.columns then f
    else
      var rows := seq(|f.rows|, i requires 0 <= i < |f.rows| => [Decimal(i + 1)] + f.rows[i]);
      assert forall i :: 0 <= i < |rows| ==> rows[i][1..] == f.rows[i];
      Frame([IdColumn] + f.columns, rows)
  }

  /** Without an `ID` column, every existing column moves one place right
      and keeps its cells. */
  lemma IdShiftColumn(f: Frame, k: nat)
    requires IdColumn !in f.columns && HasColumn(f.rows, k)
    ensures HasColumn(InsertId(f).rows, k + 1)
    ensures Column(InsertId(f).rows, k + 1) == Column(f.rows, k)
  {
    var r := InsertId(f);
    forall row <- r.rows ensures k + 1 < |row| {
      var i :| 0 <= i < |r.rows| && r.rows[i] == row;
      assert f.rows[i] in f.rows;
    }
    forall i | 0 <= i < |r.rows| ensures r.rows[i][k + 1] == f.rows[i][k] {
      assert f.rows[i] in f.rows;
      assert r.rows[i][1..][k] == r.rows[i][k + 1];
    }
  }

  /** Numbering the rows moves every other column's name one place right
      when it adds the `ID` column. */
  lemma IdColumnIndex(f: Frame, name: string, c: nat)
    requires name != IdColumn && ColumnIndex(f.columns, name) == Some(c)
    ensures ColumnIndex(InsertId(f).columns, name) == Some(if IdColumn in f.columns then c else c + 1)
  {
    ColumnIndexShift(IdColumn, f.columns, name);
  }

  /** Numbering the rows moves column `c` one place right when it adds the
      `ID` column, and leaves the cells themselves alone. */
  lemma IdKeepsCells(f: Frame, c: nat, allowed: seq<string>)
    requires forall row <- f.rows :: c < |row| && row[c] in allowed
    ensures var c' := if IdColumn in f.columns then c else c + 1;
            forall row <- InsertId(f).rows :: c' < |row| && row[c'] in allowed
  {
    if IdColumn !in f.columns {
      var r := InsertId(f);
      forall row <- r.rows ensures c + 1 < |row| && row[c + 1] in allowed {
        var i :| 0 <= i < |r.rows| && r.rows[i] == row;
        assert f.rows[i] in f.rows;
        assert r.rows[i][1..][c] == r.rows[i][c + 1];
      }
    }
  }

  /** The inserted IDs read as 1, 2, ..., n, in row order; so no two rows
      share one. */
  lemma IdsNumberRows(f: Frame, i: nat, j: nat)
    requires IdColumn !in f.columns
    requires i < |f.rows| && j < |f.rows|
    ensures AllDigits(InsertId(f).rows[i][0])
    ensures ParseDigits(InsertId(f).rows[i][0]) == i + 1
    ensures i != j ==> InsertId(f).rows[i][0] != InsertId(f).rows[j][0]
  {
    DecimalRoundTrip(i + 1);
    if Decimal(i + 1) == Decimal(j + 1) {
      DecimalInjective(i + 1, j + 1);
    }
  }

  /** `["Todos"] + sorted(data["Facilitador"].unique().tolist())`. */
  function Selector(names: seq<string>): (r: seq<string>)
    ensures |r| >= 1 && r[0] == AllFacilitators
    ensures StrictlySorted(r[1..])
    ensures forall n :: n in r[1..] <==> n in names
  {
    var sorted := SortedDistinct(names);
    assert ([AllFacilitators] + sorted)[1..] == sorted;
    [AllFacilitators] + sorted
  }

  /** The selector's names are the only increasing, duplicate-free listing of
      the names in the data. */
  lemma SelectorCanonical(names: seq<string>, listing: seq<string>)
    requires StrictlySorted(listing)
    requires forall n :: n in listing <==> n in names
    ensures Selector(names)[1..] == listing
  {
    SortedUnique(Selector(names)[1..], listing);
  }

  /** `a` is `b` with some rows left out, the rest in their original order. */
  predicate IsSubsequence(a: seq<Row>, b: seq<Row>)
    decreases |b|
  {
    if |a| == 0 then true
    else if |b| == 0 then false
    else if a[0] == b[0] then IsSubsequence(a[1..], b[1..])
    else IsSubsequence(a, b[1..])
  }

  /** `rows[rows[k] == sel]`: the rows whose cell at `k` is exactly `sel`. */
  function Select(rows: seq<Row>, k: nat, sel: string): (r: seq<Row>)
    requires HasColumn(rows, k)
    ensures HasColumn(r, k)
    ensures forall row <- r :: row[k] == sel && row in rows
    ensures forall row <- rows :: row[k] == sel ==> row in r
    ensures IsSubsequence(r, rows)
    ensures |r| == Count(Column(rows, k), sel)
  {
    if |rows| == 0 then []
    else
      var rest := Select(rows[1..], k, sel);
      assert forall row <- rows :: row == rows[0] || row in rows[1..];
      assert Column(rows, k)[1..] == Column(rows[1..], k);
      if rows[0][k] == sel then
        assert ([rows[0]] + rest)[1..] == rest;
        [rows[0]] + rest
      else rest
  }

  /** Filtering again by the same name keeps every row. */
  lemma {:induction false} SelectIdempotent(rows: seq<Row>, k: nat, sel: string)
    requires HasColumn(rows, k)
    ensures Select(Select(rows, k, sel), k, sel) == Select(rows, k, sel)
  {
    if |rows| > 0 {
      SelectIdempotent(rows[1..], k, sel);
      if rows[0][k] == sel {
        var rest := Select(rows[1..], k, sel);
        assert ([rows[0]] + rest)[1..] == rest;
      }
    }
  }

  /** Dashboard.py lines 39-42: "Todos" keeps the whole table, any other selection keeps
      exactly the rows naming it, in their original order. */
  function Filter(f: Frame, k: nat, sel: string): (r: Frame)
    requires HasColumn(f.rows, k)
    ensures r.columns == f.columns && HasColumn(r.rows, k)
    ensures WellFormed(f) ==> WellFormed(r)
    ensures sel == AllFacilitators ==> r == f
    ensures sel != AllFacilitators ==>
              && (forall row <- r.rows :: row[k] == sel)
              && (forall row <- f.rows :: row[k] == sel ==> row in r.rows)
              && IsSubsequence(r.rows, f.rows)
              && |r.rows| == Count(Column(f.rows, k), sel)
  {
    if sel == AllFacilitators then f else Frame(f.columns, Select(f.rows, k, sel))
  }

  /** Filtering keeps only rows of the table, so what holds of every cell at
      a position still holds after. */
  lemma FilterKeepsCells(f: Frame, k: nat, sel: string, c: nat, allowed: seq<string>)
    requires HasColumn(f.rows, k)
    requires forall row <- f.rows :: c < |row| && row[c] in allowed
    ensures forall row <- Filter(f, k, sel).rows :: c < |row| && row[c] in allowed
  {
  }

  /** Filtering twice by the same selection is filtering once. */
  lemma FilterIdempotent(f: Frame, k: nat, sel: string)
    requires HasColumn(f.rows, k)
    ensures Filter(Filter(f, k, sel), k, sel) == Filter(f, k, sel)
  {
    if sel != AllFacilitators {
      SelectIdempotent(f.rows, k, sel);
    }
  }

  /** Dashboard.py line 67: `column.value_counts().reindex(Categories, fill_value=0)`.
      Entry `c` is the number of cells holding exactly category `c`; other
      values are counted nowhere, so the counts add up to at most the number
      of cells, and to exactly that when every cell is a category. */
  function Tabulate(cells: seq<string>): (d: seq<nat>)
    ensures |d| == |Categories|
    ensures forall c :: 0 <= c < |Categories| ==> d[c] == Count(cells, Categories[c])
    ensures Sum(d) <= |cells|
    ensures Sum(d) == |cells| <==> forall x <- cells :: x in Categories
  {
    DistributionCounts(cells, Categories);
    OptionsInCategoryOrder();
    DistributionSum(cells, Categories);
    Reindex(ValueCounts(cells), Categories)
  }

  /** Position of the first name in `wanted` that is not among `columns`. */
  function FirstMissing(columns: seq<string>, wanted: seq<string>): (j: nat)
    requires exists q <- wanted :: q !in columns
    ensures j < |wanted| && wanted[j] !in columns
    ensures forall q <- wanted[..j] :: q in columns
  {
    if wanted[0] !in columns then 0
    else
      assert exists q <- wanted[1..] :: q !in columns by {
        var q :| q in wanted && q !in columns;
        assert q != wanted[0];
      }
      var j := FirstMissing(columns, wanted[1..]) + 1;
      assert wanted[..j] == [wanted[0]] + wanted[1..][..j - 1];
      j
  }

  /** Dashboard.py lines 65-67: the question columns, one distribution each, in order;
      the first question whose column is missing fails with `KeyError`. */
  function Distributions(f: Frame, questions: seq<string>): (r: Result<seq<seq<nat>>>)
    requires WellFormed(f)
    ensures r.Ok? <==> forall q <- questions :: q in f.columns
    ensures r.Err? ==> exists j :: 0 <= j < |questions| && r.error == MissingColumn(questions[j])
                                   && questions[j] !in f.columns
                                   && forall q <- questions[..j] :: q in f.columns
    ensures r.Ok? ==> |r.value| == |questions|
    ensures r.Ok? ==> forall i :: 0 <= i < |questions| ==>
              |r.value[i]| == |Categories| && Sum(r.value[i]) <= |f.rows|
    ensures r.Ok? ==> forall i :: 0 <= i < |questions| ==>
              Lookup(f, questions[i]).Some? && r.value[i] == Tabulate(Lookup(f, questions[i]).value)
  {
    if forall q <- questions :: q in f.columns then
      Ok(seq(|questions|, i requires 0 <= i < |questions| => Tabulate(Lookup(f, questions[i]).value)))
    else
      Err(MissingColumn(questions[FirstMissing(f.columns, questions)]))
  }

  /** Everything the dashboard shows for one selection. */
  datatype Report = Report(
    options: seq<string>,          // the selector's entries
    table: Frame,                  // the rows shown for the selection
    responses: nat,                // "Total de respuestas recibidas"
    distributions: seq<seq<nat>>,  // one per question, in question order
    totals: Option<map<string, nat>>) // evaluations per facilitator, for "Todos" only

  /** Dashboard.py lines 17-20: the sheet read into a table and its headers stripped. */
  function Cleaned(header: seq<string>, records: seq<Row>): (f: Frame)
    ensures WellFormed(f) && |f.rows| == |records|
    ensures f.columns == if |records| == 0 then [] else StripAll(header)
  {
    CleanHeaders(Read(header, records))
  }

  /** Dashboard.py lines 17-29: the cleaned table with its facilitator column split,
      exploded and stripped, and the rows numbered. Also gives the position
      of the facilitator column. */
  function Expanded(header: seq<string>, records: seq<Row>): (r: Result<(Frame, nat)>)
    ensures r.Err? <==> FacilitatorColumn !in Cleaned(header, records).columns
    ensures r.Err? ==> r.error == MissingColumn(FacilitatorColumn)
    ensures |records| == 0 ==> r.Err?
    ensures r.Ok? ==> WellFormed(r.value.0) && r.value.1 < |r.value.0.columns|
                      && ColumnIndex(r.value.0.columns, FacilitatorColumn) == Some(r.value.1)
                      && HasColumn(r.value.0.rows, r.value.1)
  {
    var data := Cleaned(header, records);
    match ColumnIndex(data.columns, FacilitatorColumn)
    case None => Err(MissingColumn(FacilitatorColumn))
    case Some(k) =>
      assert Width(data.rows, |data.columns|);
      ExplodeWidth(data.rows, k, |data.columns|);
      var exploded := Frame(data.columns, Explode(data.rows, k));
      assert WellFormed(exploded);
      var numbered := InsertId(exploded);
      ColumnIndexShift(IdColumn, data.columns, FacilitatorColumn);
      var col := if IdColumn in data.columns then k else k + 1;
      Ok((numbered, col))
  }

  /** The whole page for one selection of the selector. */
  function Page(header: seq<string>, records: seq<Row>, selection: string): (r: Result<Report>)
    ensures |records| == 0 ==> r == Err(MissingColumn(FacilitatorColumn))
    ensures r.Ok? ==> |r.value.options| >= 1 && r.value.options[0] == AllFacilitators
    ensures r.Ok? ==> r.value.responses == |r.value.table.rows|
    ensures r.Ok? ==> (r.value.totals.Some? <==> selection == AllFacilitators)
    ensures r.Ok? ==> |r.value.distributions| == |Questions|
    ensures r.Ok? ==> forall i :: 0 <= i < |Questions| ==>
              |r.value.distributions[i]| == |Categories|
              && Sum(r.value.distributions[i]) <= r.value.responses
  {
    match Expanded(header, records)
    case Err(e) => Err(e)
    case Ok((data, k)) =>
      var names := Column(data.rows, k);
      var shown := Filter(data, k, selection);
      match Distributions(shown, Questions)
      case Err(e) => Err(e)
      case Ok(ds) =>
        Ok(Report(Selector(names), shown, |shown.rows|, ds,
                  if selection == AllFacilitators then Some(ValueCounts(names)) else None))
  }
}

/**
 The dashboard's table: named columns over rows of text cells, as built from
 the sheet's records, with column lookup by name and header cleaning.
 */
module Frames {
  import opened Text
  import opened Outcomes

  type Row = seq<string>

  datatype Frame = Frame(columns: seq<string>, rows: seq<Row>)

  /** Every row has one cell per column. */
  predicate WellFormed(f: Frame) {
    forall row <- f.rows :: |row| == |f.columns|
  }

  /** Every row has a cell at position `k`. */
  predicate HasColumn(rows: seq<Row>, k: nat) {
    forall row <- rows :: k < |row|
  }

  /** The cells at position `k`, top to bottom. */
  function Column(rows: seq<Row>, k: nat): (c: seq<string>)
    requires HasColumn(rows, k)
    ensures |c| == |rows|
    ensures forall i :: 0 <= i < |rows| ==> c[i] == rows[i][k]
  {
    seq(|rows|, i requires 0 <= i < |rows| => rows[i][k])
  }

  lemma ColumnAppend(a: seq<Row>, b: seq<Row>, k: nat)
    requires HasColumn(a, k) && HasColumn(b, k)
    ensures HasColumn(a + b, k)
    ensures Column(a + b, k) == Column(a, k) + Column(b, k)
  {
  }

  /** A sheet row brought to the header's width: missing trailing cells read
      as empty, cells beyond the header are not read. */
  function Fit(row: Row, width: nat): (r: Row)
    ensures |r| == width
    ensures forall i :: 0 <= i < width ==> r[i] == (if i < |row| then row[i] else "")
  {
    if |row| >= width then row[..width] else row + seq(width - |row|, _ => "")
  }

  /** `pd.DataFrame(sheet.get_all_records())`: one row per record under the
      header's names. With no records the frame has no columns at all. */
  function Read(header: seq<string>, records: seq<Row>): (f: Frame)
    ensures WellFormed(f)
    ensures |f.rows| == |records|
    ensures |records| == 0 ==> f.columns == []
    ensures |records| > 0 ==> f.columns == header
    ensures forall i :: 0 <= i < |records| ==> f.rows[i] == Fit(records[i], |header|)
  {
    if |records| == 0 then Frame([], [])
    else Frame(header, seq(|records|, i requires 0 <= i < |records| => Fit(records[i], |header|)))
  }

  /** Every name stripped, in place. */
  function StripAll(names: seq<string>): (r: seq<string>)
    ensures |r| == |names|
    ensures forall i :: 0 <= i < |r| ==> IsStripped(r[i]) && r[i] == Strip(names[i])
  {
    seq(|names|, i requires 0 <= i < |names| => Strip(names[i]))
  }

  /** `data.columns.map(str).str.strip()`: every column name loses its
      surrounding whitespace; the cells are untouched. */
  function CleanHeaders(f: Frame): (r: Frame)
    ensures r.rows == f.rows
    ensures r.columns == StripAll(f.columns)
    ensures WellFormed(f) ==> WellFormed(r)
  {
    Frame(StripAll(f.columns), f.rows)
  }

  /** Cleaning the headers a second time changes nothing. */
  lemma CleanHeadersIdempotent(f: Frame)
    ensures CleanHeaders(CleanHeaders(f)) == CleanHeaders(f)
  {
    var once := CleanHeaders(f);
    forall i | 0 <= i < |once.columns|
      ensures Strip(once.columns[i]) == once.columns[i]
    {
      StripFixedPoint(once.columns[i]);
    }
  }

  /** A stripped header is left alone by a second strip, so cleaning names
      that are already clean changes nothing. */
  lemma StripAllClean(names: seq<string>)
    requires forall i :: 0 <= i < |names| ==> IsStripped(names[i])
    ensures StripAll(names) == names
  {
    forall i | 0 <= i < |names|
      ensures Strip(names[i]) == names[i]
    {
      StripFixedPoint(names[i]);
    }
  }

  /** Position of the first column called `name`, if any. */
  function ColumnIndex(columns: seq<string>, name: string): (r: Option<nat>)
    ensures r.None? <==> name !in columns
    ensures r.Some? ==> r.value < |columns| && columns[r.value] == name
                        && forall j :: 0 <= j < r.value ==> columns[j] != name
  {
    if |columns| == 0 then None
    else if columns[0] == name then Some(0)
    else match ColumnIndex(columns[1..], name)
      case None => None
      case Some(i) => Some(i + 1)
  }

  /** The converse: a name found at `k` and at no earlier position is first
      found at `k`. */
  lemma ColumnIndexAt(columns: seq<string>, name: string, k: nat)
    requires k < |columns| && columns[k] == name
    requires forall j :: 0 <= j < k ==> columns[j] != name
    ensures ColumnIndex(columns, name) == Some(k)
  {
    assert columns[k] in columns;
  }

  /** A column put in front shifts every later column's position by one. */
  lemma ColumnIndexShift(first: string, columns: seq<string>, name: string)
    requires name != first
    ensures ColumnIndex([first] + columns, name).None? <==> ColumnIndex(columns, name).None?
    ensures ColumnIndex(columns, name).Some? ==>
              ColumnIndex([first] + columns, name) == Some(ColumnIndex(columns, name).value + 1)
  {
    assert ([first] + columns)[1..] == columns;
  }

  /** `f[name]`: the cells of the first column called `name`, top to bottom,
      or nothing when no column has that name (pandas raises `KeyError`). */
  function Lookup(f: Frame, name: string): (r: Option<seq<string>>)
    requires WellFormed(f)
    ensures r.None? <==> name !in f.columns
    ensures r.Some? ==> ColumnIndex(f.columns, name).Some? && |r.value| == |f.rows|
    ensures r.Some? ==> forall i :: 0 <= i < |f.rows| ==>
              r.value[i] == f.rows[i][ColumnIndex(f.columns, name).value]
  {
    match ColumnIndex(f.columns, name)
    case None => None
    case Some(k) => Some(Column(f.rows, k))
  }

  /** A property holds of every value the lookup returns exactly when it
      holds of every row's cell at the column's position. */
  lemma LookupCells(f: Frame, name: string, c: nat, allowed: seq<string>)
    requires WellFormed(f) && ColumnIndex(f.columns, name) == Some(c)
    ensures Lookup(f, name).Some? && HasColumn(f.rows, c)
    ensures (forall x <- Lookup(f, name).value :: x in allowed) <==> (forall row <- f.rows :: row[c] in allowed)
  {
    var cells := Lookup(f, name).value;
    if forall row <- f.rows :: row[c] in allowed {
      forall x <- cells ensures x in allowed {
        var j :| 0 <= j < |cells| && cells[j] == x;
        assert f.rows[j] in f.rows;
      }
    }
    if forall x <- cells :: x in allowed {
      forall row <- f.rows ensures row[c] in allowed {
        var j :| 0 <= j < |f.rows| && f.rows[j] == row;
        assert cells[j] in cells;
      }
    }
  }
}

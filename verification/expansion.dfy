/**
 The dashboard's expansion of multi-facilitator rows: the facilitator cell
 is split on `,\s*`, the row is repeated once per piece (pandas `explode`),
 and each piece is stripped.
 */
module Expansion {
  import opened Text
  import opened Counting
  import opened Frames

  /** The rows one source row expands to: one per piece of its cell at `k`,
      in split order, each a copy of the row with that cell replaced by the
      stripped piece. */
  function ExplodeRow(row: Row, k: nat): (r: seq<Row>)
    requires k < |row|
    ensures |r| == Count(row[k], ',') + 1 == |Names(row[k])|
    ensures forall j :: 0 <= j < |r| ==> |r[j]| == |row| && r[j][k] == Names(row[k])[j]
    ensures forall j, c :: 0 <= j < |r| && 0 <= c < |row| && c != k ==> r[j][c] == row[c]
  {
    SplitLength(row[k]);
    var names := Names(row[k]);
    seq(|names|, j requires 0 <= j < |names| => row[k := names[j]])
  }

  /** Total number of commas in the cells at `k`. */
  function Commas(rows: seq<Row>, k: nat): nat
    requires HasColumn(rows, k)
  {
    if |rows| == 0 then 0 else Count(rows[0][k], ',') + Commas(rows[1..], k)
  }

  /** Every row has exactly `w` cells. */
  predicate Width(rows: seq<Row>, w: nat) {
    forall row <- rows :: |row| == w
  }

  /** Split, explode and strip the column at `k`: every cell left at `k` is
      stripped and free of commas. */
  function Explode(rows: seq<Row>, k: nat): (r: seq<Row>)
    requires HasColumn(rows, k)
    ensures HasColumn(r, k)
    ensures forall row <- r :: IsStripped(row[k]) && ',' !in row[k]
  {
    if |rows| == 0 then [] else ExplodeRow(rows[0], k) + Explode(rows[1..], k)
  }

  /** One row per piece of every cell: as many rows as the input has rows,
      plus the commas in column `k`. */
  lemma {:induction false} ExplodeLength(rows: seq<Row>, k: nat)
    requires HasColumn(rows, k)
    ensures |Explode(rows, k)| == |rows| + Commas(rows, k)
  {
    if |rows| > 0 {
      ExplodeLength(rows[1..], k);
    }
  }

  /** Expansion keeps the width of the rows. */
  lemma {:induction false} ExplodeWidth(rows: seq<Row>, k: nat, w: nat)
    requires HasColumn(rows, k) && Width(rows, w)
    ensures Width(Explode(rows, k), w)
  {
    if |rows| > 0 {
      ExplodeWidth(rows[1..], k, w);
    }
  }

  /** Expanding two blocks of rows is expanding each and concatenating. */
  lemma {:induction false} ExplodeAppend(a: seq<Row>, b: seq<Row>, k: nat)
    requires HasColumn(a, k) && HasColumn(b, k)
    ensures HasColumn(a + b, k)
    ensures Explode(a + b, k) == Explode(a, k) + Explode(b, k)
  {
    if |a| > 0 {
      var ab := a + b;
      assert ab[1..] == a[1..] + b;
      assert ab[0] == a[0];
      assert Explode(ab, k) == ExplodeRow(a[0], k) + Explode(a[1..] + b, k);
      ExplodeAppend(a[1..], b, k);
      assert Explode(a, k) == ExplodeRow(a[0], k) + Explode(a[1..], k);
    } else {
      assert a + b == b;
    }
  }

  /** A single row expands to exactly its own pieces. */
  lemma ExplodeSingle(row: Row, k: nat)
    requires k < |row|
    ensures Explode([row], k) == ExplodeRow(row, k)
  {
    assert [row][1..] == [];
  }

  /** The names the expansion leaves in column `k`, row by row. */
  function AllNames(rows: seq<Row>, k: nat): seq<string>
    requires HasColumn(rows, k)
  {
    if |rows| == 0 then [] else Names(rows[0][k]) + AllNames(rows[1..], k)
  }

  /** The expanded column is the concatenation of the cells' name lists. */
  lemma {:induction false} ExplodedColumn(rows: seq<Row>, k: nat)
    requires HasColumn(rows, k)
    ensures Column(Explode(rows, k), k) == AllNames(rows, k)
  {
    if |rows| > 0 {
      var head := ExplodeRow(rows[0], k);
      var tail := Explode(rows[1..], k);
      ExplodedColumn(rows[1..], k);
      ColumnAppend(head, tail, k);
      assert Column(head, k) == Names(rows[0][k]);
    }
  }

  lemma {:induction false} AllNamesAppend(a: seq<Row>, b: seq<Row>, k: nat)
    requires HasColumn(a, k) && HasColumn(b, k)
    ensures HasColumn(a + b, k)
    ensures AllNames(a + b, k) == AllNames(a, k) + AllNames(b, k)
  {
    if |a| > 0 {
      assert (a + b)[1..] == a[1..] + b;
      assert (a + b)[0] == a[0];
      AllNamesAppend(a[1..], b, k);
    } else {
      assert a + b == b;
    }
  }

  /** Expansion copies every other column's cells: a property of all cells
      at `c` before holds of all cells at `c` after. */
  lemma {:induction false} ExplodeKeepsCells(rows: seq<Row>, k: nat, c: nat, allowed: seq<string>)
    requires HasColumn(rows, k) && c != k
    requires forall row <- rows :: c < |row| && row[c] in allowed
    ensures forall row <- Explode(rows, k) :: c < |row| && row[c] in allowed
  {
    if |rows| > 0 {
      ExplodeKeepsCells(rows[1..], k, c, allowed);
      assert rows[0] in rows;
      var head := ExplodeRow(rows[0], k);
      assert forall j :: 0 <= j < |head| ==> c < |head[j]| && head[j][c] == rows[0][c];
    }
  }
}

/**
 * The pandas operations the result download applies to CSV tables: a table
 * is its column names, in order, and its rows, each mapping column names to
 * cell text (a cell a row has no entry for is empty).
 */
module Tables {
  import opened Wrappers

  type Row = map<string, string>

  datatype Table = Table(columns: seq<string>, rows: seq<Row>)

  /** The first of `wanted` that is not among `present`, if any. */
  function FirstMissing(wanted: seq<string>, present: seq<string>): (r: Option<string>)
    ensures r.None? <==> forall c :: c in wanted ==> c in present
    ensures r.Some? ==> r.value in wanted && r.value !in present
  {
    if wanted == [] then None
    else if wanted[0] !in present then Some(wanted[0])
    else FirstMissing(wanted[1..], present)
  }

  /** `cs` without the names in `drop`, order kept. */
  function Without(cs: seq<string>, drop: seq<string>): (r: seq<string>)
    ensures |r| <= |cs|
    ensures forall c :: c in r <==> c in cs && c !in drop
  {
    if cs == [] then []
    else (if cs[0] in drop then [] else [cs[0]]) + Without(cs[1..], drop)
  }

  /** The entries of `row` whose column is in `keep`. */
  function Restrict(row: Row, keep: seq<string>): (r: Row)
    ensures forall c :: c in r <==> c in row && c in keep
    ensures forall c :: c in r ==> r[c] == row[c]
  {
    map c | c in row && c in keep :: row[c]
  }

  /** The entries of `row` whose column is not in `drop`. */
  function Remove(row: Row, drop: seq<string>): (r: Row)
    ensures forall c :: c in r <==> c in row && c !in drop
    ensures forall c :: c in r ==> r[c] == row[c]
  {
    map c | c in row && c !in drop :: row[c]
  }

  /**
   * `df.drop(cols, axis=1)`: fails naming a listed column the table lacks;
   * otherwise every other column and cell is kept, in order.
   */
  function Drop(t: Table, cols: seq<string>): (r: Result<Table, string>)
    ensures r.Err? <==> exists c :: c in cols && c !in t.columns
    ensures r.Err? ==> r.error in cols && r.error !in t.columns
    ensures r.Ok? ==> forall c :: c in r.value.columns <==> c in t.columns && c !in cols
    ensures r.Ok? ==> |r.value.rows| == |t.rows|
    ensures r.Ok? ==> forall i, c :: 0 <= i < |t.rows| && c in t.rows[i] && c !in cols ==>
      c in r.value.rows[i] && r.value.rows[i][c] == t.rows[i][c]
    ensures r.Ok? ==> forall i, c :: 0 <= i < |t.rows| && c in cols ==> c !in r.value.rows[i]
  {
    match FirstMissing(cols, t.columns)
    case Some(c) => Err(c)
    case None =>
      Ok(Table(Without(t.columns, cols), seq(|t.rows|, i requires 0 <= i < |t.rows| => Remove(t.rows[i], cols))))
  }

  /**
   * `df[cols]`: fails naming a listed column the table lacks; otherwise the
   * table has exactly the listed columns, in the listed order, and each row
   * keeps only its cells in those columns.
   */
  function Project(t: Table, cols: seq<string>): (r: Result<Table, string>)
    ensures r.Err? <==> exists c :: c in cols && c !in t.columns
    ensures r.Err? ==> r.error in cols && r.error !in t.columns
    ensures r.Ok? ==> r.value.columns == cols && |r.value.rows| == |t.rows|
    ensures r.Ok? ==> forall i, c :: 0 <= i < |t.rows| ==>
      && (c in r.value.rows[i] <==> c in t.rows[i] && c in cols)
      && (c in r.value.rows[i] ==> r.value.rows[i][c] == t.rows[i][c])
  {
    match FirstMissing(cols, t.columns)
    case Some(c) => Err(c)
    case None =>
      Ok(Table(cols, seq(|t.rows|, i requires 0 <= i < |t.rows| => Restrict(t.rows[i], cols))))
  }

  /** `a` followed by the names of `b` that `a` lacks, in `b`'s order. */
  function Merge(a: seq<string>, b: seq<string>): (r: seq<string>)
    ensures forall c :: c in r <==> c in a || c in b
    ensures |a| <= |r| && r[..|a|] == a
  {
    a + Without(b, a)
  }

  /** The column names of the tables, in order of first appearance. */
  function UnionColumns(ts: seq<Table>): (r: seq<string>)
    ensures forall c :: c in r <==> exists k :: 0 <= k < |ts| && c in ts[k].columns
  {
    if ts == [] then []
    else
      var rest := UnionColumns(ts[1..]);
      assert forall c :: (exists k :: 1 <= k < |ts| && c in ts[k].columns) ==> c in rest by {
        forall c, k | 1 <= k < |ts| && c in ts[k].columns ensures c in rest {
          assert ts[1..][k - 1] == ts[k];
        }
      }
      Merge(ts[0].columns, rest)
  }

  /** The rows of the tables, table after table. */
  function AllRows(ts: seq<Table>): seq<Row> {
    if ts == [] then [] else ts[0].rows + AllRows(ts[1..])
  }

  /** The total number of rows of the tables. */
  function RowCount(ts: seq<Table>): nat {
    if ts == [] then 0 else |ts[0].rows| + RowCount(ts[1..])
  }

  /**
   * `pd.concat(ts, axis=0, ignore_index=True)`: no table raises; otherwise
   * the rows of all tables, in order, under every column any of them has.
   */
  function Concat(ts: seq<Table>): (r: Option<Table>)
    ensures r.None? <==> ts == []
    ensures r.Some? ==> r.value.rows == AllRows(ts)
    ensures r.Some? ==> forall c :: c in r.value.columns <==> exists k :: 0 <= k < |ts| && c in ts[k].columns
  {
    if ts == [] then None else Some(Table(UnionColumns(ts), AllRows(ts)))
  }

  lemma {:induction false} AllRowsCount(ts: seq<Table>)
    ensures |AllRows(ts)| == RowCount(ts)
  {
    if ts != [] {
      AllRowsCount(ts[1..]);
    }
  }

  lemma {:induction false} AllRowsAppend(a: seq<Table>, b: seq<Table>)
    ensures AllRows(a + b) == AllRows(a) + AllRows(b)
  {
    if a == [] {
      assert a + b == b;
    } else {
      assert (a + b)[1..] == a[1..] + b;
      AllRowsAppend(a[1..], b);
    }
  }

  /** Each row of table `k` sits in the concatenation after the rows of the tables before it. */
  lemma {:induction false} RowsInOrder(ts: seq<Table>, k: nat, i: nat)
    requires k < |ts| && i < |ts[k].rows|
    ensures RowCount(ts[..k]) + i < |AllRows(ts)|
    ensures AllRows(ts)[RowCount(ts[..k]) + i] == ts[k].rows[i]
  {
    assert ts == ts[..k] + ts[k..];
    AllRowsAppend(ts[..k], ts[k..]);
    AllRowsCount(ts[..k]);
    assert AllRows(ts[k..]) == ts[k].rows + AllRows(ts[k + 1..]) by {
      assert ts[k..][1..] == ts[k + 1..];
    }
  }
}

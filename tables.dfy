/** In-memory data frames, reduced to what the pipeline looks at: the column
    names in order and the rows in order. Cell values are opaque strings. */
module Tables {
  import opened Errors

  type Cell = string
  type Row = seq<Cell>

  datatype Table = Table(columns: seq<string>, rows: seq<Row>)

  /** Every row has one cell per column, as in every pandas DataFrame. */
  predicate WellFormed(t: Table) {
    forall r :: r in t.rows ==> |r| == |t.columns|
  }

  /** The number of columns whose name is not `name`. */
  function Remaining(columns: seq<string>, name: string): nat {
    if columns == [] then 0
    else (if columns[0] == name then 0 else 1) + Remaining(columns[1..], name)
  }

  /** The entries of `row` that stand under a column other than `name`, in
      their original order. */
  function Without(columns: seq<string>, row: Row, name: string): (r: Row)
    ensures |row| == |columns| ==> |r| == Remaining(columns, name)
    ensures row == columns ==> forall c :: c in r <==> c in columns && c != name
  {
    if columns == [] || row == [] then []
    else (if columns[0] == name then [] else [row[0]]) + Without(columns[1..], row[1..], name)
  }

  /** DataFrame.drop(columns=[name]): every column called `name` goes, with
      its cell in every row; a KeyError when there is none. */
  function DropColumn(t: Table, name: string): (r: Result<Table>)
    ensures r.Err? <==> name !in t.columns
    ensures r.Err? ==> r.error == MissingColumn(name)
    ensures r.Ok? ==> name !in r.value.columns && |r.value.rows| == |t.rows|
    ensures r.Ok? ==> forall c :: c in r.value.columns <==> c in t.columns && c != name
    ensures r.Ok? && WellFormed(t) ==> WellFormed(r.value)
  {
    if name !in t.columns then Err(MissingColumn(name))
    else
      Ok(Table(Without(t.columns, t.columns, name),
               seq(|t.rows|, k requires 0 <= k < |t.rows| => Without(t.columns, t.rows[k], name))))
  }

  /** Entry j of a row, standing under a column other than `name`, is kept
      at the position left by the columns before it that are not `name`. */
  lemma {:induction false} WithoutAt(columns: seq<string>, row: Row, name: string, j: nat)
    requires |row| == |columns| && j < |columns| && columns[j] != name
    ensures Remaining(columns[..j], name) < Remaining(columns, name)
    ensures Remaining(columns[..j], name) < |Without(columns, row, name)|
    ensures Without(columns, row, name)[Remaining(columns[..j], name)] == row[j]
  {
    if j > 0 {
      assert columns[..j][1..] == columns[1..][..j - 1];
      WithoutAt(columns[1..], row[1..], name, j - 1);
    }
  }

  /** DataFrame.drop keeps the other columns in their order, and every row
      keeps the cell it had under each of them. */
  lemma DropColumnKeepsOrder(t: Table, name: string)
    requires name in t.columns
    ensures DropColumn(t, name).Ok?
    ensures |DropColumn(t, name).value.columns| == Remaining(t.columns, name)
    ensures forall j :: 0 <= j < |t.columns| && t.columns[j] != name ==>
              && Remaining(t.columns[..j], name) < |DropColumn(t, name).value.columns|
              && DropColumn(t, name).value.columns[Remaining(t.columns[..j], name)] == t.columns[j]
    ensures WellFormed(t) ==>
              forall k, j :: 0 <= k < |t.rows| && 0 <= j < |t.columns| && t.columns[j] != name ==>
                && Remaining(t.columns[..j], name) < |DropColumn(t, name).value.rows[k]|
                && DropColumn(t, name).value.rows[k][Remaining(t.columns[..j], name)] == t.rows[k][j]
  {
    var r := DropColumn(t, name).value;
    forall j | 0 <= j < |t.columns| && t.columns[j] != name
      ensures Remaining(t.columns[..j], name) < |r.columns|
      ensures r.columns[Remaining(t.columns[..j], name)] == t.columns[j]
    {
      WithoutAt(t.columns, t.columns, name, j);
    }
    if WellFormed(t) {
      forall k, j | 0 <= k < |t.rows| && 0 <= j < |t.columns| && t.columns[j] != name
        ensures Remaining(t.columns[..j], name) < |r.rows[k]|
        ensures r.rows[k][Remaining(t.columns[..j], name)] == t.rows[k][j]
      {
        assert t.rows[k] in t.rows;
        WithoutAt(t.columns, t.rows[k], name, j);
      }
    }
  }

  /** All tables carry the same column list. */
  predicate SameColumns(ts: seq<Table>) {
    forall i, j :: 0 <= i < |ts| && 0 <= j < |ts| ==> ts[i].columns == ts[j].columns
  }

  /** The rows of all tables, table after table. */
  function AllRows(ts: seq<Table>): seq<Row> {
    if ts == [] then [] else AllRows(ts[..|ts| - 1]) + ts[|ts| - 1].rows
  }

  /** The sum of the tables' row counts. */
  function TotalRows(ts: seq<Table>): nat {
    if ts == [] then 0 else TotalRows(ts[..|ts| - 1]) + |ts[|ts| - 1].rows|
  }

  /** pandas.concat(ts, ignore_index=True) over tables that share one schema. */
  function Concat(ts: seq<Table>): Table
    requires |ts| > 0 && SameColumns(ts)
  {
    Table(ts[0].columns, AllRows(ts))
  }

  lemma {:induction false} AllRowsLength(ts: seq<Table>)
    ensures |AllRows(ts)| == TotalRows(ts)
  {
    if ts != [] {
      AllRowsLength(ts[..|ts| - 1]);
    }
  }

  /** The combined row count is the sum of the shard row counts. */
  lemma ConcatRowCount(ts: seq<Table>)
    requires |ts| > 0 && SameColumns(ts)
    ensures |Concat(ts).rows| == TotalRows(ts)
    ensures Concat(ts).columns == ts[0].columns
  {
    AllRowsLength(ts);
  }

  lemma {:induction false} AllRowsAt(ts: seq<Table>, i: nat, k: nat)
    requires i < |ts| && k < |ts[i].rows|
    ensures TotalRows(ts[..i]) + k < |AllRows(ts)|
    ensures AllRows(ts)[TotalRows(ts[..i]) + k] == ts[i].rows[k]
  {
    var init := ts[..|ts| - 1];
    AllRowsLength(init);
    if i == |ts| - 1 {
      assert ts[..i] == init;
    } else {
      assert init[..i] == ts[..i];
      AllRowsAt(init, i, k);
    }
  }

  /** Row k of table i sits right after the rows of tables 0 .. i-1: the
      concatenation keeps the tables' order and each table's row order. */
  lemma ConcatRowOrder(ts: seq<Table>, i: nat, k: nat)
    requires |ts| > 0 && SameColumns(ts)
    requires i < |ts| && k < |ts[i].rows|
    ensures TotalRows(ts[..i]) + k < |Concat(ts).rows|
    ensures Concat(ts).rows[TotalRows(ts[..i]) + k] == ts[i].rows[k]
  {
    AllRowsAt(ts, i, k);
  }

  lemma {:induction false} AllRowsWellFormed(ts: seq<Table>, width: nat)
    requires forall i :: 0 <= i < |ts| ==> WellFormed(ts[i]) && |ts[i].columns| == width
    ensures forall r :: r in AllRows(ts) ==> |r| == width
  {
    if ts != [] {
      AllRowsWellFormed(ts[..|ts| - 1], width);
      assert WellFormed(ts[|ts| - 1]);
    }
  }

  /** Concatenating well-formed tables of one schema gives a well-formed table. */
  lemma ConcatWellFormed(ts: seq<Table>)
    requires |ts| > 0 && SameColumns(ts)
    requires forall i :: 0 <= i < |ts| ==> WellFormed(ts[i])
    ensures WellFormed(Concat(ts))
  {
    AllRowsWellFormed(ts, |ts[0].columns|);
  }
}

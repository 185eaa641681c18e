/** The tabular artifacts the stages exchange and the structural predicates
    the runner checks them with: the missing-cell count, the duplicate-row
    count, column membership and emptiness. */
module Tables {
  import opened Wrappers

  /** A cell; `None` is a missing value (what `isnull()` reports). */
  type Cell = Option<string>
  type Row = seq<Cell>

  /** A data frame: its column labels and its rows. */
  datatype Table = Table(columns: set<string>, rows: seq<Row>)

  /** Columns the merged table must have. */
  const MergedColumns: set<string> :=
    {"CustomerID", "Product", "Quantity", "Amount", "CustomerName", "MembershipLevel", "TotalAmount"}

  /** Columns the aggregate must have. */
  const AggregateColumns: set<string> := {"MembershipLevel", "TotalSpent"}

  predicate NoMissingCells(rows: seq<Row>) {
    forall i, k :: 0 <= i < |rows| && 0 <= k < |rows[i]| ==> rows[i][k].Some?
  }

  /** Pairwise different rows: what `duplicated()` flags nothing in. */
  predicate DistinctRows(rows: seq<Row>) {
    forall i, j :: 0 <= i < j < |rows| ==> rows[i] != rows[j]
  }

  function RowMissing(row: Row): (n: nat)
    ensures n <= |row|
    ensures n == 0 <==> forall k :: 0 <= k < |row| ==> row[k].Some?
  {
    if row == [] then 0 else (if row[0].None? then 1 else 0) + RowMissing(row[1..])
  }

  /** `t.isnull().sum().sum()`: the number of missing cells in the whole table;
      zero exactly when every cell holds a value. */
  function NullCount(rows: seq<Row>): (n: nat)
    ensures n == 0 <==> NoMissingCells(rows)
  {
    if rows == [] then 0
    else
      var n := RowMissing(rows[0]) + NullCount(rows[1..]);
      assert NoMissingCells(rows) <==> (RowMissing(rows[0]) == 0 && NoMissingCells(rows[1..])) by {
        if RowMissing(rows[0]) == 0 && NoMissingCells(rows[1..]) {
          forall i, k | 0 <= i < |rows| && 0 <= k < |rows[i]| ensures rows[i][k].Some? {
            if i > 0 { assert rows[i] == rows[1..][i - 1]; }
          }
        }
        if NoMissingCells(rows) {
          forall i, k | 0 <= i < |rows[1..]| && 0 <= k < |rows[1..][i]| ensures rows[1..][i][k].Some? {
            assert rows[1..][i] == rows[i + 1];
          }
        }
      }
      n
  }

  /** `t.duplicated().sum()`: the number of rows equal to an earlier row
      (pandas keeps the first occurrence, and two missing cells compare
      equal); zero exactly when the rows are pairwise different. */
  function DuplicateCount(rows: seq<Row>): (n: nat)
    ensures n <= |rows|
    ensures n == 0 <==> DistinctRows(rows)
    decreases |rows|
  {
    if rows == [] then 0
    else
      var front := rows[..|rows| - 1];
      var last := rows[|rows| - 1];
      var n := DuplicateCount(front) + (if last in front then 1 else 0);
      assert DistinctRows(rows) <==> (DistinctRows(front) && last !in front) by {
        if DistinctRows(front) && last !in front {
          forall i, j | 0 <= i < j < |rows| ensures rows[i] != rows[j] {
            if j < |rows| - 1 {
              assert rows[i] == front[i] && rows[j] == front[j];
            } else {
              assert rows[i] == front[i];
            }
          }
        }
        if DistinctRows(rows) {
          forall i, j | 0 <= i < j < |front| ensures front[i] != front[j] {
            assert front[i] == rows[i] && front[j] == rows[j];
          }
        }
      }
      n
  }

  /** `required.issubset(set(t.columns))`. */
  predicate HasColumns(t: Table, required: set<string>) {
    required <= t.columns
  }

  /** `t.shape[0] >= 1`. */
  predicate IsNonEmpty(t: Table) {
    |t.rows| >= 1
  }
}

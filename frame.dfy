/**
 The in-memory table the service keeps per category: a pandas DataFrame of
 string cells, as an ordered list of column names and a list of rows whose
 cells are positional and possibly missing (NaN).
 */
module Frame {

  import opened Wrappers

  type Cell = Option<string>

  datatype Table = Table(columns: seq<string>, rows: seq<seq<Cell>>)

  /** `pd.DataFrame()`: no rows and no columns. */
  function Empty(): (t: Table)
    ensures WellFormed(t) && |t.columns| == 0 && |t.rows| == 0
  {
    Table([], [])
  }

  /** Every row has one cell per column, as in any DataFrame. */
  predicate Rectangular(t: Table)
  {
    forall i :: 0 <= i < |t.rows| ==> |t.rows[i]| == |t.columns|
  }

  /** A list of names in which no name occurs twice. */
  predicate NoDuplicates(xs: seq<string>)
  {
    forall i, j :: 0 <= i < j < |xs| ==> xs[i] != xs[j]
  }

  /** A rectangular table whose column labels are distinct. */
  predicate WellFormed(t: Table)
  {
    NoDuplicates(t.columns) && Rectangular(t)
  }

  /** Position of the first occurrence of `x`: how a label selects a column. */
  function IndexOf(xs: seq<string>, x: string): (k: nat)
    requires x in xs
    ensures k < |xs| && xs[k] == x
    ensures forall j :: 0 <= j < k ==> xs[j] != x
  {
    if xs[0] == x then 0 else 1 + IndexOf(xs[1..], x)
  }

  lemma IndexOfDistinct(xs: seq<string>, j: nat)
    requires NoDuplicates(xs) && j < |xs|
    ensures IndexOf(xs, xs[j]) == j
  {
  }

  /** The cells of column `k`, top to bottom (`df[col]`). */
  function Column(t: Table, k: nat): (r: seq<Cell>)
    requires Rectangular(t) && k < |t.columns|
    ensures |r| == |t.rows|
  {
    seq(|t.rows|, i requires 0 <= i < |t.rows| => t.rows[i][k])
  }
}

/**
 `load_multiple_csv`: each input file, once parsed, is an optional table (a
 file that does not exist is `None`). Every present table has its headers and
 string cells stripped; the cleaned tables are concatenated in input order with
 the rows renumbered, the columns being the union of the headers in order of
 first appearance and a row lacking a column getting a missing cell there.
 With no present input the result is the empty table.
 */
module Loader {

  import opened Wrappers
  import opened Seqs
  import opened Text
  import opened Frame

  /** What `pd.read_csv` hands over: rectangular tables. */
  predicate InputsRectangular(files: seq<Option<Table>>)
  {
    forall i :: 0 <= i < |files| && files[i].Some? ==> Rectangular(files[i].value)
  }

  /** Every present cell is free of surrounding whitespace. */
  predicate CellsTrimmed(rows: seq<seq<Cell>>)
  {
    forall i, j :: 0 <= i < |rows| && 0 <= j < |rows[i]| && rows[i][j].Some? ==> IsTrimmed(rows[i][j].value)
  }

  /** Every header and every present cell is free of surrounding whitespace. */
  predicate AllTrimmed(t: Table)
  {
    (forall j :: 0 <= j < |t.columns| ==> IsTrimmed(t.columns[j])) && CellsTrimmed(t.rows)
  }

  /** `x.strip() if isinstance(x, str) else x` on one cell. */
  function TrimCell(c: Cell): (r: Cell)
    ensures r.None? <==> c.None?
    ensures c.Some? ==> r.value == Trim(c.value) && IsTrimmed(r.value)
  {
    match c
    case None => None
    case Some(s) => Some(Trim(s))
  }

  /** `df.columns.str.strip()`. */
  function CleanHeader(cols: seq<string>): (r: seq<string>)
    ensures |r| == |cols|
  {
    seq(|cols|, j requires 0 <= j < |cols| => Trim(cols[j]))
  }

  /** Strips the headers and the string cells of one parsed file. */
  function CleanFrame(f: Table): (r: Table)
    requires Rectangular(f)
    ensures Rectangular(r) && AllTrimmed(r)
    ensures r.columns == CleanHeader(f.columns) && |r.rows| == |f.rows|
    ensures forall i, j :: 0 <= i < |f.rows| && 0 <= j < |f.columns| ==>
              (r.rows[i][j].None? <==> f.rows[i][j].None?) &&
              (f.rows[i][j].Some? ==> r.rows[i][j].value == Trim(f.rows[i][j].value))
  {
    Table(CleanHeader(f.columns),
          seq(|f.rows|, i requires 0 <= i < |f.rows| =>
            seq(|f.rows[i]|, j requires 0 <= j < |f.rows[i]| => TrimCell(f.rows[i][j]))))
  }

  /** The list `dfs` after the loop over `files`: the cleaned present tables, in order. */
  function Cleaned(files: seq<Option<Table>>): (dfs: seq<Table>)
    requires InputsRectangular(files)
    ensures forall k :: 0 <= k < |dfs| ==> Rectangular(dfs[k]) && AllTrimmed(dfs[k])
    ensures dfs == [] <==> forall i :: 0 <= i < |files| ==> files[i].None?
  {
    if files == [] then []
    else
      var init := Cleaned(files[..|files| - 1]);
      assert forall i :: 0 <= i < |files| - 1 ==> files[..|files| - 1][i] == files[i];
      match files[|files| - 1]
      case None => init
      case Some(f) => init + [CleanFrame(f)]
  }

  /** The rows of the present tables, cleaned, one file after another. */
  function PresentRows(files: seq<Option<Table>>): seq<seq<Cell>>
    requires InputsRectangular(files)
  {
    if files == [] then []
    else
      var init := PresentRows(files[..|files| - 1]);
      match files[|files| - 1]
      case None => init
      case Some(f) => init + CleanFrame(f).rows
  }

  /** Appends the labels of `cols` that `acc` does not hold yet, in order. */
  function AddColumns(acc: seq<string>, cols: seq<string>): (r: seq<string>)
    requires NoDuplicates(acc)
    ensures NoDuplicates(r) && acc <= r
    ensures forall c :: c in r <==> c in acc || c in cols
    decreases |cols|
  {
    if cols == [] then acc
    else AddColumns(if cols[0] in acc then acc else acc + [cols[0]], cols[1..])
  }

  /** The columns of `pd.concat(dfs)`: the union of the headers in order of first appearance. */
  function UnionColumns(dfs: seq<Table>): (r: seq<string>)
    ensures NoDuplicates(r)
    ensures forall c :: c in r <==> InHeaders(dfs, c)
  {
    if dfs == [] then []
    else
      var init := dfs[..|dfs| - 1];
      assert dfs == init + [dfs[|dfs| - 1]];
      assert forall c :: InHeaders(dfs, c) <==> InHeaders(init, c) || c in dfs[|dfs| - 1].columns by {
        forall c ensures InHeaders(dfs, c) <==> InHeaders(init, c) || c in dfs[|dfs| - 1].columns {
          InHeadersSnoc(init, dfs[|dfs| - 1], c);
        }
      }
      AddColumns(UnionColumns(init), dfs[|dfs| - 1].columns)
  }

  /** A row of a table with header `cols`, laid out under the header `union`. */
  function Realign(row: seq<Cell>, cols: seq<string>, union: seq<string>): (r: seq<Cell>)
    requires |row| == |cols|
    ensures |r| == |union|
    ensures forall j :: 0 <= j < |union| ==> r[j] == if union[j] in cols then row[IndexOf(cols, union[j])] else None
  {
    seq(|union|, j requires 0 <= j < |union| => if union[j] in cols then row[IndexOf(cols, union[j])] else None)
  }

  /** The rows of `pd.concat(dfs, ignore_index=True)` under the header `union`. */
  function ConcatRows(dfs: seq<Table>, union: seq<string>): (r: seq<seq<Cell>>)
    requires forall k :: 0 <= k < |dfs| ==> Rectangular(dfs[k])
    ensures forall i :: 0 <= i < |r| ==> |r[i]| == |union|
  {
    if dfs == [] then []
    else
      var last := dfs[|dfs| - 1];
      assert Rectangular(last);
      ConcatRows(dfs[..|dfs| - 1], union) + RealignRows(last, union)
  }

  /** The rows of one table under the header `union`. */
  function RealignRows(t: Table, union: seq<string>): (r: seq<seq<Cell>>)
    requires Rectangular(t)
    ensures |r| == |t.rows|
  {
    seq(|t.rows|, i requires 0 <= i < |t.rows| => Realign(t.rows[i], t.columns, union))
  }

  function Concat(dfs: seq<Table>): (t: Table)
    requires forall k :: 0 <= k < |dfs| ==> Rectangular(dfs[k])
    ensures WellFormed(t)
  {
    var union := UnionColumns(dfs);
    Table(union, ConcatRows(dfs, union))
  }

  /** The table `load_multiple_csv(files)` returns. */
  function Loaded(files: seq<Option<Table>>): (t: Table)
    requires InputsRectangular(files)
    ensures WellFormed(t)
  {
    var dfs := Cleaned(files);
    if |dfs| > 0 then Concat(dfs) else Empty()
  }

  /** The loader itself: a loop collecting the cleaned tables, then one concatenation. */
  method LoadMultiple(files: seq<Option<Table>>) returns (t: Table)
    requires InputsRectangular(files)
    ensures t == Loaded(files)
  {
    var dfs: seq<Table> := [];
    for i := 0 to |files|
      invariant InputsRectangular(files[..i])
      invariant dfs == Cleaned(files[..i])
    {
      assert files[..i + 1][..i] == files[..i];
      match files[i] {
        case Some(f) =>
          dfs := dfs + [CleanFrame(f)];
        case None =>
      }
    }
    assert files[..|files|] == files;
    t := if |dfs| > 0 then Concat(dfs) else Empty();
  }

  /** The tables one more file adds to `dfs`. */
  function CleanedOne(x: Option<Table>): seq<Table>
    requires x.Some? ==> Rectangular(x.value)
  {
    match x
    case None => []
    case Some(f) => [CleanFrame(f)]
  }

  /** The rows one more file adds. */
  function RowsOne(x: Option<Table>): seq<seq<Cell>>
    requires x.Some? ==> Rectangular(x.value)
  {
    match x
    case None => []
    case Some(f) => CleanFrame(f).rows
  }

  /** One more file: its cleaned table and its rows go at the end. */
  lemma CleanedSnoc(xs: seq<Option<Table>>, x: Option<Table>)
    requires InputsRectangular(xs) && (x.Some? ==> Rectangular(x.value))
    ensures InputsRectangular(xs + [x])
    ensures Cleaned(xs + [x]) == Cleaned(xs) + CleanedOne(x)
    ensures PresentRows(xs + [x]) == PresentRows(xs) + RowsOne(x)
  {
    var ys := xs + [x];
    assert forall i :: 0 <= i < |xs| ==> ys[i] == xs[i];
    assert ys[..|ys| - 1] == xs && ys[|ys| - 1] == x;
  }

  /** Cleaning a list of inputs piecewise gives the same tables as cleaning it whole. */
  lemma {:induction false} CleanedAppend(a: seq<Option<Table>>, b: seq<Option<Table>>)
    requires InputsRectangular(a) && InputsRectangular(b)
    ensures InputsRectangular(a + b)
    ensures Cleaned(a + b) == Cleaned(a) + Cleaned(b)
    ensures PresentRows(a + b) == PresentRows(a) + PresentRows(b)
    decreases |b|
  {
    if b == [] {
      assert a + b == a;
    } else {
      var b', x := b[..|b| - 1], b[|b| - 1];
      assert forall i :: 0 <= i < |b'| ==> b'[i] == b[i];
      assert b == b' + [x] && a + b == (a + b') + [x];
      CleanedAppend(a, b');
      CleanedSnoc(b', x);
      CleanedSnoc(a + b', x);
      Associative(Cleaned(a), Cleaned(b'), CleanedOne(x));
      Associative(PresentRows(a), PresentRows(b'), RowsOne(x));
    }
  }

  /** An absent file contributes nothing: dropping it does not change the loaded table. */
  lemma LoadedSkipsAbsent(files: seq<Option<Table>>, i: nat)
    requires InputsRectangular(files) && i < |files| && files[i].None?
    ensures InputsRectangular(files[..i] + files[i + 1..])
    ensures Loaded(files) == Loaded(files[..i] + files[i + 1..])
  {
    var a, b := files[..i], files[i + 1..];
    assert forall k :: 0 <= k < |a| ==> a[k] == files[k];
    assert forall k :: 0 <= k < |b| ==> b[k] == files[i + 1 + k];
    assert files == (a + [None]) + b;
    CleanedAppend(a, [None]);
    var absent: seq<Option<Table>> := [None];
    assert Cleaned(absent) == [] by { assert absent[..0] == []; }
    CleanedAppend(a + [None], b);
    CleanedAppend(a, b);
  }

  lemma {:induction false} ConcatRowsTrimmed(dfs: seq<Table>, union: seq<string>)
    requires forall k :: 0 <= k < |dfs| ==> Rectangular(dfs[k]) && AllTrimmed(dfs[k])
    ensures CellsTrimmed(ConcatRows(dfs, union))
  {
    if dfs != [] {
      var init, last := dfs[..|dfs| - 1], dfs[|dfs| - 1];
      assert forall k :: 0 <= k < |init| ==> init[k] == dfs[k];
      ConcatRowsTrimmed(init, union);
      var front := ConcatRows(init, union);
      var r: seq<seq<Cell>> := ConcatRows(dfs, union);
      forall i: nat, j: nat | 0 <= i < |r| && 0 <= j < |r[i]| && r[i][j].Some? ensures IsTrimmed(r[i][j].value) {
        if i >= |front| {
          var row := last.rows[i - |front|];
          assert Rectangular(last) && AllTrimmed(last);
          assert r[i] == Realign(row, last.columns, union);
          assert union[j] in last.columns;
          var m := IndexOf(last.columns, union[j]);
          assert r[i][j] == row[m] && m < |row|;
          assert IsTrimmed(row[m].value);
        } else {
          assert r[i] == front[i];
          assert IsTrimmed(front[i][j].value);
        }
      }
    }
  }

  lemma {:induction false} ConcatRowsCount(files: seq<Option<Table>>, union: seq<string>)
    requires InputsRectangular(files)
    ensures |ConcatRows(Cleaned(files), union)| == |PresentRows(files)|
  {
    if files != [] {
      var init := files[..|files| - 1];
      assert InputsRectangular(init) by {
        assert forall i :: 0 <= i < |init| ==> init[i] == files[i];
      }
      ConcatRowsCount(init, union);
      if files[|files| - 1].Some? {
        var dfs := Cleaned(files);
        assert dfs[..|dfs| - 1] == Cleaned(init);
      }
    }
  }

  /** `c` is a header, after stripping, of one of the present files. */
  predicate InCleanHeaders(files: seq<Option<Table>>, c: string)
  {
    exists i :: 0 <= i < |files| && files[i].Some? && c in CleanHeader(files[i].value.columns)
  }

  /** `c` is a header of one of the tables `dfs`. */
  predicate InHeaders(dfs: seq<Table>, c: string)
  {
    exists k :: 0 <= k < |dfs| && c in dfs[k].columns
  }

  lemma InHeadersSnoc(dfs: seq<Table>, t: Table, c: string)
    ensures InHeaders(dfs + [t], c) <==> InHeaders(dfs, c) || c in t.columns
  {
    var w := dfs + [t];
    if InHeaders(w, c) {
      var k :| 0 <= k < |w| && c in w[k].columns;
      if k < |dfs| {
        assert w[k] == dfs[k];
      }
    }
    if InHeaders(dfs, c) {
      var k :| 0 <= k < |dfs| && c in dfs[k].columns;
      assert w[k] == dfs[k];
    }
    assert w[|dfs|] == t;
  }

  lemma InCleanHeadersSnoc(files: seq<Option<Table>>, c: string)
    requires files != []
    ensures InCleanHeaders(files, c) <==>
            InCleanHeaders(files[..|files| - 1], c) ||
            (files[|files| - 1].Some? && c in CleanHeader(files[|files| - 1].value.columns))
  {
    var n := |files| - 1;
    var init := files[..n];
    var last := files[n].Some? && c in CleanHeader(files[n].value.columns);
    if InCleanHeaders(files, c) {
      var i :| 0 <= i < |files| && files[i].Some? && c in CleanHeader(files[i].value.columns);
      if i < n {
        assert init[i] == files[i];
        assert InCleanHeaders(init, c);
      } else {
        assert last;
      }
    }
    if InCleanHeaders(init, c) {
      var i :| 0 <= i < n && init[i].Some? && c in CleanHeader(init[i].value.columns);
      assert files[i] == init[i];
      assert InCleanHeaders(files, c);
    }
    if last {
      assert InCleanHeaders(files, c);
    }
  }

  lemma {:induction false} CleanedColumns(files: seq<Option<Table>>, c: string)
    requires InputsRectangular(files)
    ensures InHeaders(Cleaned(files), c) <==> InCleanHeaders(files, c)
  {
    if files != [] {
      var n := |files| - 1;
      var init := files[..n];
      InCleanHeadersSnoc(files, c);
      assert InputsRectangular(init) by {
        assert forall i :: 0 <= i < n ==> init[i] == files[i];
      }
      CleanedColumns(init, c);
      match files[n]
      case None =>
      case Some(f) => InHeadersSnoc(Cleaned(init), CleanFrame(f), c);
    }
  }

  /** What the loader promises of its result, whatever the inputs. */
  lemma LoadedProperties(files: seq<Option<Table>>)
    requires InputsRectangular(files)
    ensures WellFormed(Loaded(files)) && AllTrimmed(Loaded(files))
    ensures (forall i :: 0 <= i < |files| ==> files[i].None?) ==> Loaded(files) == Empty()
    ensures |Loaded(files).rows| == |PresentRows(files)|
    ensures forall c :: c in Loaded(files).columns <==> InCleanHeaders(files, c)
  {
    var dfs := Cleaned(files);
    forall c ensures c in Loaded(files).columns <==> InCleanHeaders(files, c) {
      CleanedColumns(files, c);
    }
    if |dfs| > 0 {
      var union := UnionColumns(dfs);
      ConcatRowsTrimmed(dfs, union);
      ConcatRowsCount(files, union);
      forall j | 0 <= j < |union| ensures IsTrimmed(union[j]) {
        assert union[j] in union;
        var k :| 0 <= k < |dfs| && union[j] in dfs[k].columns;
        var m :| 0 <= m < |dfs[k].columns| && dfs[k].columns[m] == union[j];
      }
    } else {
      PresentRowsEmpty(files);
    }
  }

  lemma {:induction false} PresentRowsEmpty(files: seq<Option<Table>>)
    requires InputsRectangular(files)
    requires forall i :: 0 <= i < |files| ==> files[i].None?
    ensures PresentRows(files) == []
  {
    if files != [] {
      var init := files[..|files| - 1];
      assert forall i :: 0 <= i < |init| ==> init[i] == files[i];
      PresentRowsEmpty(init);
    }
  }

  /** Every present file's header strips to `h`. */
  predicate HeaderTrimsTo(f: Table, h: seq<string>)
  {
    |f.columns| == |h| && forall j :: 0 <= j < |h| ==> Trim(f.columns[j]) == h[j]
  }

  lemma {:induction false} AddColumnsSubsumed(acc: seq<string>, cols: seq<string>)
    requires NoDuplicates(acc)
    requires forall c :: c in cols ==> c in acc
    ensures AddColumns(acc, cols) == acc
    decreases |cols|
  {
    if cols != [] {
      assert cols[0] in cols;
      AddColumnsSubsumed(acc, cols[1..]);
    }
  }

  lemma {:induction false} AddColumnsFresh(acc: seq<string>, cols: seq<string>)
    requires NoDuplicates(acc + cols)
    ensures NoDuplicates(acc)
    ensures AddColumns(acc, cols) == acc + cols
    decreases |cols|
  {
    var w := acc + cols;
    assert forall i :: 0 <= i < |acc| ==> w[i] == acc[i];
    if cols != [] {
      assert cols[0] !in acc by {
        forall i | 0 <= i < |acc| ensures acc[i] != cols[0] {
          assert w[|acc|] == cols[0];
        }
      }
      assert (acc + [cols[0]]) + cols[1..] == w;
      AddColumnsFresh(acc + [cols[0]], cols[1..]);
    }
  }

  lemma RealignSame(row: seq<Cell>, h: seq<string>)
    requires NoDuplicates(h) && |row| == |h|
    ensures Realign(row, h, h) == row
  {
    forall j | 0 <= j < |h| ensures Realign(row, h, h)[j] == row[j] {
      IndexOfDistinct(h, j);
    }
  }

  /** A table already under header `h` keeps its rows. */
  lemma RealignRowsSame(t: Table, h: seq<string>)
    requires Rectangular(t) && t.columns == h && NoDuplicates(h)
    ensures RealignRows(t, h) == t.rows
  {
    forall i | 0 <= i < |t.rows| ensures RealignRows(t, h)[i] == t.rows[i] {
      RealignSame(t.rows[i], h);
    }
  }

  lemma {:induction false} SharedHeaderConcat(files: seq<Option<Table>>, h: seq<string>)
    requires InputsRectangular(files) && NoDuplicates(h)
    requires forall i :: 0 <= i < |files| && files[i].Some? ==> HeaderTrimsTo(files[i].value, h)
    ensures Cleaned(files) != [] ==> UnionColumns(Cleaned(files)) == h
    ensures ConcatRows(Cleaned(files), h) == PresentRows(files)
  {
    if files != [] {
      var init := files[..|files| - 1];
      assert forall i :: 0 <= i < |init| ==> init[i] == files[i];
      SharedHeaderConcat(init, h);
      var dfs, dfs0 := Cleaned(files), Cleaned(init);
      match files[|files| - 1]
      case None =>
      case Some(f) =>
        var cf := CleanFrame(f);
        assert cf.columns == h;
        assert dfs == dfs0 + [cf] && dfs[..|dfs| - 1] == dfs0;
        if dfs0 == [] {
          assert [] + h == h;
          AddColumnsFresh([], h);
        } else {
          AddColumnsSubsumed(h, h);
        }
        RealignRowsSame(cf, h);
    }
  }

  /** When every present file has the same header after stripping, the loaded table
      is that header over the cleaned rows of the present files, file after file. */
  lemma LoadedSharedHeader(files: seq<Option<Table>>, h: seq<string>)
    requires InputsRectangular(files) && NoDuplicates(h)
    requires forall i :: 0 <= i < |files| && files[i].Some? ==> HeaderTrimsTo(files[i].value, h)
    requires exists i :: 0 <= i < |files| && files[i].Some?
    ensures Loaded(files) == Table(h, PresentRows(files))
  {
    SharedHeaderConcat(files, h);
  }

  /** Row `i` of the `p`-th table comes after the rows of the tables before it,
      laid out under the union header. */
  lemma {:induction false} ConcatRowsAt(dfs: seq<Table>, union: seq<string>, p: nat, i: nat)
    requires forall k :: 0 <= k < |dfs| ==> Rectangular(dfs[k])
    requires p < |dfs| && i < |dfs[p].rows|
    ensures |ConcatRows(dfs[..p], union)| + i < |ConcatRows(dfs, union)|
    ensures ConcatRows(dfs, union)[|ConcatRows(dfs[..p], union)| + i] == Realign(dfs[p].rows[i], dfs[p].columns, union)
  {
    var n := |dfs|;
    var init, last := dfs[..n - 1], dfs[n - 1];
    assert Rectangular(last);
    var front := ConcatRows(init, union);
    assert ConcatRows(dfs, union) == front + RealignRows(last, union);
    if p == n - 1 {
      assert dfs[..p] == init;
    } else {
      assert init[..p] == dfs[..p] && init[p] == dfs[p];
      ConcatRowsAt(init, union, p, i);
    }
  }

  /** An existing file `f` between `before` and `after` contributes its cleaned table
      between theirs. */
  lemma CleanedAround(before: seq<Option<Table>>, f: Table, after: seq<Option<Table>>)
    requires InputsRectangular(before) && Rectangular(f) && InputsRectangular(after)
    ensures InputsRectangular(before + [Some(f)] + after)
    ensures Cleaned(before + [Some(f)] + after) == Cleaned(before) + [CleanFrame(f)] + Cleaned(after)
  {
    var present: seq<Option<Table>> := [Some(f)];
    assert Cleaned(present) == [CleanFrame(f)] by { assert present[..0] == []; }
    CleanedAppend(before, present);
    CleanedAppend(before + present, after);
  }

  /** In the concatenation of `pre + [g] + post`, row `i` of `g` follows the rows of `pre`. */
  lemma ConcatAt(pre: seq<Table>, g: Table, post: seq<Table>, i: nat)
    requires forall k :: 0 <= k < |pre| ==> Rectangular(pre[k])
    requires Rectangular(g) && forall k :: 0 <= k < |post| ==> Rectangular(post[k])
    requires i < |g.rows|
    ensures forall k :: 0 <= k < |pre + [g] + post| ==> Rectangular((pre + [g] + post)[k])
    ensures |ConcatRows(pre, Concat(pre + [g] + post).columns)| + i < |Concat(pre + [g] + post).rows|
    ensures Concat(pre + [g] + post).rows[|ConcatRows(pre, Concat(pre + [g] + post).columns)| + i]
            == Realign(g.rows[i], g.columns, Concat(pre + [g] + post).columns)
  {
    var dfs := pre + [g] + post;
    assert forall k :: 0 <= k < |dfs| ==> Rectangular(dfs[k]) by {
      forall k | 0 <= k < |dfs| ensures Rectangular(dfs[k]) {
        if k < |pre| { assert dfs[k] == pre[k]; }
        else if k > |pre| { assert dfs[k] == post[k - |pre| - 1]; }
      }
    }
    PrefixIndex(pre, g, post);
    assert dfs[..|pre|] == pre;
    ConcatRowsAt(dfs, UnionColumns(dfs), |pre|, i);
  }

  /** The cleaned tables of `files` split around the existing file `files[p]`. */
  lemma CleanedAtFile(files: seq<Option<Table>>, p: nat)
    requires InputsRectangular(files)
    requires p < |files| && files[p].Some?
    ensures InputsRectangular(files[..p]) && Rectangular(files[p].value) && InputsRectangular(files[p + 1..])
    ensures Cleaned(files) == Cleaned(files[..p]) + [CleanFrame(files[p].value)] + Cleaned(files[p + 1..])
  {
    var before, f, after := files[..p], files[p].value, files[p + 1..];
    assert InputsRectangular(before) && InputsRectangular(after) by {
      assert forall k :: 0 <= k < |before| ==> before[k] == files[k];
      assert forall k :: 0 <= k < |after| ==> after[k] == files[p + 1 + k];
    }
    SplitAt(files, p);
    CleanedAround(before, f, after);
  }

  /** The loaded table is the concatenation of the cleaned tables split around `files[p]`. */
  lemma LoadedAtFile(files: seq<Option<Table>>, p: nat)
    requires InputsRectangular(files)
    requires p < |files| && files[p].Some?
    ensures InputsRectangular(files[..p]) && Rectangular(files[p].value) && InputsRectangular(files[p + 1..])
    ensures Loaded(files) == Concat(Cleaned(files[..p]) + [CleanFrame(files[p].value)] + Cleaned(files[p + 1..]))
  {
    CleanedAtFile(files, p);
  }

  /** Row `i` of `g`, in the concatenation of the cleaned `before`, then `g`, then
      `post`, is the row right after those of the existing files of `before`. With
      `LoadedAtFile` (`g` the cleaned `files[p]`, `before` the files ahead of it) this
      places each row of each existing file in the loaded table, in file order. */
  lemma ConcatRowAfter(pre: seq<Table>, g: Table, post: seq<Table>, before: seq<Option<Table>>, i: nat)
    requires InputsRectangular(before) && pre == Cleaned(before)
    requires Rectangular(g) && (forall k :: 0 <= k < |post| ==> Rectangular(post[k])) && i < |g.rows|
    ensures forall k :: 0 <= k < |pre + [g] + post| ==> Rectangular((pre + [g] + post)[k])
    ensures |PresentRows(before)| + i < |Concat(pre + [g] + post).rows|
    ensures Concat(pre + [g] + post).rows[|PresentRows(before)| + i]
            == Realign(g.rows[i], g.columns, Concat(pre + [g] + post).columns)
  {
    ConcatAt(pre, g, post, i);
    ConcatRowsCount(before, Concat(pre + [g] + post).columns);
  }

  /** Row `i` of the existing file `files[p]` is, in the loaded table, the row right
      after those of the existing files before it: its cleaned cells laid out under
      the concatenated header. The loaded rows thus follow the order of the files. */
  lemma LoadedRowAt(files: seq<Option<Table>>, p: nat, i: nat)
    requires InputsRectangular(files) && p < |files| && files[p].Some? && i < |files[p].value.rows|
    ensures InputsRectangular(files[..p])
    ensures |PresentRows(files[..p])| + i < |Loaded(files).rows|
    ensures Loaded(files).rows[|PresentRows(files[..p])| + i]
            == Realign(CleanFrame(files[p].value).rows[i], CleanHeader(files[p].value.columns), Loaded(files).columns)
  {
    LoadedAtFile(files, p);
    CleanedRowAfter(files[..p], CleanFrame(files[p].value), files[p + 1..], i);
    assert CleanFrame(files[p].value).columns == CleanHeader(files[p].value.columns);
  }

  /** `ConcatRowAfter` for the cleaned tables of `before`, then `g`, then those of `after`. */
  lemma CleanedRowAfter(before: seq<Option<Table>>, g: Table, after: seq<Option<Table>>, i: nat)
    requires InputsRectangular(before) && InputsRectangular(after) && Rectangular(g) && i < |g.rows|
    ensures forall k :: 0 <= k < |Cleaned(before) + [g] + Cleaned(after)| ==> Rectangular((Cleaned(before) + [g] + Cleaned(after))[k])
    ensures var t := Concat(Cleaned(before) + [g] + Cleaned(after));
            && |PresentRows(before)| + i < |t.rows|
            && t.rows[|PresentRows(before)| + i] == Realign(g.rows[i], g.columns, t.columns)
  {
    ConcatRowAfter(Cleaned(before), g, Cleaned(after), before, i);
  }
}

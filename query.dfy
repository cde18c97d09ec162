/**
 The two endpoints as functions of the four tables: `get_pathogens` lists the
 sorted distinct names of a category, `get_details` normalises the category's
 identifying column (a change to the tables, given here as the function
 `Normalized`) and returns the cleaned record of the first row whose
 identifier equals the normalised request.
 */
module Query {

  import opened Wrappers
  import opened Text
  import opened Sorting
  import opened Frame
  import opened Config

  /** The three error responses of the endpoints. */
  datatype ApiError =
    | InvalidCategory
    | MissingColumn(column: string)
    | NotFound(pathogen: string, category: string)

  /** The HTTP status that goes with each error. */
  function Status(e: ApiError): (code: int)
    ensures code == 404 <==> e.NotFound?
    ensures code == 400 <==> !e.NotFound?
  {
    match e
    case InvalidCategory => 400
    case MissingColumn(_) => 400
    case NotFound(_, _) => 404
  }

  /** `x` occurs in `text` between single quotes. */
  predicate Quotes(text: string, x: string)
  {
    exists i, j :: 1 <= i <= j < |text| && text[i - 1] == '\'' && text[i..j] == x && text[j] == '\''
  }

  /** `x` occurs in `text`. */
  predicate Mentions(text: string, x: string)
  {
    exists i, j :: 0 <= i <= j <= |text| && text[i..j] == x
  }

  /** The text of the `"error"` field: it quotes the missing column, or the requested
      name and the category of a failed lookup. */
  function Message(e: ApiError): (text: string)
    ensures e.InvalidCategory? ==> text == "Invalid category"
    ensures e.MissingColumn? ==> Quotes(text, e.column)
    ensures e.NotFound? ==> Quotes(text, e.pathogen) && Mentions(text, e.category)
  {
    match e
    case InvalidCategory => "Invalid category"
    case MissingColumn(col) =>
      var text := "Column '" + col + "' not found in dataset";
      assert text[7] == '\'' && text[8..8 + |col|] == col && text[8 + |col|] == '\'';
      text
    case NotFound(p, c) =>
      var text := "No match found for '" + p + "' in " + c + " dataset.";
      assert text[19] == '\'' && text[20..20 + |p|] == p && text[20 + |p|] == '\'';
      assert text[25 + |p|..25 + |p| + |c|] == c;
      text
  }

  datatype Response<T> = Ok(value: T) | Fail(error: ApiError)

  /** `DATASETS`: one table per category. */
  type Datasets = map<Category, Table>

  predicate ValidState(ds: Datasets)
  {
    (forall c: Category :: c in ds) && (forall c :: c in ds ==> WellFormed(ds[c]))
  }

  /** The checks both endpoints run first: the category, then its identifying column. */
  function Validate(ds: Datasets, category: string): (r: Response<Category>)
    requires ValidState(ds)
    ensures r == Fail(InvalidCategory) <==> ParseCategory(category).None?
    ensures r.Ok? <==> ParseCategory(category).Some? && ColumnOf(ParseCategory(category).value) in ds[ParseCategory(category).value].columns
    ensures r.Ok? ==> Name(r.value) == category
    ensures r.Fail? && r != Fail(InvalidCategory) ==>
              ParseCategory(category).Some? && r == Fail(MissingColumn(ColumnOf(ParseCategory(category).value)))
  {
    match ParseCategory(category)
    case None => Fail(InvalidCategory)
    case Some(c) =>
      if ColumnOf(c) in ds[c].columns then Ok(c) else Fail(MissingColumn(ColumnOf(c)))
  }

  /** Position of the identifying column of a validated category. */
  function IdIndex(ds: Datasets, c: Category): (k: nat)
    requires ValidState(ds) && ColumnOf(c) in ds[c].columns
    ensures k < |ds[c].columns| && ds[c].columns[k] == ColumnOf(c)
  {
    IndexOf(ds[c].columns, ColumnOf(c))
  }

  /** Some row of `t` holds the string `v` in its column `k`. */
  predicate HasValue(t: Table, k: nat, v: string)
    requires Rectangular(t) && k < |t.columns|
  {
    exists i :: 0 <= i < |t.rows| && t.rows[i][k] == Some(v)
  }

  /** `dropna()`: the present values, in order. */
  function PresentValues(cells: seq<Cell>): (r: seq<string>)
    ensures forall v :: v in r <==> Some(v) in cells
  {
    if cells == [] then []
    else
      assert cells == [cells[0]] + cells[1..];
      match cells[0]
      case None => PresentValues(cells[1..])
      case Some(s) => [s] + PresentValues(cells[1..])
  }

  /** `unique()`: each value once, in order of first appearance. */
  function Unique(xs: seq<string>): (r: seq<string>)
    ensures NoDuplicates(r)
    ensures forall v :: v in r <==> v in xs
  {
    if xs == [] then []
    else
      var init := xs[..|xs| - 1];
      assert xs == init + [xs[|xs| - 1]];
      var u := Unique(init);
      if xs[|xs| - 1] in u then u else u + [xs[|xs| - 1]]
  }

  /** `get_pathogens(category)`. */
  function ListPathogens(ds: Datasets, category: string): (r: Response<seq<string>>)
    requires ValidState(ds)
    ensures Validate(ds, category).Fail? ==> r == Fail(Validate(ds, category).error)
    ensures Validate(ds, category).Ok? ==> r.Ok?
    ensures r.Ok? ==>
              var c := Validate(ds, category).value;
              && StrictlySorted(r.value) && NoDuplicates(r.value)
              && forall v :: v in r.value <==> HasValue(ds[c], IdIndex(ds, c), v)
  {
    match Validate(ds, category)
    case Fail(e) => Fail(e)
    case Ok(c) =>
      var t, k := ds[c], IdIndex(ds, c);
      var sorted := Sort(Unique(PresentValues(Column(t, k))));
      SortedListing(t, k);
      StrictlySortedHasNoDuplicates(sorted);
      Ok(sorted)
  }

  /** The sorted distinct present values of column `k` ascend strictly and are
      exactly the values some row holds there. */
  lemma SortedListing(t: Table, k: nat)
    requires Rectangular(t) && k < |t.columns|
    ensures var r := Sort(Unique(PresentValues(Column(t, k))));
            StrictlySorted(r) && forall v :: v in r <==> HasValue(t, k, v)
  {
    var u := Unique(PresentValues(Column(t, k)));
    var sorted := Sort(u);
    SortedPermutationStrict(u, sorted);
    assert forall v :: v in sorted <==> v in multiset(u);
    ColumnHasValue(t, k);
  }

  lemma ColumnHasValue(t: Table, k: nat)
    requires Rectangular(t) && k < |t.columns|
    ensures forall v :: Some(v) in Column(t, k) <==> HasValue(t, k, v)
  {
    var col := Column(t, k);
    forall v ensures Some(v) in col <==> HasValue(t, k, v) {
      if Some(v) in col {
        var i :| 0 <= i < |col| && col[i] == Some(v);
        assert t.rows[i][k] == Some(v);
      }
      if HasValue(t, k, v) {
        var i :| 0 <= i < |t.rows| && t.rows[i][k] == Some(v);
        assert col[i] == Some(v);
      }
    }
  }

  /** `astype(str)`: a missing cell prints as "nan". */
  function AsStr(c: Cell): (s: string)
    ensures c.Some? ==> s == c.value
    ensures c.None? ==> s == "nan"
  {
    match c
    case None => "nan"
    case Some(s) => s
  }

  /** `df[col] = df[col].astype(str).str.strip().str.lower()` on column `k`. */
  function NormalizeColumn(t: Table, k: nat): (r: Table)
    requires Rectangular(t) && k < |t.columns|
    ensures r.columns == t.columns && |r.rows| == |t.rows| && Rectangular(r)
    ensures forall i, j :: 0 <= i < |t.rows| && 0 <= j < |t.columns| ==>
              r.rows[i][j] == if j == k then Some(Normalize(AsStr(t.rows[i][k]))) else t.rows[i][j]
  {
    Table(t.columns, seq(|t.rows|, i requires 0 <= i < |t.rows| => t.rows[i][k := Some(Normalize(AsStr(t.rows[i][k])))]))
  }

  /** The tables after `get_details(category, _)`: the identifying column of a
      validated category is normalised; on a failed check nothing changes. */
  function Normalized(ds: Datasets, category: string): (r: Datasets)
    requires ValidState(ds)
    ensures ValidState(r)
    ensures Validate(ds, category).Fail? ==> r == ds
    ensures Validate(ds, category).Ok? ==>
              var c := Validate(ds, category).value;
              r == ds[c := NormalizeColumn(ds[c], IdIndex(ds, c))]
  {
    match Validate(ds, category)
    case Fail(_) => ds
    case Ok(c) => ds[c := NormalizeColumn(ds[c], IdIndex(ds, c))]
  }

  /** `row.iloc[0]` of `df[df[col] == key]`: the first row holding `key` in column `k`. */
  function FirstMatch(rows: seq<seq<Cell>>, k: nat, key: string): (r: Option<nat>)
    requires forall i :: 0 <= i < |rows| ==> k < |rows[i]|
    ensures r.Some? ==> r.value < |rows| && rows[r.value][k] == Some(key)
    ensures r.Some? ==> forall i :: 0 <= i < r.value ==> rows[i][k] != Some(key)
    ensures r.None? <==> forall i :: 0 <= i < |rows| ==> rows[i][k] != Some(key)
  {
    if rows == [] then None
    else if rows[0][k] == Some(key) then Some(0)
    else
      match FirstMatch(rows[1..], k, key)
      case None => None
      case Some(i) => Some(i + 1)
  }

  /** One field of the response: missing or blank becomes "N/A", anything else is stripped. */
  function CleanCell(c: Cell): (r: string)
    ensures r != [] && IsTrimmed(r)
    ensures c.None? ==> r == "N/A"
    ensures c.Some? ==> r == if Trim(c.value) == [] then "N/A" else Trim(c.value)
  {
    match c
    case None => "N/A"
    case Some(s) => if Trim(s) == [] then "N/A" else Trim(s)
  }

  /** The cleaned field of every cell of a row. */
  function CleanCells(row: seq<Cell>): (r: seq<string>)
    ensures |r| == |row|
  {
    seq(|row|, i requires 0 <= i < |row| => CleanCell(row[i]))
  }

  /** The dictionary a loop builds by binding `keys[i]` to `values[i]` in order. */
  function Zip(keys: seq<string>, values: seq<string>): (r: map<string, string>)
    requires |keys| == |values|
    ensures forall c :: c in r ==> c in keys
    ensures |keys| > 0 ==> keys[|keys| - 1] in r && r[keys[|keys| - 1]] == values[|keys| - 1]
  {
    if keys == [] then map[]
    else Zip(keys[..|keys| - 1], values[..|values| - 1])[keys[|keys| - 1] := values[|values| - 1]]
  }

  /** One more iteration binds one more key. */
  lemma ZipSnoc(keys: seq<string>, values: seq<string>, j: nat)
    requires |keys| == |values| && j < |keys|
    ensures Zip(keys[..j + 1], values[..j + 1]) == Zip(keys[..j], values[..j])[keys[j] := values[j]]
  {
    assert keys[..j + 1][..j] == keys[..j] && values[..j + 1][..j] == values[..j];
  }

  /** The keys bound are exactly the keys iterated over. */
  lemma {:induction false} ZipKeys(keys: seq<string>, values: seq<string>)
    requires |keys| == |values|
    ensures forall c :: c in Zip(keys, values) <==> c in keys
  {
    if keys != [] {
      var n := |keys| - 1;
      ZipKeys(keys[..n], values[..n]);
      assert keys == keys[..n] + [keys[n]];
    }
  }

  /** Over distinct keys, every key ends up bound to its own value. */
  lemma {:induction false} ZipValues(keys: seq<string>, values: seq<string>)
    requires NoDuplicates(keys) && |keys| == |values|
    ensures forall j :: 0 <= j < |keys| ==> keys[j] in Zip(keys, values) && Zip(keys, values)[keys[j]] == values[j]
  {
    if keys != [] {
      var n := |keys| - 1;
      ZipKeys(keys, values);
      ZipValues(keys[..n], values[..n]);
      forall j | 0 <= j < n ensures keys[j] != keys[n] && keys[..n][j] == keys[j] && values[..n][j] == values[j] {
      }
    }
  }

  /** `clean_details` for one row: every column, each with its cleaned field. */
  function Record(columns: seq<string>, row: seq<Cell>): (r: map<string, string>)
    requires NoDuplicates(columns) && |row| == |columns|
    ensures forall c :: c in r <==> c in columns
    ensures forall j :: 0 <= j < |columns| ==> r[columns[j]] == CleanCell(row[j])
  {
    var fields := CleanCells(row);
    ZipKeys(columns, fields);
    ZipValues(columns, fields);
    Zip(columns, fields)
  }

  /** `get_details(category, pathogen)`: the response; the tables change as `Normalized` says. */
  function Details(ds: Datasets, category: string, pathogen: string): (r: Response<map<string, string>>)
    requires ValidState(ds)
    ensures Validate(ds, category).Fail? ==> r == Fail(Validate(ds, category).error)
    ensures Validate(ds, category).Ok? ==>
              var c := Validate(ds, category).value;
              var t, k := ds[c], IdIndex(ds, c);
              && (r.Ok? <==> exists i :: 0 <= i < |t.rows| && Normalize(AsStr(t.rows[i][k])) == Normalize(pathogen))
              && (r.Fail? ==> r.error == NotFound(pathogen, category))
              && (r.Ok? ==> forall col :: col in r.value <==> col in t.columns)
  {
    match Validate(ds, category)
    case Fail(e) => Fail(e)
    case Ok(c) =>
      var k := IdIndex(ds, c);
      var t := NormalizeColumn(ds[c], k);
      match FirstMatch(t.rows, k, Normalize(pathogen))
      case None => Fail(NotFound(pathogen, category))
      case Some(i) => Ok(Record(t.columns, t.rows[i]))
  }

  /** An unknown category is refused by both endpoints before anything else, and nothing changes. */
  lemma UnknownCategory(ds: Datasets, category: string, pathogen: string)
    requires ValidState(ds) && ParseCategory(category).None?
    ensures ListPathogens(ds, category) == Fail(InvalidCategory)
    ensures Details(ds, category, pathogen) == Fail(InvalidCategory)
    ensures Normalized(ds, category) == ds
    ensures Status(InvalidCategory) == 400 && Message(InvalidCategory) == "Invalid category"
  {
  }

  /** A known category whose table lacks its identifying column is refused by both
      endpoints with a message naming that column, and its table is left alone. */
  lemma MissingIdColumn(ds: Datasets, c: Category, pathogen: string)
    requires ValidState(ds) && ColumnOf(c) !in ds[c].columns
    ensures ListPathogens(ds, Name(c)) == Fail(MissingColumn(ColumnOf(c)))
    ensures Details(ds, Name(c), pathogen) == Fail(MissingColumn(ColumnOf(c)))
    ensures Normalized(ds, Name(c)) == ds
    ensures Status(MissingColumn(ColumnOf(c))) == 400
  {
    ParseName(c, Name(c));
  }

  /** The normalisation of the identifying column is idempotent. */
  lemma NormalizeColumnIdempotent(t: Table, k: nat)
    requires Rectangular(t) && k < |t.columns|
    ensures NormalizeColumn(NormalizeColumn(t, k), k) == NormalizeColumn(t, k)
  {
    var n := NormalizeColumn(t, k);
    var nn := NormalizeColumn(n, k);
    forall i | 0 <= i < |t.rows| ensures nn.rows[i] == n.rows[i] {
      NormalizeIdempotent(AsStr(t.rows[i][k]));
    }
  }

  /** What a lookup changes: only the identifying column of the requested category,
      whose cells all become strings in comparison form. */
  lemma NormalizedChangesOnlyIdColumn(ds: Datasets, category: string)
    requires ValidState(ds) && Validate(ds, category).Ok?
    ensures var c := Validate(ds, category).value;
            var k, r := IdIndex(ds, c), Normalized(ds, category);
            && (forall d :: d != c ==> r[d] == ds[d])
            && r[c].columns == ds[c].columns && |r[c].rows| == |ds[c].rows|
            && (forall i, j :: 0 <= i < |ds[c].rows| && 0 <= j < |ds[c].columns| && j != k ==> r[c].rows[i][j] == ds[c].rows[i][j])
            && (forall i :: 0 <= i < |ds[c].rows| ==> r[c].rows[i][k].Some? && IsNormal(r[c].rows[i][k].value))
  {
  }

  /** A second lookup on the same category leaves the tables as the first one left them. */
  lemma NormalizedIdempotent(ds: Datasets, category: string)
    requires ValidState(ds)
    ensures Normalized(Normalized(ds, category), category) == Normalized(ds, category)
  {
    var r := Normalized(ds, category);
    if Validate(ds, category).Ok? {
      var c := Validate(ds, category).value;
      assert Validate(r, category) == Validate(ds, category);
      assert IdIndex(r, c) == IdIndex(ds, c);
      NormalizeColumnIdempotent(ds[c], IdIndex(ds, c));
    }
  }

  /** Lookups after the side effect answer exactly as before it. */
  lemma DetailsAfterLookup(ds: Datasets, category: string, pathogen: string)
    requires ValidState(ds)
    ensures Details(Normalized(ds, category), category, pathogen) == Details(ds, category, pathogen)
  {
    var r := Normalized(ds, category);
    if Validate(ds, category).Ok? {
      var c := Validate(ds, category).value;
      assert Validate(r, category) == Validate(ds, category);
      assert IdIndex(r, c) == IdIndex(ds, c);
      NormalizeColumnIdempotent(ds[c], IdIndex(ds, c));
    }
  }

  /** The values of a normalised column are the normal forms of the old cells. */
  lemma NormalizedColumnValues(t: Table, k: nat, v: string)
    requires Rectangular(t) && k < |t.columns|
    ensures HasValue(NormalizeColumn(t, k), k, v) <==> exists i :: 0 <= i < |t.rows| && v == Normalize(AsStr(t.rows[i][k]))
  {
    var nt := NormalizeColumn(t, k);
    if HasValue(nt, k, v) {
      var i :| 0 <= i < |nt.rows| && nt.rows[i][k] == Some(v);
      assert v == Normalize(AsStr(t.rows[i][k]));
    }
    if exists i :: 0 <= i < |t.rows| && v == Normalize(AsStr(t.rows[i][k])) {
      var i :| 0 <= i < |t.rows| && v == Normalize(AsStr(t.rows[i][k]));
      assert nt.rows[i][k] == Some(v);
    }
  }

  /** After a lookup the list of a category is the listing of its normalised column. */
  lemma ListNormalized(ds: Datasets, category: string)
    requires ValidState(ds) && Validate(ds, category).Ok?
    ensures var c := Validate(ds, category).value;
            var k := IdIndex(ds, c);
            var r := ListPathogens(Normalized(ds, category), category);
            && r.Ok?
            && StrictlySorted(r.value)
            && forall v :: v in r.value <==> HasValue(NormalizeColumn(ds[c], k), k, v)
  {
    var c := Validate(ds, category).value;
    var n := Normalized(ds, category);
    assert Validate(n, category) == Validate(ds, category);
    assert IdIndex(n, c) == IdIndex(ds, c);
  }

  /** After a lookup the list of a category holds the normalised identifiers:
      trimmed, lower-case, and "nan" for a row whose identifier was missing. */
  lemma ListAfterLookup(ds: Datasets, category: string)
    requires ValidState(ds) && Validate(ds, category).Ok?
    ensures var c := Validate(ds, category).value;
            var t, k := ds[c], IdIndex(ds, c);
            var r := ListPathogens(Normalized(ds, category), category);
            && r.Ok?
            && StrictlySorted(r.value)
            && (forall v :: v in r.value ==> IsNormal(v))
            && (forall v :: v in r.value <==> exists i :: 0 <= i < |t.rows| && v == Normalize(AsStr(t.rows[i][k])))
  {
    var c := Validate(ds, category).value;
    ListNormalized(ds, category);
    NormalizedListing(ds[c], IdIndex(ds, c), ListPathogens(Normalized(ds, category), category).value);
  }

  /** A list holding exactly the values of a normalised column holds exactly the
      normal forms of the old cells, each in normal form. */
  lemma NormalizedListing(t: Table, k: nat, r: seq<string>)
    requires Rectangular(t) && k < |t.columns|
    requires forall v :: v in r <==> HasValue(NormalizeColumn(t, k), k, v)
    ensures forall v :: v in r ==> IsNormal(v)
    ensures forall v :: v in r <==> exists i :: 0 <= i < |t.rows| && v == Normalize(AsStr(t.rows[i][k]))
  {
    forall v ensures HasValue(NormalizeColumn(t, k), k, v) <==> exists i :: 0 <= i < |t.rows| && v == Normalize(AsStr(t.rows[i][k])) {
      NormalizedColumnValues(t, k, v);
    }
  }

  /** Every listed name can be looked up: right away, and after any number of
      lookups have normalised the table. */
  lemma RoundTrip(ds: Datasets, category: string, x: string)
    requires ValidState(ds)
    requires ListPathogens(ds, category).Ok? && x in ListPathogens(ds, category).value
    ensures Details(ds, category, x).Ok?
    ensures Details(Normalized(ds, category), category, x).Ok?
  {
    var c := Validate(ds, category).value;
    var t, k := ds[c], IdIndex(ds, c);
    assert HasValue(t, k, x);
    var i :| 0 <= i < |t.rows| && t.rows[i][k] == Some(x);
    assert Normalize(AsStr(t.rows[i][k])) == Normalize(x);
    DetailsAfterLookup(ds, category, x);
  }

  /** A name listed after the side effect can be looked up as well. */
  lemma RoundTripAfterLookup(ds: Datasets, category: string, x: string)
    requires ValidState(ds)
    requires ListPathogens(Normalized(ds, category), category).Ok?
    requires x in ListPathogens(Normalized(ds, category), category).value
    ensures Details(Normalized(ds, category), category, x).Ok?
    ensures Details(ds, category, x).Ok?
  {
    RoundTrip(Normalized(ds, category), category, x);
    DetailsAfterLookup(ds, category, x);
  }

  /** The fields of a cleaned record: "N/A" for a missing or whitespace-only cell,
      the stripped text otherwise. */
  lemma RecordFields(columns: seq<string>, row: seq<Cell>)
    requires NoDuplicates(columns) && |row| == |columns|
    ensures var r := Record(columns, row);
            forall j :: 0 <= j < |columns| ==>
              && ((row[j].None? || AllSpace(row[j].value)) ==> r[columns[j]] == "N/A")
              && (row[j].Some? && !AllSpace(row[j].value) ==> r[columns[j]] == Trim(row[j].value))
              && r[columns[j]] != [] && IsTrimmed(r[columns[j]])
  {
    forall j | 0 <= j < |columns| && row[j].Some? {
      TrimEmptyIffAllSpace(row[j].value);
    }
  }

  /** The record built from row `i` after normalisation: its identifying field is the
      normal form of the old identifier (or "N/A" when that is blank), and every other
      field is the cleaned old cell. */
  lemma NormalizedRecordFields(t: Table, k: nat, i: nat)
    requires WellFormed(t) && k < |t.columns| && i < |t.rows|
    ensures var r := Record(t.columns, NormalizeColumn(t, k).rows[i]);
            var id := Normalize(AsStr(t.rows[i][k]));
            && r[t.columns[k]] == (if id == [] then "N/A" else id)
            && forall j :: 0 <= j < |t.columns| && j != k ==> r[t.columns[j]] == CleanCell(t.rows[i][j])
  {
    var nt := NormalizeColumn(t, k);
    TrimOfTrimmed(Normalize(AsStr(t.rows[i][k])));
    assert nt.rows[i][k] == Some(Normalize(AsStr(t.rows[i][k])));
    forall j | 0 <= j < |t.columns| && j != k ensures nt.rows[i][j] == t.rows[i][j] {
    }
  }

  /** A successful lookup returns the record of the first row whose identifier,
      normalised, equals the normalised request; its identifying field is then the
      normalised request itself (or "N/A" when that is blank). */
  lemma DetailsFirstRow(ds: Datasets, category: string, pathogen: string, i: nat)
    requires ValidState(ds) && Validate(ds, category).Ok?
    requires var c := Validate(ds, category).value;
             var t, k := ds[c], IdIndex(ds, c);
             && i < |t.rows|
             && Normalize(AsStr(t.rows[i][k])) == Normalize(pathogen)
             && forall m :: 0 <= m < i ==> Normalize(AsStr(t.rows[m][k])) != Normalize(pathogen)
    ensures var c := Validate(ds, category).value;
            var t, k := ds[c], IdIndex(ds, c);
            var r := Details(ds, category, pathogen);
            && r == Ok(Record(t.columns, NormalizeColumn(t, k).rows[i]))
            && r.value[ColumnOf(c)] == (if Normalize(pathogen) == [] then "N/A" else Normalize(pathogen))
  {
    var c := Validate(ds, category).value;
    var t, k := ds[c], IdIndex(ds, c);
    DetailsAtRow(ds, category, pathogen, i);
    NormalizedRecordFields(t, k, i);
  }

  lemma DetailsAtRow(ds: Datasets, category: string, pathogen: string, i: nat)
    requires ValidState(ds) && Validate(ds, category).Ok?
    requires var c := Validate(ds, category).value;
             var t, k := ds[c], IdIndex(ds, c);
             && i < |t.rows|
             && Normalize(AsStr(t.rows[i][k])) == Normalize(pathogen)
             && forall m :: 0 <= m < i ==> Normalize(AsStr(t.rows[m][k])) != Normalize(pathogen)
    ensures var c := Validate(ds, category).value;
            var t, k := ds[c], IdIndex(ds, c);
            Details(ds, category, pathogen) == Ok(Record(t.columns, NormalizeColumn(t, k).rows[i]))
  {
    var c := Validate(ds, category).value;
    var t, k := ds[c], IdIndex(ds, c);
    var nt := NormalizeColumn(t, k);
    var key := Normalize(pathogen);
    assert nt.rows[i][k] == Some(key);
    forall m | 0 <= m < i ensures nt.rows[m][k] != Some(key) {
      assert nt.rows[m][k] == Some(Normalize(AsStr(t.rows[m][k])));
    }
    FirstMatchAt(nt.rows, k, key, i);
  }

  /** The first row holding `key` is the one `FirstMatch` finds. */
  lemma FirstMatchAt(rows: seq<seq<Cell>>, k: nat, key: string, i: nat)
    requires forall m :: 0 <= m < |rows| ==> k < |rows[m]|
    requires i < |rows| && rows[i][k] == Some(key)
    requires forall m :: 0 <= m < i ==> rows[m][k] != Some(key)
    ensures FirstMatch(rows, k, key) == Some(i)
  {
  }
}

/**
 The process-wide tables and the two endpoints over them. The tables are
 loaded once; `get_details` overwrites the identifying column of the requested
 category in place, so the store is an object whose lookup method modifies it.
 */
module Store {

  import opened Wrappers
  import opened Text
  import opened Frame
  import opened Loader
  import opened Config
  import opened Query
  import opened Sorting

  /** The loop that fills `clean_details`, column by column. */
  method CleanDetails(columns: seq<string>, row: seq<Cell>) returns (rec: map<string, string>)
    requires NoDuplicates(columns) && |row| == |columns|
    ensures rec == Record(columns, row)
  {
    ghost var fields := CleanCells(row);
    rec := map[];
    for j := 0 to |columns|
      invariant rec == Zip(columns[..j], fields[..j])
    {
      var field: string;
      if row[j].None? || Trim(row[j].value) == [] {
        field := "N/A";
      } else {
        field := Trim(row[j].value);
      }
      assert field == fields[j];
      ZipSnoc(columns, fields, j);
      rec := rec[columns[j] := field];
    }
    assert columns[..|columns|] == columns && fields[..|fields|] == fields;
  }

  /** One well-formed table per category makes a valid state. */
  lemma FourTables(v: Table, b: Table, f: Table, o: Table)
    requires WellFormed(v) && WellFormed(b) && WellFormed(f) && WellFormed(o)
    ensures ValidState(map[Virus := v, Bacteria := b, Fungi := f, Others := o])
  {
    var ds := map[Virus := v, Bacteria := b, Fungi := f, Others := o];
    forall c: Category ensures c in ds && WellFormed(ds[c]) {
      match c
      case Virus =>
      case Bacteria =>
      case Fungi =>
      case Others =>
    }
  }

  class PathogenStore {

    /** `DATASETS`. */
    var datasets: Datasets

    ghost predicate Valid()
      reads this
    {
      ValidState(datasets)
    }

    /** Loads each category's files once, as the module does at start-up. */
    constructor (virus: seq<Option<Table>>, bacteria: seq<Option<Table>>,
                 fungi: seq<Option<Table>>, others: seq<Option<Table>>)
      requires InputsRectangular(virus) && InputsRectangular(bacteria)
      requires InputsRectangular(fungi) && InputsRectangular(others)
      ensures Valid()
      ensures datasets == map[Virus := Loaded(virus), Bacteria := Loaded(bacteria),
                              Fungi := Loaded(fungi), Others := Loaded(others)]
    {
      var v := LoadMultiple(virus);
      var b := LoadMultiple(bacteria);
      var f := LoadMultiple(fungi);
      var o := LoadMultiple(others);
      var ds := map[Virus := v, Bacteria := b, Fungi := f, Others := o];
      FourTables(v, b, f, o);
      datasets := ds;
    }

    /** `get_pathogens(category)` on the current tables. */
    function GetPathogens(category: string): (r: Response<seq<string>>)
      reads this
      requires Valid()
      ensures Validate(datasets, category).Fail? ==> r == Fail(Validate(datasets, category).error)
      ensures Validate(datasets, category).Ok? ==>
                var c := Validate(datasets, category).value;
                && r.Ok?
                && StrictlySorted(r.value)
                && forall v :: v in r.value <==> HasValue(datasets[c], IdIndex(datasets, c), v)
    {
      ListPathogens(datasets, category)
    }

    /** `get_details(category, pathogen)`: checks, then normalises the identifying
        column in place whether or not a row matches, then looks the name up. */
    method GetDetails(category: string, pathogen: string) returns (r: Response<map<string, string>>)
      requires Valid()
      modifies this
      ensures Valid()
      ensures r == Details(old(datasets), category, pathogen)
      ensures datasets == Normalized(old(datasets), category)
    {
      var parsed := ParseCategory(category);
      if parsed.None? {
        return Fail(InvalidCategory);
      }
      var c := parsed.value;
      var col := ColumnOf(c);
      if col !in datasets[c].columns {
        return Fail(MissingColumn(col));
      }
      var k := IdIndex(datasets, c);
      var t := NormalizeColumn(datasets[c], k);
      datasets := datasets[c := t];
      var key := Normalize(pathogen);
      var found := FirstMatch(t.rows, k, key);
      if found.None? {
        return Fail(NotFound(pathogen, category));
      }
      var rec := CleanDetails(t.columns, t.rows[found.value]);
      return Ok(rec);
    }
  }
}

/**
 Concrete requests against a small virus table, worked through the model:
 an unknown category, a lookup that ignores case and surrounding blanks, a
 blank field reported as "N/A", and a name that is not in the table.
 */
module Scenarios {

  import opened Wrappers
  import opened Text
  import opened Frame
  import opened Config
  import opened Query
  import Sorting

  /** Two viruses, one with a blank host; the other categories are empty. */
  function Sample(): (ds: Datasets)
    ensures ValidState(ds)
  {
    var virus := Table(["Virus", "Host"],
                       [[Some("Ebola"), Some("")],
                        [Some("Zika"), Some("Mosquito")]]);
    var ds := map[Virus := virus, Bacteria := Empty(), Fungi := Empty(), Others := Empty()];
    assert forall c: Category :: c in ds by {
      CategoriesRegistered(ds);
    }
    ds
  }

  /** A map that names each of the four categories has them all as keys. */
  lemma CategoriesRegistered(ds: Datasets)
    requires Virus in ds && Bacteria in ds && Fungi in ds && Others in ds
    ensures forall c: Category :: c in ds
  {
    forall c: Category ensures c in ds {
      match c
      case Virus =>
      case Bacteria =>
      case Fungi =>
      case Others =>
    }
  }

  /** A category outside the four registered keys is refused with status 400. */
  lemma PlantIsInvalid()
    ensures ListPathogens(Sample(), "plant") == Fail(InvalidCategory)
    ensures Details(Sample(), "plant", "rose") == Fail(InvalidCategory)
    ensures Status(InvalidCategory) == 400
  {
    UnknownCategory(Sample(), "plant", "rose");
  }

  /** Two rows, Ebola then Zika, in the virus table. */
  predicate EbolaThenZika(ds: Datasets)
    requires ValidState(ds)
  {
    && ds[Virus].columns == ["Virus", "Host"]
    && |ds[Virus].rows| == 2
    && ds[Virus].rows[0][0] == Some("Ebola")
    && ds[Virus].rows[1][0] == Some("Zika")
  }

  /** The listing holds exactly the two identifiers. */
  lemma ListVirusMembers(ds: Datasets)
    requires ValidState(ds) && EbolaThenZika(ds)
    ensures ListPathogens(ds, "virus").Ok?
    ensures forall v :: v in ListPathogens(ds, "virus").value <==> v == "Ebola" || v == "Zika"
  {
    var t := ds[Virus];
    assert IdIndex(ds, Virus) == 0;
    assert HasValue(t, 0, "Ebola") && HasValue(t, 0, "Zika") by {
      assert t.rows[0][0] == Some("Ebola") && t.rows[1][0] == Some("Zika");
    }
    forall v | HasValue(t, 0, v) ensures v == "Ebola" || v == "Zika" {
      var i :| 0 <= i < |t.rows| && t.rows[i][0] == Some(v);
      assert i == 0 || i == 1;
    }
  }

  /** The listing is the identifiers, sorted. */
  lemma ListVirus(ds: Datasets)
    requires ValidState(ds) && EbolaThenZika(ds)
    ensures ListPathogens(ds, "virus") == Ok(["Ebola", "Zika"])
  {
    ListVirusMembers(ds);
    var r := ListPathogens(ds, "virus").value;
    var expected := ["Ebola", "Zika"];
    assert Sorting.Less(expected[0], expected[1]);
    Sorting.StrictlySortedUnique(r, expected);
  }

  /** The normal form of a string that is already trimmed is its lower-case form. */
  lemma NormalizeTrimmed(s: string, lower: string)
    requires IsTrimmed(s) && Lower(s) == lower
    ensures Normalize(s) == lower
  {
    TrimOfTrimmed(s);
  }

  lemma TrimRequest()
    ensures Trim(" EBola ") == "EBola"
  {
    assert " EBola " == " " + "EBola" + " ";
    TrimOfPadded(" ", "EBola", " ");
  }

  lemma LowerRequest()
    ensures Lower("EBola") == "ebola"
  {
  }

  /** Surrounding blanks and upper case in a request do not matter. */
  lemma NormalizeRequest()
    ensures Normalize(" EBola ") == "ebola"
  {
    TrimRequest();
    LowerRequest();
  }

  /** Blanks around a request and the case of its letters are both ignored. */
  lemma CaseAndMargins(s: string, t: string, pad1: string, pad2: string)
    requires AllSpace(pad1) && AllSpace(pad2) && Lower(s) == Lower(t)
    ensures Normalize(pad1 + s + pad2) == Normalize(t)
  {
    NormalizeIgnoresMargins(s, pad1, pad2);
    NormalizeIgnoresCase(s, t);
  }

  lemma LowerInfluenza()
    ensures Lower("InFluenza A") == "influenza a"
    ensures Lower("Influenza A") == "influenza a"
  {
  }

  lemma InfluenzaRequest()
    ensures Normalize("  InFluenza A  ") == Normalize("Influenza A")
  {
    assert "  InFluenza A  " == "  " + "InFluenza A" + "  ";
    LowerInfluenza();
    CaseAndMargins("InFluenza A", "Influenza A", "  ", "  ");
  }

  lemma NormalizeEbola()
    ensures Normalize("Ebola") == "ebola"
  {
    assert Lower("Ebola") == "ebola";
    NormalizeTrimmed("Ebola", "ebola");
  }

  lemma NormalizeZika()
    ensures Normalize("Zika") == "zika"
  {
    assert Lower("Zika") == "zika";
    NormalizeTrimmed("Zika", "zika");
  }

  /** A virus table whose first row is Ebola with a blank host. */
  predicate EbolaFirst(ds: Datasets)
    requires ValidState(ds)
  {
    && ds[Virus].columns == ["Virus", "Host"]
    && |ds[Virus].rows| > 0
    && ds[Virus].rows[0] == [Some("Ebola"), Some("")]
  }

  /** Normalising the identifier column turns the Ebola row's identifier to lower case. */
  lemma EbolaRow(t: Table)
    requires WellFormed(t) && t.columns == ["Virus", "Host"]
    requires |t.rows| > 0 && t.rows[0] == [Some("Ebola"), Some("")]
    ensures NormalizeColumn(t, 0).rows[0] == [Some("ebola"), Some("")]
  {
    NormalizeEbola();
    var row := NormalizeColumn(t, 0).rows[0];
    assert row[0] == Some(Normalize(AsStr(t.rows[0][0])));
    assert row[1] == t.rows[0][1];
  }

  /** The record of a two-column row. */
  lemma RecordPair(a: string, b: string, x: Cell, y: Cell)
    requires a != b
    ensures NoDuplicates([a, b])
    ensures Record([a, b], [x, y]) == map[a := CleanCell(x), b := CleanCell(y)]
  {
    assert CleanCells([x, y]) == [CleanCell(x), CleanCell(y)];
    ZipPair(a, b, CleanCell(x), CleanCell(y));
  }

  lemma ZipPair(a: string, b: string, u: string, w: string)
    ensures Zip([a, b], [u, w]) == map[a := u, b := w]
  {
    assert [a, b][..1] == [a] && [u, w][..1] == [u];
    assert [a][..0] == [] && [u][..0] == [];
    assert Zip([a], [u]) == map[a := u];
    assert Zip([a, b], [u, w]) == Zip([a], [u])[b := w];
  }

  /** The cleaned record of that row. */
  lemma EbolaRecord()
    ensures NoDuplicates(["Virus", "Host"])
    ensures Record(["Virus", "Host"], [Some("ebola"), Some("")]) == map["Virus" := "ebola", "Host" := "N/A"]
  {
    RecordPair("Virus", "Host", Some("ebola"), Some(""));
    assert CleanCell(Some("ebola")) == "ebola" by {
      TrimOfTrimmed("ebola");
    }
    assert CleanCell(Some("")) == "N/A" by {
      TrimOfTrimmed("");
    }
  }

  /** A lookup ignores case and surrounding blanks; the response carries the
      identifier as stored after normalisation (lower case), and the blank host
      is reported as "N/A". */
  lemma EbolaDetails(ds: Datasets)
    requires ValidState(ds) && EbolaFirst(ds)
    ensures Details(ds, "virus", " EBola ") == Ok(map["Virus" := "ebola", "Host" := "N/A"])
  {
    var t := ds[Virus];
    assert IdIndex(ds, Virus) == 0;
    NormalizeRequest();
    NormalizeEbola();
    assert Normalize(AsStr(t.rows[0][0])) == Normalize(" EBola ");
    DetailsAtRow(ds, "virus", " EBola ", 0);
    EbolaRow(t);
    EbolaRecord();
  }

  /** A table whose identifiers are all Ebola or Zika. */
  predicate OnlyEbolaAndZika(ds: Datasets)
    requires ValidState(ds)
  {
    && ds[Virus].columns == ["Virus", "Host"]
    && forall i :: 0 <= i < |ds[Virus].rows| ==> ds[Virus].rows[i][0] == Some("Ebola") || ds[Virus].rows[i][0] == Some("Zika")
  }

  lemma NoMumps(ds: Datasets)
    requires ValidState(ds) && OnlyEbolaAndZika(ds)
    ensures forall i :: 0 <= i < |ds[Virus].rows| ==> Normalize(AsStr(ds[Virus].rows[i][0])) != "mumps"
  {
    NormalizeEbola();
    NormalizeZika();
  }

  /** A name that is not in the table is answered with status 404. */
  lemma UnknownPathogen(ds: Datasets)
    requires ValidState(ds) && OnlyEbolaAndZika(ds)
    ensures Details(ds, "virus", "mumps") == Fail(NotFound("mumps", "virus"))
    ensures Status(NotFound("mumps", "virus")) == 404
  {
    assert IdIndex(ds, Virus) == 0;
    NoMumps(ds);
    NormalOfNormal("mumps");
  }

  /** The sample table fits both scenarios. */
  lemma SampleFits()
    ensures EbolaThenZika(Sample()) && EbolaFirst(Sample()) && OnlyEbolaAndZika(Sample())
  {
  }
}

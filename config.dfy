/**
 The fixed configuration: the four categories the service knows (the keys of
 `DATASETS`) and, for each, the column that identifies a pathogen in its table
 (`COLUMN_MAP`).
 */
module Config {

  import opened Wrappers
  import opened Text

  datatype Category = Virus | Bacteria | Fungi | Others

  /** The key under which a category's table is registered. */
  function Name(c: Category): (key: string)
    ensures key in {"virus", "bacteria", "fungi", "others"}
    ensures IsLower(key)
  {
    match c
    case Virus => "virus"
    case Bacteria => "bacteria"
    case Fungi => "fungi"
    case Others => "others"
  }

  /** `category in DATASETS`: exact, case-sensitive match of a registered key. */
  function ParseCategory(s: string): (r: Option<Category>)
    ensures r.Some? ==> Name(r.value) == s
    ensures r.None? ==> forall c: Category :: Name(c) != s
  {
    if s == "virus" then Some(Virus)
    else if s == "bacteria" then Some(Bacteria)
    else if s == "fungi" then Some(Fungi)
    else if s == "others" then Some(Others)
    else None
  }

  /** `COLUMN_MAP[category]`. */
  function ColumnOf(c: Category): (col: string)
    ensures col in {"Virus", "Bacterium", "Fungus", "Pathogen"}
    ensures col != [] && IsTrimmed(col)
  {
    match c
    case Virus => "Virus"
    case Bacteria => "Bacterium"
    case Fungi => "Fungus"
    case Others => "Pathogen"
  }

  /** Every category is found under its own key, and only there. */
  lemma ParseName(c: Category, s: string)
    ensures ParseCategory(s) == Some(c) <==> s == Name(c)
  {
  }

  /** Each category is tied to one identifying column, and no two share it. */
  lemma ColumnMapInjective(c: Category, d: Category)
    ensures ColumnOf(c) == ColumnOf(d) <==> c == d
  {
  }
}

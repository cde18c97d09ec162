# Pathogen Explorer, modelled in Dafny

Pathogen Explorer is a small Flask service. At start-up it loads one table per
pathogen category (virus, bacteria, fungi, others) from CSV files. It then
answers two JSON endpoints:

- `get_pathogens/<category>` returns the sorted, distinct, present values of the
  category's identifying column (`Virus`, `Bacterium`, `Fungus`, `Pathogen`).
- `get_details/<category>/<pathogen>` looks a name up. Case and surrounding
  blanks are ignored. The answer is the first matching row as a dictionary of
  cleaned fields: a missing or blank field becomes `"N/A"`, and every other field
  is stripped.

Both endpoints first check the category (400 "Invalid category") and then the
identifying column (400 "Column '…' not found in dataset"). A failed lookup
answers 404. A lookup has a lasting side effect: it rewrites the category's
identifying column, in the shared table, into its trimmed lower-case text form.

The model is arranged by module:

- `Wrappers`: the optional value used for missing cells and missing files.
- `Seqs`: facts about concatenating sequences that the other modules use.
- `Text`: Python's `str.strip`, `str.lower` and `str.isspace` over ASCII, and the
  comparison form `Normalize` (strip, then lower).
- `Sorting`: Python's ordering of strings, and `sorted` as an insertion sort.
- `Frame`: a DataFrame as a header of distinct labels plus rows of optional cells.
- `Loader`: `load_multiple_csv`. It is written as a loop, proved against the
  function `Loaded`, which models cleaning each file and then `pd.concat`.
- `Config`: the `DATASETS` keys and `COLUMN_MAP`.
- `Query`: both endpoints as functions over the map of tables, plus the
  function `Normalized` that gives the tables after a lookup.
- `Store`: the process-wide state as a class. Its `GetDetails` method modifies
  the tables and is proved against `Query`. Its loop that builds
  `clean_details` is proved against `Query.Record`.
- `Scenarios`: concrete requests against a two-row virus table.

The record's identifying field is lower case (`"ebola"`, not `"Ebola"`),
because app.py:67 rewrites the identifying column before app.py:76 reads the
row; see `Query.DetailsFirstRow` and `Scenarios.EbolaDetails`.

## Model

| member | source | states |
|---|---|---|
| Loader.TrimCell | app.py:15 | a string cell is stripped and comes out free of surrounding whitespace; a missing cell stays missing, and only a missing cell is missing |
| Loader.CleanHeader | app.py:14 | stripping the header keeps one label per column |
| Loader.CleanFrame | app.py:14-15 | the cleaned file is rectangular; its headers are the stripped headers; each string cell is stripped and each missing cell stays missing; afterwards every header and cell is free of surrounding whitespace |
| Loader.Cleaned | app.py:9-16 | every collected table is rectangular and trimmed; none is collected exactly when no file exists |
| Loader.AddColumns | app.py:17 | extending a header by new labels keeps it free of duplicates, keeps the old header as a prefix, and holds exactly the labels of both |
| Loader.UnionColumns | app.py:17 | the concatenated header has no duplicates and holds exactly the labels of the collected tables |
| Loader.Realign | app.py:17 | a row placed under the union header takes each shared column's cell, with a missing cell for each column its file lacks |
| Loader.ConcatRows | app.py:17 | every concatenated row has one cell per union column |
| Loader.RealignRows | app.py:17 | a file keeps its number of rows when placed under the union header |
| Loader.Concat | app.py:17 | the concatenation is a well-formed table |
| Loader.Loaded | app.py:8-17 | the loaded table is well formed: rectangular, with distinct labels |
| Loader.LoadMultiple | app.py:8-17 | the loop over the files gives exactly `Loaded(files)` |
| Loader.CleanedSnoc | app.py:10-16 | one more file adds its cleaned table, if it exists, and its rows at the end |
| Loader.CleanedAppend | app.py:10-16 | cleaning goes file by file: the tables and rows of `a + b` are those of `a` followed by those of `b` |
| Loader.LoadedSkipsAbsent | app.py:11 | a file that does not exist changes nothing in the loaded table |
| Loader.ConcatRowsTrimmed | app.py:15-17 | concatenation keeps every present cell stripped |
| Loader.ConcatRowsCount | app.py:17 | the concatenation has as many rows as the present files together |
| Loader.InHeadersSnoc | app.py:17 | a label is in the headers of `dfs + [t]` exactly when it is in those of `dfs` or of `t` |
| Loader.InCleanHeadersSnoc | app.py:10-16 | a stripped label of `files + [f]` comes from `files` or from `f` when `f` exists |
| Loader.CleanedColumns | app.py:14-16 | the labels of the collected tables are exactly the stripped labels of the existing files |
| Loader.LoadedProperties | app.py:8-17 | the loaded table is well formed and trimmed; it is the empty DataFrame when no file exists; it has as many rows as the present files together; its columns are exactly the stripped headers of the existing files |
| Loader.PresentRowsEmpty | app.py:11-17 | without existing files there are no rows |
| Loader.AddColumnsSubsumed | app.py:17 | a header whose labels are already present adds nothing |
| Loader.AddColumnsFresh | app.py:17 | distinct new labels are appended in order |
| Loader.RealignSame | app.py:17 | a row already laid out under the union header is unchanged |
| Loader.RealignRowsSame | app.py:17 | a table already laid out under the union header keeps its rows |
| Loader.SharedHeaderConcat | app.py:17 | when all files share one stripped header, the union is that header and the rows are simply stacked |
| Loader.ConcatRowsAt | app.py:17 | row `i` of the `p`-th table is the concatenated row right after the rows of the tables before it, laid out under the union header |
| Loader.ConcatAt | app.py:17 | in the concatenation of `pre`, then a table `g`, then `post`, row `i` of `g` sits after the rows of `pre`, realigned to the union header |
| Loader.CleanedRowAfter | app.py:10-17 | the same placement for the cleaned tables of the files before an existing file, its cleaned table, and the cleaned tables of the files after it |
| Loader.LoadedRowAt | app.py:8-17 | row `i` of an existing file is, in the loaded table, the row right after the rows of the existing files before it, its cleaned cells laid out under the concatenated header: the loaded rows follow file order |
| Loader.CleanedAround | app.py:10-16 | an existing file between two lists of files contributes its cleaned table between their cleaned tables |
| Loader.CleanedAtFile | app.py:10-16 | the collected tables split around an existing file: those of the files before it, its own cleaned table, those of the files after it |
| Loader.LoadedAtFile | app.py:10-17 | the loaded table is the concatenation of the cleaned tables before an existing file, its own cleaned table and the cleaned tables after it |
| Loader.ConcatRowAfter | app.py:17 | in the concatenation of the cleaned files before an existing file, its cleaned table and any tables after it, row `i` of that table is the row right after the rows of the existing files before it, realigned to the union header |
| Loader.LoadedSharedHeader | app.py:8-17 | with a shared stripped header and at least one existing file, the loaded table is that header over the stacked cleaned rows |
| Config.Name | app.py:20-25 | each category's key is one of the four lower-case names `virus`, `bacteria`, `fungi`, `others` |
| Config.ColumnOf | app.py:28-33 | each category's identifying column is one of `Virus`, `Bacterium`, `Fungus`, `Pathogen`, non-empty and stripped |
| Config.ParseName | app.py:20-25 | each category is found under its own key and under no other text |
| Config.ColumnMapInjective | app.py:28-33 | each category has its own identifying column; no two share one |
| Config.ParseCategory | app.py:42 | a category is accepted only under its exact, case-sensitive key; any other text names no category |
| Frame.Empty | app.py:17 | `pd.DataFrame()` is a well-formed table with no columns and no rows |
| Frame.Column | app.py:51 | `df[col]` has one cell per row of the table |
| Frame.IndexOf | app.py:63 | the position found holds the label, and no earlier position does |
| Frame.IndexOfDistinct | app.py:63 | in a header of distinct labels, a label's position is its own index |
| Query.Status | app.py:43-73 | the status is 404 exactly for a failed lookup and 400 exactly for a refused category or column |
| Query.Message | app.py:43-73 | an unknown category reads "Invalid category"; a missing column's message quotes the column; a failed lookup's message quotes the request as given and names the category |
| Query.AsStr | app.py:67 | `astype(str)` keeps a string cell's text and turns a missing cell into `"nan"` |
| Query.Zip | app.py:77-82 | the dictionary's keys are among the columns, and the last column's binding is the last value written for it |
| Query.Validate | app.py:57-64 | the category check comes first, then the column check; success means a registered key whose table has its identifying column |
| Query.IdIndex | app.py:61-63 | the identifying column sits at the index returned |
| Query.PresentValues | app.py:51 | `dropna` keeps exactly the present values |
| Query.Unique | app.py:51 | `unique` has no duplicates and keeps exactly the values it was given |
| Query.ListPathogens | app.py:39-52 | the errors of the checks are passed on; otherwise the answer is a strictly ascending list, free of duplicates, holding exactly the values present in the identifying column |
| Query.SortedListing | app.py:51 | the sorted distinct present values ascend strictly and are exactly the values some row holds |
| Query.ColumnHasValue | app.py:51 | a value is in the column exactly when some row holds it |
| Query.NormalizeColumn | app.py:67 | only the identifying column changes; each of its cells becomes the stripped lower-case text form of the old cell, with `"nan"` for a missing one |
| Query.Normalized | app.py:57-67 | a failed check leaves the tables alone; otherwise only the requested category's table changes, by normalising its identifying column |
| Query.FirstMatch | app.py:70-76 | the index found is the first row holding the key; no index means no row does |
| Query.CleanCell | app.py:79-82 | a missing or blank field is "N/A"; any other field is its stripped text; the result is never empty and is stripped |
| Query.CleanCells | app.py:78-82 | one cleaned field per cell |
| Query.ZipSnoc | app.py:78-82 | one more iteration binds one more key |
| Query.ZipKeys | app.py:76-82 | the dictionary's keys are exactly the columns iterated over |
| Query.ZipValues | app.py:76-82 | over distinct columns, each key is bound to its own value |
| Query.Record | app.py:76-82 | the record has exactly the table's columns, each bound to the cleaned cell of that column |
| Query.Details | app.py:54-84 | the errors of the checks are passed on; the lookup succeeds exactly when some row's normalised identifier equals the normalised request; a failure is the 404 for that name and category; a success has exactly the table's columns |
| Query.UnknownCategory | app.py:42-58 | an unknown category is refused by both endpoints with status 400 and "Invalid category", and leaves the tables untouched |
| Query.MissingIdColumn | app.py:48-64 | a missing identifying column is refused by both endpoints with status 400, naming the column, and leaves the tables untouched |
| Query.NormalizeColumnIdempotent | app.py:67 | normalising the column twice is the same as once |
| Query.NormalizedChangesOnlyIdColumn | app.py:67 | a lookup changes only the identifying column of its own category, and leaves every cell there a normal-form string |
| Query.NormalizedIdempotent | app.py:57-67 | a second lookup on the same category leaves the tables as the first one left them |
| Query.DetailsAfterLookup | app.py:67-84 | a lookup answers the same before and after an earlier lookup's side effect |
| Query.NormalizedColumnValues | app.py:67 | after normalisation the column holds exactly the normal forms of the old cells |
| Query.ListNormalized | app.py:51-67 | after a lookup, the listing succeeds, ascends strictly and holds exactly the values of the normalised identifying column |
| Query.NormalizedListing | app.py:51-67 | a list holding exactly the values of a normalised column holds exactly the normal forms of the old cells, each in normal form |
| Query.ListAfterLookup | app.py:51-67 | after a lookup, the listing is sorted and holds exactly the normal forms of the old identifiers, each in normal form |
| Query.RoundTrip | app.py:51-72 | every listed name can be looked up, both before and after the side effect |
| Query.RoundTripAfterLookup | app.py:51-72 | every name listed after the side effect can be looked up, both before and after it |
| Query.RecordFields | app.py:78-82 | each field is "N/A" exactly for a missing or whitespace-only cell, and otherwise the stripped text; no field is empty |
| Query.NormalizedRecordFields | app.py:67-82 | in the record of a normalised row, the identifying field is the normal form of the old identifier (or "N/A" if blank), and every other field is the cleaned old cell |
| Query.DetailsFirstRow | app.py:67-82 | a match answers the record of the first matching row; its identifying field is the normalised request, or "N/A" when that is blank |
| Query.DetailsAtRow | app.py:67-76 | the first row whose normalised identifier matches is the one answered |
| Query.FirstMatchAt | app.py:70-76 | a row holding the key with no earlier such row is the first match |
| Store.CleanDetails | app.py:77-82 | the loop's dictionary is exactly `Record(columns, row)` |
| Store.PathogenStore.constructor | app.py:20-25 | each category's table is the table its files load to, and the state is valid |
| Store.FourTables | app.py:20-25 | four well-formed tables, one per category key, make a valid state |
| Store.PathogenStore.GetPathogens | app.py:39-52 | on the current tables, the errors of the checks are passed on; otherwise the answer is a strictly ascending list, free of duplicates, holding exactly the values present in the identifying column |
| Store.PathogenStore.GetDetails | app.py:54-84 | the answer is `Details` on the old tables; the new tables are `Normalized` of the old ones; the state stays valid |
| Text.IsSpace | app.py:15 | a whitespace character is never an ASCII letter |
| Text.SpaceCharacters | app.py:15 | the whitespace characters are exactly space, tab, line feed, carriage return, vertical tab, form feed and 0x1C-0x1F |
| Text.SkipLeft | app.py:67-68 | the scan stops at the first non-whitespace character, passing only whitespace |
| Text.SkipRight | app.py:67-68 | the backward scan stops after the last non-whitespace character, passing only whitespace |
| Text.SkipLeftAt | app.py:67-68 | the forward scan's stopping point is unique |
| Text.SkipRightAt | app.py:67-68 | the backward scan's stopping point is unique |
| Text.Trim | app.py:67-68 | `strip` gives a stripped string no longer than its input, removing only whitespace on either side |
| Text.TrimUnique | app.py:67-68 | any whitespace-only margins around a slice that starts and ends with non-whitespace make that slice the stripped string |
| Text.TrimOfTrimmed | app.py:82 | stripping a stripped string does nothing |
| Text.TrimIdempotent | app.py:82 | stripping twice is stripping once |
| Text.TrimOfPadded | app.py:67-68 | whitespace padding around a stripped string is removed |
| Text.TrimEmptyIffAllSpace | app.py:79 | a string strips to "" exactly when it is all whitespace |
| Text.LowerChar | app.py:67-68 | lowering a character leaves no upper-case ASCII letter and keeps whitespace as whitespace, and nothing else as whitespace |
| Text.Lower | app.py:67-68 | `lower` keeps the length and lowercases each character |
| Text.LowerIsLower | app.py:67-68 | the result of `lower` has no upper-case letter |
| Text.Normalize | app.py:67-68 | the comparison form is stripped, lower case, and no longer than its input |
| Text.NormalOfNormal | app.py:67-68 | a string already in comparison form is its own comparison form |
| Text.NormalizeIdempotent | app.py:67-68 | normalising twice is normalising once |
| Text.TrimSplit | app.py:67-68 | a string is its left margin, its stripped part and its right margin, and both margins are whitespace |
| Text.TrimIgnoresMargins | app.py:67-68 | adding whitespace on either side does not change the stripped string |
| Text.NormalizeIgnoresMargins | app.py:67-68 | adding whitespace on either side of a request does not change its comparison form |
| Text.LowerSlice | app.py:67-68 | lowering a slice is slicing the lowered string |
| Text.NormalizeIsTrimLower | app.py:67-68 | stripping then lowering is the same as lowering then stripping |
| Text.NormalizeIgnoresCase | app.py:67-68 | two strings with the same lower-case form have the same comparison form, whatever their case |
| Sorting.Less | app.py:51 | a proper prefix is below the longer string |
| Sorting.LessIrreflexive | app.py:51 | no string is below itself |
| Sorting.LessTransitive | app.py:51 | the string order is transitive |
| Sorting.LessTotal | app.py:51 | any two different strings are ordered |
| Sorting.LessAsymmetric | app.py:51 | two strings are never below each other |
| Sorting.LessEqAntisymmetric | app.py:51 | strings that are mutually at most each other are equal |
| Sorting.Insert | app.py:51 | inserting into a sorted list keeps it sorted and adds exactly the element |
| Sorting.Sort | app.py:51 | `sorted` gives an ascending permutation of its input |
| Sorting.SortedPermutationStrict | app.py:51 | sorting a list without duplicates gives a strictly ascending one |
| Sorting.StrictlySortedUnique | app.py:51 | a strictly ascending list is determined by its elements |
| Sorting.StrictlySortedHasNoDuplicates | app.py:51 | a strictly ascending list has no duplicates |
| Scenarios.PlantIsInvalid | app.py:42-58 | "plant" is refused by both endpoints with status 400 |
| Scenarios.ListVirus | app.py:51 | the Ebola/Zika table lists `["Ebola", "Zika"]` |
| Scenarios.NormalizeRequest | app.py:68 | the request " EBola " compares as "ebola" |
| Scenarios.CaseAndMargins | app.py:68-70 | a request in any case with whitespace either side compares as the same name in another case |
| Scenarios.LowerInfluenza | app.py:68 | "InFluenza A" and "Influenza A" lower to "influenza a" |
| Scenarios.InfluenzaRequest | app.py:68-70 | the request "  InFluenza A  " compares as "Influenza A" |
| Scenarios.EbolaDetails | app.py:67-84 | looking up " EBola " answers Virus "ebola" and Host "N/A" |
| Scenarios.UnknownPathogen | app.py:72-73 | looking up "mumps" answers the 404 for "mumps" in "virus" |

## Left out

- The Flask application, routing, `index` and its template (app.py:1-5, 35-37, 86-87) are not modelled. The JSON bodies are modelled as values (`Response`, `ApiError`, `Message`) without serialisation.
- File existence and CSV parsing are parameters. Each file is given as an optional table that is already parsed: `None` means the file does not exist.
- Only text cells are modelled. pandas' `NaN` is a missing cell. Numeric dtypes and numeric parsing are left out, so `astype(str)` is modelled for text and for missing cells (`"nan"`) only.
- Strings are sequences of characters. `isspace` and `lower` are modelled for ASCII only (space, 9-13, 28-31), not for the rest of Unicode.
- Tables with two headers that become equal after stripping are outside the model: the union of headers keeps one of them.
- Concurrent requests on the shared tables are not modelled. Requests are applied one after another.
